/** Long audio is transcribed in overlapping chunks; each recognised segment is kept by one owning chunk. */
module Transcription {
  const LONG_AUDIO_THRESHOLD_MS := 12 * 60 * 1_000
  const TRANSCRIPTION_CHUNK_MS := 10 * 60 * 1_000
  const TRANSCRIPTION_OVERLAP_MS := 30 * 1_000

  /** `input` is the stretch of audio recognised, `core` the part of it this chunk owns. */
  datatype Chunk = Chunk(inputStart: nat, inputEnd: nat, coreStart: nat, coreEnd: nat)

  datatype Segment = Segment(start: nat, end: nat, text: string) {
    function Shift(offset: nat): Segment {
      Segment(start + offset, end + offset, text)
    }

    function Midpoint(): nat {
      start + (if start <= end then end - start else 0) / 2
    }
  }

  function Min(a: nat, b: nat): nat {
    if a <= b then a else b
  }

  function Before(a: nat, b: nat): nat {
    if a <= b then 0 else a - b
  }

  // ---- Planning ----

  function ChunkCount(duration: nat): nat {
    if duration <= LONG_AUDIO_THRESHOLD_MS then 1
    else (duration + TRANSCRIPTION_CHUNK_MS - 1) / TRANSCRIPTION_CHUNK_MS
  }

  /** The i-th chunk in closed form. */
  function ChunkAt(duration: nat, i: nat): Chunk {
    if duration <= LONG_AUDIO_THRESHOLD_MS then Chunk(0, duration, 0, duration)
    else
      var from := i * TRANSCRIPTION_CHUNK_MS;
      var to := Min(from + TRANSCRIPTION_CHUNK_MS, duration);
      Chunk(Before(from, TRANSCRIPTION_OVERLAP_MS), Min(to + TRANSCRIPTION_OVERLAP_MS, duration), from, to)
  }

  method TranscriptionChunks(duration: nat) returns (chunks: seq<Chunk>)
    ensures |chunks| == ChunkCount(duration)
    ensures forall i | 0 <= i < |chunks| :: chunks[i] == ChunkAt(duration, i)
  {
    if duration <= LONG_AUDIO_THRESHOLD_MS {
      return [Chunk(0, duration, 0, duration)];
    }
    chunks := [];
    var coreStart := 0;
    while coreStart < duration
      invariant coreStart == Min(|chunks| * TRANSCRIPTION_CHUNK_MS, duration)
      invariant |chunks| <= ChunkCount(duration)
      invariant forall i | 0 <= i < |chunks| :: chunks[i] == ChunkAt(duration, i)
    {
      var coreEnd := Min(coreStart + TRANSCRIPTION_CHUNK_MS, duration);
      chunks := chunks + [Chunk(Before(coreStart, TRANSCRIPTION_OVERLAP_MS),
                                Min(coreEnd + TRANSCRIPTION_OVERLAP_MS, duration),
                                coreStart, coreEnd)];
      coreStart := coreEnd;
    }
  }

  /** The cores tile the audio without gap or overlap, each lies inside its input, and none of a real recording is empty. */
  lemma CoresTile(duration: nat, i: nat)
    requires i < ChunkCount(duration)
    ensures var c := ChunkAt(duration, i);
            && c.inputStart <= c.coreStart <= c.coreEnd <= c.inputEnd <= duration
            && (i == 0 ==> c.coreStart == 0)
            && (i + 1 < ChunkCount(duration) ==> c.coreEnd == ChunkAt(duration, i + 1).coreStart)
            && (i + 1 == ChunkCount(duration) ==> c.coreEnd == duration)
            && (duration > 0 ==> c.coreStart < c.coreEnd)
  {
  }

  /** In milliseconds: up to twelve minutes are one chunk, more is cut every ten with thirty seconds on either side. */
  lemma ChunkWindows(duration: nat, i: nat)
    requires i < ChunkCount(duration)
    ensures ChunkCount(duration) == 1 <==> duration <= 720_000
    ensures duration <= 720_000 ==> ChunkAt(duration, i) == Chunk(0, duration, 0, duration)
    ensures duration > 720_000 ==>
              var c := ChunkAt(duration, i);
              && c.coreStart == 600_000 * i && c.coreEnd == Min(600_000 * i + 600_000, duration)
              && c.inputStart == (if i == 0 then 0 else c.coreStart - 30_000)
              && c.inputEnd == Min(c.coreEnd + 30_000, duration)
  {
  }

  // ---- Ownership ----

  /** `segment` is timed from the start of the chunk's input. */
  predicate OwnsOriginalSegment(segment: Segment, chunk: Chunk, isLast: bool) {
    var midpoint := chunk.inputStart + segment.Midpoint();
    chunk.coreStart <= midpoint && (midpoint < chunk.coreEnd || (isLast && midpoint == chunk.coreEnd))
  }

  function Owned(segments: seq<Segment>, chunk: Chunk, isLong: bool, isLast: bool): seq<Segment> {
    if segments == [] then []
    else
      (if !isLong || OwnsOriginalSegment(segments[0], chunk, isLast) then [segments[0].Shift(chunk.inputStart)] else [])
      + Owned(segments[1..], chunk, isLong, isLast)
  }

  type Recognizer = Chunk -> seq<Segment>

  function Contribution(duration: nat, i: nat, recognized: seq<Segment>): seq<Segment> {
    Owned(recognized, ChunkAt(duration, i), ChunkCount(duration) > 1, i + 1 == ChunkCount(duration))
  }

  /** What the first `n` chunks contribute, in order. */
  function Merged(duration: nat, recognize: Recognizer, n: nat): seq<Segment> {
    if n == 0 then []
    else Merged(duration, recognize, n - 1) + Contribution(duration, n - 1, recognize(ChunkAt(duration, n - 1)))
  }

  method KeepOwned(recognized: seq<Segment>, chunk: Chunk, isLong: bool, isLast: bool) returns (kept: seq<Segment>)
    ensures kept == Owned(recognized, chunk, isLong, isLast)
  {
    kept := [];
    for j := 0 to |recognized|
      invariant kept + Owned(recognized[j..], chunk, isLong, isLast) == Owned(recognized, chunk, isLong, isLast)
    {
      assert recognized[j..][1..] == recognized[j + 1..];
      if !isLong || OwnsOriginalSegment(recognized[j], chunk, isLast) {
        kept := kept + [recognized[j].Shift(chunk.inputStart)];
      }
    }
    assert kept + [] == kept;
  }

  method Transcribe(duration: nat, recognize: Recognizer) returns (output: seq<Segment>)
    ensures output == Merged(duration, recognize, ChunkCount(duration))
  {
    var chunks := TranscriptionChunks(duration);
    output := [];
    for index := 0 to |chunks|
      invariant output == Merged(duration, recognize, index)
    {
      var chunk := chunks[index];
      var kept := KeepOwned(recognize(chunk), chunk, |chunks| > 1, index + 1 == |chunks|);
      assert kept == Contribution(duration, index, recognize(ChunkAt(duration, index)));
      output := output + kept;
    }
  }

  // ---- Chunked transcription against whole transcription ----

  /** A segment can be recognised in a chunk only if the chunk's input contains all of it. */
  predicate Hears(chunk: Chunk, segment: Segment) {
    chunk.inputStart <= segment.start && segment.end <= chunk.inputEnd
  }

  /** The recogniser that finds, in each chunk, exactly the segments of `whole` that lie in its input. */
  function Ideal(whole: seq<Segment>, chunk: Chunk): seq<Segment> {
    if whole == [] then []
    else
      (if Hears(chunk, whole[0])
       then [Segment(Before(whole[0].start, chunk.inputStart), Before(whole[0].end, chunk.inputStart), whole[0].text)]
       else [])
      + Ideal(whole[1..], chunk)
  }

  predicate Timed(whole: seq<Segment>, duration: nat) {
    forall s | s in whole :: s.start <= s.end <= duration
  }

  predicate MidpointOrdered(whole: seq<Segment>) {
    forall i, j | 0 <= i < j < |whole| :: whole[i].Midpoint() <= whole[j].Midpoint()
  }

  function Owner(duration: nat, segment: Segment): nat {
    if duration <= LONG_AUDIO_THRESHOLD_MS then 0
    else Min(segment.Midpoint() / TRANSCRIPTION_CHUNK_MS, ChunkCount(duration) - 1)
  }

  /** The chunk that owns the segment hears all of it. */
  predicate Survives(duration: nat, segment: Segment) {
    Hears(ChunkAt(duration, Owner(duration, segment)), segment)
  }

  function Alive(duration: nat): Segment -> bool {
    s => Survives(duration, s)
  }

  function OwnerOf(duration: nat): Segment -> nat {
    s => Owner(duration, s)
  }

  /** The members that `keep` accepts and whose key is below `n`. */
  function SelectBefore<T>(whole: seq<T>, keep: T -> bool, key: T -> nat, n: nat): seq<T> {
    if whole == [] then []
    else (if keep(whole[0]) && key(whole[0]) < n then [whole[0]] else []) + SelectBefore(whole[1..], keep, key, n)
  }

  function SelectAt<T>(whole: seq<T>, keep: T -> bool, key: T -> nat, n: nat): seq<T> {
    if whole == [] then []
    else (if keep(whole[0]) && key(whole[0]) == n then [whole[0]] else []) + SelectAt(whole[1..], keep, key, n)
  }

  lemma {:induction false} SelectNone<T>(whole: seq<T>, keep: T -> bool, key: T -> nat, n: nat)
    requires forall i | 0 <= i < |whole| :: key(whole[i]) >= n
    ensures SelectBefore(whole, keep, key, n) == []
  {
    if whole != [] {
      SelectNone(whole[1..], keep, key, n);
    }
  }

  /** In a list ordered by key, the members below n + 1 are those below n followed by those at n. */
  lemma {:induction false} SelectStep<T>(whole: seq<T>, keep: T -> bool, key: T -> nat, n: nat)
    requires forall i, j | 0 <= i < j < |whole| :: key(whole[i]) <= key(whole[j])
    ensures SelectBefore(whole, keep, key, n) + SelectAt(whole, keep, key, n) == SelectBefore(whole, keep, key, n + 1)
  {
    if whole != [] {
      SelectStep(whole[1..], keep, key, n);
      if key(whole[0]) >= n {
        SelectNone(whole[1..], keep, key, n);
      }
    }
  }

  /** The segments that survive, in order. */
  function Survivors(duration: nat, whole: seq<Segment>): seq<Segment> {
    if whole == [] then []
    else (if Survives(duration, whole[0]) then [whole[0]] else []) + Survivors(duration, whole[1..])
  }

  lemma OwnerIsUnique(duration: nat, segment: Segment, i: nat)
    requires duration > LONG_AUDIO_THRESHOLD_MS && i < ChunkCount(duration)
    requires segment.start <= segment.end <= duration && Hears(ChunkAt(duration, i), segment)
    ensures var c := ChunkAt(duration, i);
            var local := Segment(segment.start - c.inputStart, segment.end - c.inputStart, segment.text);
            && (OwnsOriginalSegment(local, c, i + 1 == ChunkCount(duration)) <==> Owner(duration, segment) == i)
            && local.Shift(c.inputStart) == segment
  {
    var m := segment.Midpoint();
    var k := m / TRANSCRIPTION_CHUNK_MS;
    assert k * TRANSCRIPTION_CHUNK_MS <= m < (k + 1) * TRANSCRIPTION_CHUNK_MS;
    assert m <= duration;
  }

  lemma OwnerMonotone(duration: nat, a: Segment, b: Segment)
    requires a.Midpoint() <= b.Midpoint()
    ensures Owner(duration, a) <= Owner(duration, b)
  {
  }

  lemma {:induction false} OwnedAppend(left: seq<Segment>, right: seq<Segment>, chunk: Chunk, isLong: bool, isLast: bool)
    ensures Owned(left + right, chunk, isLong, isLast)
            == Owned(left, chunk, isLong, isLast) + Owned(right, chunk, isLong, isLast)
  {
    if left == [] {
      assert left + right == right;
    } else {
      assert (left + right)[1..] == left[1..] + right;
      OwnedAppend(left[1..], right, chunk, isLong, isLast);
    }
  }

  /** A chunk contributes a segment exactly when it owns it and the segment survives. */
  lemma HeadContributes(duration: nat, head: Segment, i: nat)
    requires duration > LONG_AUDIO_THRESHOLD_MS && i < ChunkCount(duration)
    requires head.start <= head.end <= duration
    ensures Contribution(duration, i, Ideal([head], ChunkAt(duration, i)))
            == if Survives(duration, head) && Owner(duration, head) == i then [head] else []
  {
    var c := ChunkAt(duration, i);
    if Hears(c, head) {
      OwnerIsUnique(duration, head, i);
      var local := Segment(head.start - c.inputStart, head.end - c.inputStart, head.text);
      assert Ideal([head], c) == [local];
      assert Owned([local], c, true, i + 1 == ChunkCount(duration)) ==
             if OwnsOriginalSegment(local, c, i + 1 == ChunkCount(duration)) then [head] else [];
    } else {
      assert Ideal([head], c) == [];
    }
  }

  lemma ConsContributes(duration: nat, head: Segment, rest: seq<Segment>, i: nat)
    ensures var c := ChunkAt(duration, i);
            Contribution(duration, i, Ideal([head] + rest, c))
            == Contribution(duration, i, Ideal([head], c)) + Contribution(duration, i, Ideal(rest, c))
  {
    var c := ChunkAt(duration, i);
    assert ([head] + rest)[1..] == rest;
    assert Ideal([head] + rest, c) == Ideal([head], c) + Ideal(rest, c);
    OwnedAppend(Ideal([head], c), Ideal(rest, c), c, ChunkCount(duration) > 1, i + 1 == ChunkCount(duration));
  }

  /** One chunk contributes exactly the survivors it owns. */
  lemma {:induction false} ChunkContributes(duration: nat, whole: seq<Segment>, i: nat)
    requires duration > LONG_AUDIO_THRESHOLD_MS && i < ChunkCount(duration) && Timed(whole, duration)
    ensures Contribution(duration, i, Ideal(whole, ChunkAt(duration, i)))
            == SelectAt(whole, Alive(duration), OwnerOf(duration), i)
  {
    if whole == [] {
      assert Contribution(duration, i, []) == [];
    } else {
      assert whole[0] in whole && [whole[0]] + whole[1..] == whole;
      ChunkContributes(duration, whole[1..], i);
      HeadContributes(duration, whole[0], i);
      ConsContributes(duration, whole[0], whole[1..], i);
    }
  }

  lemma SelectMore(duration: nat, whole: seq<Segment>, i: nat)
    requires duration > LONG_AUDIO_THRESHOLD_MS && i < ChunkCount(duration)
    requires Timed(whole, duration) && MidpointOrdered(whole)
    ensures SelectBefore(whole, Alive(duration), OwnerOf(duration), i)
            + Contribution(duration, i, Ideal(whole, ChunkAt(duration, i)))
            == SelectBefore(whole, Alive(duration), OwnerOf(duration), i + 1)
  {
    forall j, k | 0 <= j < k < |whole| ensures OwnerOf(duration)(whole[j]) <= OwnerOf(duration)(whole[k]) {
      OwnerMonotone(duration, whole[j], whole[k]);
    }
    ChunkContributes(duration, whole, i);
    SelectStep(whole, Alive(duration), OwnerOf(duration), i);
  }

  /** A merge is any running total that each chunk's contribution extends. */
  lemma {:induction false} MergeIsTotal(duration: nat, recognize: Recognizer, total: nat -> seq<Segment>, n: nat)
    requires total(0) == []
    requires forall i: nat | i < n :: total(i + 1) == total(i) + Contribution(duration, i, recognize(ChunkAt(duration, i)))
    ensures Merged(duration, recognize, n) == total(n)
  {
    if n > 0 {
      MergeIsTotal(duration, recognize, total, n - 1);
      assert total(n - 1 + 1) == total(n);
    }
  }

  lemma MergedIsSelected(duration: nat, whole: seq<Segment>, recognize: Recognizer)
    requires duration > LONG_AUDIO_THRESHOLD_MS
    requires Timed(whole, duration) && MidpointOrdered(whole)
    requires forall c :: recognize(c) == Ideal(whole, c)
    ensures Merged(duration, recognize, ChunkCount(duration))
            == SelectBefore(whole, Alive(duration), OwnerOf(duration), ChunkCount(duration))
  {
    var total := (n: nat) => SelectBefore(whole, Alive(duration), OwnerOf(duration), n);
    SelectNone(whole, Alive(duration), OwnerOf(duration), 0);
    forall i: nat | i < ChunkCount(duration)
      ensures total(i + 1) == total(i) + Contribution(duration, i, recognize(ChunkAt(duration, i)))
    {
      SelectMore(duration, whole, i);
    }
    MergeIsTotal(duration, recognize, total, ChunkCount(duration));
  }

  lemma {:induction false} SelectAll(duration: nat, whole: seq<Segment>)
    ensures SelectBefore(whole, Alive(duration), OwnerOf(duration), ChunkCount(duration))
            == Survivors(duration, whole)
  {
    if whole != [] {
      SelectAll(duration, whole[1..]);
    }
  }

  lemma {:induction false} ShortKeepsAll(duration: nat, whole: seq<Segment>, chunk: Chunk)
    requires Timed(whole, duration) && chunk == Chunk(0, duration, 0, duration)
    ensures Owned(Ideal(whole, chunk), chunk, false, true) == whole
  {
    if whole != [] {
      assert whole[0] in whole;
      ShortKeepsAll(duration, whole[1..], chunk);
      assert Ideal(whole, chunk)[0] == whole[0] && Ideal(whole, chunk)[1..] == Ideal(whole[1..], chunk);
    }
  }

  /**
   * Chunk-and-merge gives the whole transcript with exactly those segments removed that stick out of the input
   * of the chunk that owns them; nothing is duplicated or reordered.
   */
  lemma ChunkedIsWholeMinusCut(duration: nat, whole: seq<Segment>, recognize: Recognizer)
    requires Timed(whole, duration) && MidpointOrdered(whole)
    requires forall c :: recognize(c) == Ideal(whole, c)
    ensures Merged(duration, recognize, ChunkCount(duration)) == Survivors(duration, whole)
  {
    if duration > LONG_AUDIO_THRESHOLD_MS {
      MergedIsSelected(duration, whole, recognize);
      SelectAll(duration, whole);
    } else {
      var chunk := ChunkAt(duration, 0);
      assert Merged(duration, recognize, 0) == [];
      assert Merged(duration, recognize, 1) == [] + Contribution(duration, 0, Ideal(whole, chunk));
      ShortKeepsAll(duration, whole, chunk);
      AllSurvive(duration, whole);
    }
  }

  /** The longest segment that no chunk boundary can cut: twice the overlap, and one millisecond of rounding. */
  const SAFE_SEGMENT_MS := 2 * TRANSCRIPTION_OVERLAP_MS + 1

  lemma SafeSurvives(duration: nat, segment: Segment)
    requires segment.start <= segment.end <= duration
    requires duration <= LONG_AUDIO_THRESHOLD_MS || segment.end - segment.start <= SAFE_SEGMENT_MS
    ensures Survives(duration, segment)
  {
    if duration > LONG_AUDIO_THRESHOLD_MS {
      var m := segment.Midpoint();
      var k := m / TRANSCRIPTION_CHUNK_MS;
      assert k * TRANSCRIPTION_CHUNK_MS <= m < (k + 1) * TRANSCRIPTION_CHUNK_MS;
    }
  }

  lemma {:induction false} AllSurvive(duration: nat, whole: seq<Segment>)
    requires Timed(whole, duration)
    requires forall s | s in whole :: duration <= LONG_AUDIO_THRESHOLD_MS || s.end - s.start <= SAFE_SEGMENT_MS
    ensures Survivors(duration, whole) == whole
  {
    if whole != [] {
      assert whole[0] in whole;
      SafeSurvives(duration, whole[0]);
      AllSurvive(duration, whole[1..]);
    }
  }

  /** When no segment is longer than 60.001 s, chunked transcription equals whole transcription. */
  lemma ChunkedEqualsWhole(duration: nat, whole: seq<Segment>, recognize: Recognizer)
    requires Timed(whole, duration) && MidpointOrdered(whole)
    requires forall s | s in whole :: s.end - s.start <= SAFE_SEGMENT_MS
    requires forall c :: recognize(c) == Ideal(whole, c)
    ensures Merged(duration, recognize, ChunkCount(duration)) == whole
  {
    ChunkedIsWholeMinusCut(duration, whole, recognize);
    AllSurvive(duration, whole);
  }

  lemma CutSegmentLost(duration: nat, s: Segment, recognize: Recognizer)
    requires s.start <= s.end <= duration && !Survives(duration, s)
    requires forall c :: recognize(c) == Ideal([s], c)
    ensures Merged(duration, recognize, ChunkCount(duration)) == []
  {
    ChunkedIsWholeMinusCut(duration, [s], recognize);
    assert Survivors(duration, [s][1..]) == [];
  }

  /** One millisecond more can be lost: this segment is owned by the second chunk, whose input starts too late. */
  lemma LongSegmentLost(recognize: Recognizer)
    requires forall c :: recognize(c) == Ideal([Segment(569_999, 630_001, "lost")], c)
    ensures Merged(900_000, recognize, ChunkCount(900_000)) == []
    ensures 630_001 - 569_999 == SAFE_SEGMENT_MS + 1
  {
    CutSegmentLost(900_000, Segment(569_999, 630_001, "lost"), recognize);
  }
}
