/** Translating a recording while it is still being transcribed. */
module Streaming {
  import opened Wrappers
  import opened SegmentCodec

  /** A finished transcription chunk, as it passes through the channel. */
  datatype Chunk = Chunk(index: nat, segments: seq<Segment>)

  datatype Strategy = Immediate | Economy

  datatype Settings = Settings(strategy: Strategy, batchSize: nat, tokenBudget: nat)

  datatype Confirmed = Confirmed(id: string, source: string, translation: string)

  /** Translating a group and reading the written file back: any list of cues, or an error. */
  type Translator = (nat, seq<Segment>, seq<Confirmed>) -> Result<seq<Segment>, string>

  function Source(chunks: seq<Chunk>): seq<Segment> {
    if chunks == [] then [] else Source(chunks[..|chunks| - 1]) + chunks[|chunks| - 1].segments
  }

  lemma {:induction false} SourceAppend(left: seq<Chunk>, right: seq<Chunk>)
    ensures Source(left + right) == Source(left) + Source(right)
    decreases |right|
  {
    if right == [] {
      assert left + right == left;
    } else {
      var init := right[..|right| - 1];
      assert (left + right)[..|left + right| - 1] == left + init;
      assert (left + right)[|left + right| - 1] == right[|right| - 1];
      SourceAppend(left, init);
    }
  }

  // ---- Restoring stable identity ----

  /** A translated cue carries its source's stable identifier and timing. */
  predicate Carries(source: Segment, translated: Segment) {
    && translated.identifier == (if source.identifier.Some? then source.identifier else Some(source.id))
    && translated.start == source.start
    && translated.end == source.end
  }

  predicate AllCarry(source: seq<Segment>, translated: seq<Segment>) {
    |source| == |translated| && forall i | 0 <= i < |source| :: Carries(source[i], translated[i])
  }

  function Relabel(source: Segment, translated: Segment): Segment {
    source.(text := translated.text)
  }

  function RelabelAll(source: seq<Segment>, translated: seq<Segment>): seq<Segment>
    requires |source| == |translated|
  {
    seq(|source|, i requires 0 <= i < |source| => Relabel(source[i], translated[i]))
  }

  /**
   * Give every translated cue its source's identity, keeping only the translated text.  At the first cue that
   * does not carry its source's identity the rest of the document is left alone.
   */
  method RestoreStableSourceIdentity(source: seq<Segment>, translated: array<Segment>) returns (ok: bool)
    modifies translated
    ensures ok <==> AllCarry(source, old(translated[..]))
    ensures ok ==> translated[..] == RelabelAll(source, old(translated[..]))
    ensures !ok && |source| == translated.Length ==>
              exists k | 0 <= k < |source| ::
                && !Carries(source[k], old(translated[..])[k])
                && (forall i | 0 <= i < k ::
                      Carries(source[i], old(translated[..])[i]) && translated[i] == Relabel(source[i], old(translated[..])[i]))
                && (forall i | k <= i < |source| :: translated[i] == old(translated[..])[i])
    ensures |source| != translated.Length ==> translated[..] == old(translated[..])
  {
    if |source| != translated.Length {
      return false;
    }
    ghost var before := translated[..];
    for i := 0 to |source|
      invariant forall j | 0 <= j < i :: Carries(source[j], before[j]) && translated[j] == Relabel(source[j], before[j])
      invariant forall j | i <= j < |source| :: translated[j] == before[j]
    {
      var stable := if source[i].identifier.Some? then source[i].identifier.value else source[i].id;
      if translated[i].identifier != Some(stable) || translated[i].start != source[i].start
         || translated[i].end != source[i].end
      {
        assert !Carries(source[i], before[i]);
        return false;
      }
      translated[i] := source[i].(text := translated[i].text);
    }
    assert translated[..] == RelabelAll(source, before);
    ok := true;
  }

  predicate Aligned(source: seq<Segment>, translated: seq<Segment>) {
    |source| == |translated| && forall i | 0 <= i < |source| :: source[i].id == translated[i].id
  }

  /** Everything but the text is the source's. */
  predicate SameButText(source: seq<Segment>, translated: seq<Segment>) {
    |source| == |translated| &&
    forall i | 0 <= i < |source| :: translated[i] == source[i].(text := translated[i].text)
  }

  method ValidateGroupAlignment(source: seq<Segment>, translated: seq<Segment>) returns (ok: bool)
    ensures ok <==> Aligned(source, translated)
  {
    if |source| != |translated| {
      return false;
    }
    for i := 0 to |source|
      invariant forall j | 0 <= j < i :: source[j].id == translated[j].id
    {
      if source[i].id != translated[i].id {
        return false;
      }
    }
    ok := true;
  }

  // ---- One group ----

  /** What translating a group yields: the source cues with translated text, or an error. */
  function GroupResult(translate: Translator, index: nat, source: seq<Segment>, context: seq<Confirmed>)
    : (r: Result<seq<Segment>, string>)
    ensures r.Ok? ==> SameButText(source, r.value)
  {
    var translated :- translate(index, source, context);
    if AllCarry(source, translated) then Ok(RelabelAll(source, translated))
    else Err("translation changed stable cue identity or timing")
  }

  method TranslateChunkGroup(translate: Translator, index: nat, chunks: seq<Chunk>, context: seq<Confirmed>)
    returns (r: Result<seq<Segment>, string>)
    ensures r.Ok? <==> chunks != [] && GroupResult(translate, index, Source(chunks), context).Ok?
    ensures chunks != [] ==> r == GroupResult(translate, index, Source(chunks), context)
  {
    if chunks == [] {
      return Err("empty incremental translation group");
    }
    var source := Source(chunks);
    var read := translate(index, source, context);
    if read.Err? {
      return read;
    }
    var document := new Segment[|read.value|](i requires 0 <= i < |read.value| => read.value[i]);
    assert document[..] == read.value;
    var restored := RestoreStableSourceIdentity(source, document);
    if !restored {
      return Err("translation changed stable cue identity or timing");
    }
    var aligned := ValidateGroupAlignment(source, document[..]);
    if !aligned {
      assert false;
      return Err("persisted incremental translation shard is not aligned with its source chunk");
    }
    r := Ok(document[..]);
  }

  // ---- Buffering chunks into groups ----

  function SegmentTokens(segments: seq<Segment>): nat {
    if segments == [] then 0
    else SegmentTokens(segments[..|segments| - 1]) + (|segments[|segments| - 1].text| + 3) / 4 + 8
  }

  lemma {:induction false} SegmentTokensAppend(a: seq<Segment>, b: seq<Segment>)
    ensures SegmentTokens(a + b) == SegmentTokens(a) + SegmentTokens(b)
    decreases |b|
  {
    if b == [] {
      assert a + b == a;
    } else {
      assert (a + b)[..|a + b| - 1] == a + b[..|b| - 1];
      assert (a + b)[|a + b| - 1] == b[|b| - 1];
      SegmentTokensAppend(a, b[..|b| - 1]);
    }
  }

  /** A cue costs eight tokens and one for every four characters begun. */
  lemma SegmentTokensOfOne(segment: Segment) returns (k: nat)
    ensures SegmentTokens([segment]) == 8 + k
    ensures if segment.text == "" then k == 0 else 4 * (k - 1) < |segment.text| <= 4 * k
  {
    k := (|segment.text| + 3) / 4;
    assert [segment][..0] == [];
  }

  predicate EconomyBufferReady(pending: seq<Chunk>, settings: Settings) {
    |Source(pending)| >= settings.batchSize || SegmentTokens(Source(pending)) >= settings.tokenBudget
  }

  predicate Flushes(pending: seq<Chunk>, settings: Settings) {
    settings.strategy.Immediate? || EconomyBufferReady(pending, settings)
  }

  /** No shorter run of the group's chunks would have been flushed. */
  predicate Shortest(group: seq<Chunk>, settings: Settings) {
    group != [] && forall k | 0 < k < |group| :: !Flushes(group[..k], settings)
  }

  function Flatten(groups: seq<seq<Chunk>>): seq<Chunk> {
    if groups == [] then [] else Flatten(groups[..|groups| - 1]) + groups[|groups| - 1]
  }

  /** Every group but the last is the shortest run of chunks that reaches the threshold. */
  predicate Grouped(groups: seq<seq<Chunk>>, settings: Settings) {
    && (forall i | 0 <= i < |groups| :: Shortest(groups[i], settings))
    && (forall i | 0 <= i < |groups| - 1 :: Flushes(groups[i], settings))
  }

  /** The groups flushed so far and the chunks still waiting. */
  datatype Grouping = Grouping(groups: seq<seq<Chunk>>, pending: seq<Chunk>)

  /** Chunks wait until they are ready to be flushed together. */
  function Group(settings: Settings, chunks: seq<Chunk>): Grouping {
    if chunks == [] then Grouping([], [])
    else
      var before := Group(settings, chunks[..|chunks| - 1]);
      var pending := before.pending + [chunks[|chunks| - 1]];
      if Flushes(pending, settings) then Grouping(before.groups + [pending], []) else before.(pending := pending)
  }

  /** At the end of the stream what still waits is the last group. */
  function Groups(settings: Settings, chunks: seq<Chunk>): seq<seq<Chunk>> {
    var g := Group(settings, chunks);
    if g.pending == [] then g.groups else g.groups + [g.pending]
  }

  /** Source and translated cues side by side, as far as both go. */
  function Pairs(source: seq<Segment>, translated: seq<Segment>): seq<Confirmed>
    decreases |source|
  {
    if source == [] || translated == [] then []
    else [Confirmed(source[0].id, source[0].text, translated[0].text)] + Pairs(source[1..], translated[1..])
  }

  function Skip<T>(s: seq<T>, n: nat): seq<T> {
    if n <= |s| then s[n..] else []
  }

  function Keep(source: seq<Segment>, translated: seq<Segment>, limit: nat): nat {
    Min(Min(|source|, |translated|), if limit == 0 then 1 else limit)
  }

  function Min(a: nat, b: nat): nat {
    if a <= b then a else b
  }

  /** The context handed on to the next group: the end of the pairs, counted from the source's length. */
  function ConfirmedTail(source: seq<Segment>, translated: seq<Segment>, limit: nat): seq<Confirmed> {
    Skip(Pairs(source, translated), |source| - Keep(source, translated, limit))
  }

  lemma {:induction false} PairsAt(source: seq<Segment>, translated: seq<Segment>)
    ensures |Pairs(source, translated)| == Min(|source|, |translated|)
    ensures forall k | 0 <= k < |Pairs(source, translated)| ::
              Pairs(source, translated)[k] == Confirmed(source[k].id, source[k].text, translated[k].text)
    decreases |source|
  {
    if source != [] && translated != [] {
      PairsAt(source[1..], translated[1..]);
    }
  }

  /**
   * The context is the last max(1, limit) cues, each with its own translation, if and only if the translation is not
   * shorter than the source; every cue that lacks a translation costs the context one pair.
   */
  lemma ConfirmedTailIsLast(source: seq<Segment>, translated: seq<Segment>, limit: nat)
    ensures var tail, keep := ConfirmedTail(source, translated, limit), Keep(source, translated, limit);
            && (|tail| == keep <==> |translated| >= |source| || keep == 0)
            && (|translated| < |source| ==>
                  |tail| == if keep > |source| - |translated| then keep - (|source| - |translated|) else 0)
            && (|translated| >= |source| ==> keep == Min(|source|, if limit == 0 then 1 else limit))
            && forall k | 0 <= k < |tail| ::
                 var i := |source| - keep + k;
                 i < |translated| && tail[k] == Confirmed(source[i].id, source[i].text, translated[i].text)
  {
    PairsAt(source, translated);
  }

  lemma TranslatedOne(groups: seq<seq<Chunk>>, n: nat, before: seq<Segment>, result: seq<Segment>)
    requires 0 < n <= |groups|
    requires SameButText(Source(Flatten(groups[..n - 1])), before) && SameButText(Source(groups[n - 1]), result)
    ensures SameButText(Source(Flatten(groups[..n])), before + result)
  {
    assert groups[..n][..n - 1] == groups[..n - 1];
    SourceAppend(Flatten(groups[..n - 1]), groups[n - 1]);
  }

  /** Translated cues so far and the context for the next group. */
  type Progress = (seq<Segment>, seq<Confirmed>)

  type GroupStep = (nat, seq<Chunk>, Progress) -> Result<Progress, string>

  /** Translating one group: only immediate mode hands a context on. */
  function TranslateStep(translate: Translator, settings: Settings): GroupStep {
    (index: nat, group: seq<Chunk>, before: Progress) =>
      match GroupResult(translate, index, Source(group), before.1)
      case Err(e) => Err(e)
      case Ok(result) =>
        Ok((before.0 + result,
            if settings.strategy.Immediate? then ConfirmedTail(Source(group), result, settings.batchSize) else []))
  }

  function Fold(step: GroupStep, groups: seq<seq<Chunk>>, n: nat): Result<Progress, string>
    requires n <= |groups|
    decreases n
  {
    if n == 0 then Ok(([], []))
    else
      match Fold(step, groups, n - 1)
      case Err(e) => Err(e)
      case Ok(before) => step(n - 1, groups[n - 1], before)
  }

  /** The context and the translation of the first `n` groups, in order. */
  function Translated(translate: Translator, settings: Settings, groups: seq<seq<Chunk>>, n: nat)
    : Result<Progress, string>
    requires n <= |groups|
  {
    Fold(TranslateStep(translate, settings), groups, n)
  }

  datatype Consumed = Consumed(segments: seq<Segment>, groups: nat, chunks: nat)

  /** `groups` are complete and `pending` waits; `slack` chunks at its end are not yet judged. */
  ghost predicate Buffered(settings: Settings, seen: seq<Chunk>, groups: seq<seq<Chunk>>, pending: seq<Chunk>, slack: nat)
  {
    && Flatten(groups) + pending == seen
    && Grouped(groups, settings) && (forall j | 0 <= j < |groups| :: Flushes(groups[j], settings))
    && (forall k | 0 < k <= |pending| - slack :: !Flushes(pending[..k], settings))
  }

  /** Translating groups changes nothing but text, whatever the translator answers. */
  lemma {:induction false} TranslationKeepsCues(translate: Translator, settings: Settings, groups: seq<seq<Chunk>>, n: nat)
    requires n <= |groups| && Translated(translate, settings, groups, n).Ok?
    ensures SameButText(Source(Flatten(groups[..n])), Translated(translate, settings, groups, n).value.0)
    decreases n
  {
    if n > 0 {
      TranslationKeepsCues(translate, settings, groups, n - 1);
      var before := Translated(translate, settings, groups, n - 1).value;
      var result := GroupResult(translate, n - 1, Source(groups[n - 1]), before.1).value;
      TranslatedOne(groups, n, before.0, result);
    }
  }

  /** All of `groups` have been translated. */
  ghost predicate Rendered(translate: Translator, settings: Settings, groups: seq<seq<Chunk>>,
                           segments: seq<Segment>, context: seq<Confirmed>)
  {
    && Translated(translate, settings, groups, |groups|) == Ok((segments, context))
    && (settings.strategy.Economy? ==> context == [])
  }

  /**
   * Consume the channel.  Success means that every group was translated in turn, with the context the one before
   * it confirmed; failure means that the work was cancelled or that translating some group failed.  `cancelled` is
   * what the check finds when it is made for each chunk.
   */
  method ConsumeTranslationChunks(received: seq<Chunk>, settings: Settings, translate: Translator,
                                  cancelled: nat -> bool)
    returns (r: Result<Consumed, string>)
    ensures var groups := Groups(settings, received);
            var translated := Translated(translate, settings, groups, |groups|);
            && (r.Ok? <==> translated.Ok? && forall i: nat | i < |received| :: !cancelled(i))
            && (r.Ok? ==> r.value == Consumed(translated.value.0, |groups|, |received|))
            && (r.Err? ==> translated == Err(r.error) || exists i: nat :: i < |received| && cancelled(i))
  {
    var pending: seq<Chunk> := [];
    var segments: seq<Segment> := [];
    var context: seq<Confirmed> := [];
    var groupIndex, chunkCount := 0, 0;
    ghost var groups: seq<seq<Chunk>> := [];
    for i := 0 to |received|
      invariant forall j: nat | j < i :: !cancelled(j)
      invariant groupIndex == |groups| && chunkCount == i
      invariant Group(settings, received[..i]) == Grouping(groups, pending)
      invariant Rendered(translate, settings, groups, segments, context)
    {
      if cancelled(i) {
        return Err("cancelled");
      }
      chunkCount := chunkCount + 1;
      pending := pending + [received[i]];
      assert received[..i + 1][..i] == received[..i];
      if settings.strategy == Immediate || EconomyBufferReady(pending, settings) {
        GroupsContain(settings, received, i + 1);
        var flushed := Flush(translate, settings, groupIndex, Groups(settings, received), groups, pending, segments, context);
        if flushed.Err? {
          return Err(flushed.error);
        }
        segments, context := flushed.value.0, flushed.value.1;
        groupIndex := groupIndex + 1;
        groups := groups + [pending];
        pending := [];
      }
    }
    assert received[..|received|] == received;
    if pending != [] {
      var flushed := Flush(translate, settings, groupIndex, Groups(settings, received), groups, pending, segments, context);
      if flushed.Err? {
        return Err(flushed.error);
      }
      segments := flushed.value.0;
      groupIndex := groupIndex + 1;
      groups := groups + [pending];
    }
    r := Ok(Consumed(segments, groupIndex, chunkCount));
  }

  /** Translate the waiting chunks as one group; in immediate mode its end becomes the next context. */
  method Flush(translate: Translator, settings: Settings, index: nat, ghost all: seq<seq<Chunk>>,
               ghost groups: seq<seq<Chunk>>, pending: seq<Chunk>, segments: seq<Segment>, context: seq<Confirmed>)
    returns (r: Result<Progress, string>)
    requires pending != [] && index == |groups| && groups + [pending] <= all
    requires Rendered(translate, settings, groups, segments, context)
    ensures r.Ok? ==> Rendered(translate, settings, groups + [pending], r.value.0, r.value.1)
    ensures r.Err? ==> Translated(translate, settings, all, |all|) == Err(r.error)
  {
    var translated := TranslateChunkGroup(translate, index, pending, context);
    if translated.Err? {
      FailedGroup(translate, settings, all, groups, pending, segments, context);
      return Err(translated.error);
    }
    GroupsGrow(translate, settings, groups, pending, segments, context, translated.value);
    var next := context;
    if settings.strategy == Immediate {
      next := ConfirmedTail(Source(pending), translated.value, settings.batchSize);
    }
    r := Ok((segments + translated.value, next));
  }

  // ---- What the groups are ----

  lemma {:induction false} GroupBuffers(settings: Settings, chunks: seq<Chunk>)
    ensures var g := Group(settings, chunks); Buffered(settings, chunks, g.groups, g.pending, 0)
  {
    if chunks == [] {
      assert Flatten([]) + [] == chunks;
    } else {
      var i := |chunks| - 1;
      GroupBuffers(settings, chunks[..i]);
      var before := Group(settings, chunks[..i]);
      var pending := before.pending + [chunks[i]];
      BufferOne(settings, chunks, i, before.groups, before.pending);
      assert chunks[..i + 1] == chunks;
      if Flushes(pending, settings) {
        FlushOne(settings, chunks, before.groups, pending);
      } else {
        KeepOne(settings, chunks, before.groups, pending);
      }
    }
  }

  /**
   * The groups are a contiguous, in-order partition of the chunks; none has a shorter run that would have been
   * flushed, and every one but the last reaches the threshold.
   */
  lemma GroupsPartition(settings: Settings, chunks: seq<Chunk>)
    ensures Flatten(Groups(settings, chunks)) == chunks && Grouped(Groups(settings, chunks), settings)
  {
    GroupBuffers(settings, chunks);
    var g := Group(settings, chunks);
    if g.pending != [] {
      LastGroup(settings, chunks, g.groups, g.pending);
    } else {
      assert Flatten(g.groups) + [] == Flatten(g.groups);
    }
  }

  /**
   * What the threshold is. In economy mode every group but the last has at least `batchSize` cues or an estimate of
   * at least `tokenBudget`, and every shorter run of it has less of both; in immediate mode every chunk is a group.
   */
  lemma GroupsReachLimits(settings: Settings, chunks: seq<Chunk>)
    ensures var groups := Groups(settings, chunks);
            settings.strategy.Economy? ==>
              && (forall i | 0 <= i < |groups| - 1 ::
                    |Source(groups[i])| >= settings.batchSize || SegmentTokens(Source(groups[i])) >= settings.tokenBudget)
              && (forall i, k | 0 <= i < |groups| && 0 < k < |groups[i]| ::
                    |Source(groups[i][..k])| < settings.batchSize && SegmentTokens(Source(groups[i][..k])) < settings.tokenBudget)
    ensures settings.strategy.Immediate? ==> forall i | 0 <= i < |Groups(settings, chunks)| :: |Groups(settings, chunks)[i]| == 1
  {
    GroupsPartition(settings, chunks);
    var groups := Groups(settings, chunks);
    forall i | 0 <= i < |groups| - 1
      ensures Flushes(groups[i], settings)
    {
    }
    forall i, k | 0 <= i < |groups| && 0 < k < |groups[i]|
      ensures !Flushes(groups[i][..k], settings)
    {
      assert Shortest(groups[i], settings);
    }
    if settings.strategy.Immediate? {
      forall i | 0 <= i < |groups|
        ensures |groups[i]| == 1
      {
        assert Shortest(groups[i], settings);
        if |groups[i]| > 1 {
          assert Flushes(groups[i][..1], settings);
        }
      }
    }
  }

  /** No other grouping has these properties. */
  lemma GroupsAreTheOnlyOnes(settings: Settings, chunks: seq<Chunk>, other: seq<seq<Chunk>>)
    requires Flatten(other) == chunks && Grouped(other, settings)
    ensures other == Groups(settings, chunks)
  {
    GroupsPartition(settings, chunks);
    UnfoldIsFlatten(other);
    UnfoldIsFlatten(Groups(settings, chunks));
    GroupingIsUnique(other, Groups(settings, chunks), settings);
  }

  /** Later chunks only add groups. */
  lemma {:induction false} GroupsOnlyGrow(settings: Settings, chunks: seq<Chunk>, i: nat)
    requires i <= |chunks|
    ensures Group(settings, chunks[..i]).groups <= Group(settings, chunks).groups
    decreases |chunks|
  {
    if i < |chunks| {
      assert chunks[..|chunks| - 1][..i] == chunks[..i];
      GroupsOnlyGrow(settings, chunks[..|chunks| - 1], i);
    } else {
      assert chunks[..i] == chunks;
    }
  }

  /** A group that cannot be translated fails the whole stream. */
  lemma FailedGroup(translate: Translator, settings: Settings, all: seq<seq<Chunk>>, groups: seq<seq<Chunk>>,
                    pending: seq<Chunk>, segments: seq<Segment>, context: seq<Confirmed>)
    requires groups + [pending] <= all && Rendered(translate, settings, groups, segments, context)
    requires GroupResult(translate, |groups|, Source(pending), context).Err?
    ensures Translated(translate, settings, all, |all|)
            == Err(GroupResult(translate, |groups|, Source(pending), context).error)
  {
    FailedFold(TranslateStep(translate, settings), groups, pending, (segments, context));
    PrefixFails(TranslateStep(translate, settings), groups + [pending], all);
  }

  lemma GroupsContain(settings: Settings, chunks: seq<Chunk>, i: nat)
    requires i <= |chunks|
    ensures Group(settings, chunks[..i]).groups <= Groups(settings, chunks)
  {
    GroupsOnlyGrow(settings, chunks, i);
  }

  lemma PrefixFails(step: GroupStep, groups: seq<seq<Chunk>>, all: seq<seq<Chunk>>)
    requires groups <= all && Fold(step, groups, |groups|).Err?
    ensures Fold(step, all, |all|) == Err(Fold(step, groups, |groups|).error)
  {
    FoldAgree(step, groups, all, |groups|);
    FoldStaysFailed(step, all, |groups|, |all|);
  }

  lemma FailedFold(step: GroupStep, groups: seq<seq<Chunk>>, group: seq<Chunk>, before: Progress)
    requires Fold(step, groups, |groups|) == Ok(before) && step(|groups|, group, before).Err?
    ensures Fold(step, groups + [group], |groups + [group]|) == Err(step(|groups|, group, before).error)
  {
    FoldSnoc(step, groups, group, before);
  }

  lemma {:induction false} FoldStaysFailed(step: GroupStep, groups: seq<seq<Chunk>>, n: nat, m: nat)
    requires n <= m <= |groups| && Fold(step, groups, n).Err?
    ensures Fold(step, groups, m) == Err(Fold(step, groups, n).error)
    decreases m
  {
    if n < m {
      FoldStaysFailed(step, groups, n, m - 1);
    }
  }

  lemma BufferOne(settings: Settings, received: seq<Chunk>, i: nat, groups: seq<seq<Chunk>>, pending: seq<Chunk>)
    requires i < |received| && Buffered(settings, received[..i], groups, pending, 0)
    ensures Buffered(settings, received[..i + 1], groups, pending + [received[i]], 1)
  {
    var longer := pending + [received[i]];
    assert received[..i + 1] == received[..i] + [received[i]];
    assert Flatten(groups) + longer == Flatten(groups) + pending + [received[i]];
    NothingReady(settings, pending, received[i]);
  }

  lemma NothingReady(settings: Settings, pending: seq<Chunk>, chunk: Chunk)
    requires forall k | 0 < k <= |pending| :: !Flushes(pending[..k], settings)
    ensures forall k | 0 < k <= |pending| :: !Flushes((pending + [chunk])[..k], settings)
  {
    forall k | 0 < k <= |pending|
      ensures !Flushes((pending + [chunk])[..k], settings)
    {
      assert (pending + [chunk])[..k] == pending[..k];
    }
  }

  lemma KeepOne(settings: Settings, seen: seq<Chunk>, groups: seq<seq<Chunk>>, pending: seq<Chunk>)
    requires Buffered(settings, seen, groups, pending, 1) && !Flushes(pending, settings)
    ensures Buffered(settings, seen, groups, pending, 0)
  {
    assert pending[..|pending|] == pending;
  }

  lemma FlushOne(settings: Settings, seen: seq<Chunk>, groups: seq<seq<Chunk>>, pending: seq<Chunk>)
    requires pending != [] && Buffered(settings, seen, groups, pending, 1) && Flushes(pending, settings)
    ensures Buffered(settings, seen, groups + [pending], [], 0)
  {
    assert (groups + [pending])[..|groups|] == groups;
    assert Flatten(groups) + pending + [] == Flatten(groups) + pending;
    MoreGroups(settings, groups, pending);
  }

  lemma MoreGroups(settings: Settings, groups: seq<seq<Chunk>>, group: seq<Chunk>)
    requires Grouped(groups, settings) && forall j | 0 <= j < |groups| :: Flushes(groups[j], settings)
    requires Shortest(group, settings) && Flushes(group, settings)
    ensures Grouped(groups + [group], settings)
    ensures forall j | 0 <= j < |groups + [group]| :: Flushes((groups + [group])[j], settings)
  {
  }

  lemma LastGroup(settings: Settings, seen: seq<Chunk>, groups: seq<seq<Chunk>>, pending: seq<Chunk>)
    requires pending != [] && Buffered(settings, seen, groups, pending, 0)
    ensures Grouped(groups + [pending], settings)
    ensures Flatten(groups + [pending]) == Flatten(groups) + pending
  {
    assert (groups + [pending])[..|groups|] == groups;
  }

  lemma {:induction false} FoldAgree(step: GroupStep, a: seq<seq<Chunk>>, b: seq<seq<Chunk>>, n: nat)
    requires n <= |a| && n <= |b| && forall i | 0 <= i < n :: a[i] == b[i]
    ensures Fold(step, a, n) == Fold(step, b, n)
    decreases n
  {
    if n > 0 {
      FoldAgree(step, a, b, n - 1);
    }
  }

  lemma FoldSnoc(step: GroupStep, groups: seq<seq<Chunk>>, group: seq<Chunk>, before: Progress)
    requires Fold(step, groups, |groups|) == Ok(before)
    ensures Fold(step, groups + [group], |groups + [group]|) == step(|groups|, group, before)
  {
    FoldAgree(step, groups, groups + [group], |groups|);
  }

  lemma GroupsGrow(translate: Translator, settings: Settings, groups: seq<seq<Chunk>>, group: seq<Chunk>,
                   segments: seq<Segment>, context: seq<Confirmed>, result: seq<Segment>)
    requires Rendered(translate, settings, groups, segments, context)
    requires GroupResult(translate, |groups|, Source(group), context) == Ok(result)
    ensures Rendered(translate, settings, groups + [group], segments + result,
                     if settings.strategy.Immediate? then ConfirmedTail(Source(group), result, settings.batchSize)
                     else context)
  {
    FoldSnoc(TranslateStep(translate, settings), groups, group, (segments, context));
  }

  /** The threshold rule leaves no choice: two groupings of the same chunks are the same. */
  lemma {:induction false} GroupingIsUnique(a: seq<seq<Chunk>>, b: seq<seq<Chunk>>, settings: Settings)
    requires Grouped(a, settings) && Grouped(b, settings) && Unfold(a) == Unfold(b)
    ensures a == b
    decreases |a|
  {
    if a != [] && b != [] {
      HeadsAgree(a, b, settings);
      HeadsAgree(b, a, settings);
      assert Unfold(a)[|a[0]|..] == Unfold(a[1..]) && Unfold(b)[|b[0]|..] == Unfold(b[1..]);
      assert a[0] == Unfold(a)[..|a[0]|] == b[0];
      TailGrouped(a, settings);
      TailGrouped(b, settings);
      GroupingIsUnique(a[1..], b[1..], settings);
    }
  }

  /** Concatenation from the front, equal to `Flatten`. */
  function Unfold(groups: seq<seq<Chunk>>): seq<Chunk> {
    if groups == [] then [] else groups[0] + Unfold(groups[1..])
  }

  lemma TailGrouped(a: seq<seq<Chunk>>, settings: Settings)
    requires a != [] && Grouped(a, settings)
    ensures Grouped(a[1..], settings)
  {
  }

  lemma HeadsAgree(a: seq<seq<Chunk>>, b: seq<seq<Chunk>>, settings: Settings)
    requires a != [] && b != [] && Grouped(a, settings) && Grouped(b, settings) && Unfold(a) == Unfold(b)
    ensures |a[0]| >= |b[0]|
  {
    assert a[0] == Unfold(a)[..|a[0]|] && b[0] == Unfold(b)[..|b[0]|];
    assert |a[0]| <= |b[0]| ==> b[0][..|a[0]|] == a[0];
    assert |a| == 1 ==> Unfold(a) == a[0];
  }

  lemma {:induction false} UnfoldIsFlatten(groups: seq<seq<Chunk>>)
    ensures Unfold(groups) == Flatten(groups)
    decreases |groups|
  {
    if groups != [] {
      UnfoldAppend(groups[..|groups| - 1], groups[|groups| - 1]);
      assert groups == groups[..|groups| - 1] + [groups[|groups| - 1]];
      UnfoldIsFlatten(groups[..|groups| - 1]);
    }
  }

  lemma {:induction false} UnfoldAppend(groups: seq<seq<Chunk>>, last: seq<Chunk>)
    ensures Unfold(groups + [last]) == Unfold(groups) + last
  {
    if groups == [] {
      assert groups + [last] == [last];
      assert Unfold([last]) == last + Unfold([]);
    } else {
      assert (groups + [last])[1..] == groups[1..] + [last];
      UnfoldAppend(groups[1..], last);
    }
  }
}
