/** Turning decoded bitmap frames into subtitle cues by merging runs of the same image. */
module BitmapCues {
  import opened Wrappers

  /** The SHA-256 of an image's size and pixels, which stands for the image. */
  type Image = string

  /** A decoder event: from `start` this image is on screen, or nothing is. */
  datatype Frame = Frame(start: nat, end: nat, image: Option<Image>)

  datatype Cue = Cue(start: nat, end: nat, image: Image)

  datatype Merging = Merging(active: Option<Cue>, cues: seq<Cue>)

  function Max(a: nat, b: nat): nat {
    if a >= b then a else b
  }

  /** A finished cue lasts at least a millisecond. */
  function FinishActive(active: Cue, boundary: nat): Cue {
    active.(end := Max(boundary, active.start + 1))
  }

  function Close(m: Merging, start: nat, persists: bool): seq<Cue> {
    match m.active
    case Some(active) => m.cues + [FinishActive(active, if persists then start else active.end)]
    case None => m.cues
  }

  /** What one frame does to the cues so far. */
  function MergeFrame(m: Merging, frame: Frame, persists: bool): Merging {
    match frame.image
    case None => Merging(None, Close(m, frame.start, persists))
    case Some(image) =>
      if m.active.Some? && m.active.value.image == image && (persists || m.active.value.end >= frame.start) then
        m.(active := Some(m.active.value.(end := Max(frame.end, m.active.value.end))))
      else
        Merging(Some(Cue(frame.start, frame.end, image)), Close(m, frame.start, persists))
  }

  function MergeAll(frames: seq<Frame>, persists: bool): Merging {
    if frames == [] then Merging(None, [])
    else MergeFrame(MergeAll(frames[..|frames| - 1], persists), frames[|frames| - 1], persists)
  }

  /** The cues, with the last active one closed at its own end. */
  function Cues(frames: seq<Frame>, persists: bool): seq<Cue> {
    var m := MergeAll(frames, persists);
    match m.active
    case Some(active) => m.cues + [FinishActive(active, active.end)]
    case None => m.cues
  }

  /** `persists` says that a frame stays up until the next one starts. */
  method RenderCues(frames: seq<Frame>, persists: bool) returns (cues: seq<Cue>)
    ensures cues == Cues(frames, persists)
  {
    var active: Option<Cue> := None;
    cues := [];
    for index := 0 to |frames|
      invariant MergeAll(frames[..index], persists) == Merging(active, cues)
    {
      var frame := frames[index];
      assert frames[..index + 1][..index] == frames[..index];
      if frame.image.Some? && active.Some? && active.value.image == frame.image.value
         && (persists || active.value.end >= frame.start)
      {
        active := Some(active.value.(end := Max(frame.end, active.value.end)));
      } else {
        if active.Some? {
          var boundary := if persists then frame.start else active.value.end;
          cues := cues + [FinishActive(active.value, boundary)];
          active := None;
        }
        if frame.image.Some? {
          active := Some(Cue(frame.start, frame.end, frame.image.value));
        }
      }
    }
    assert frames[..|frames|] == frames;
    if active.Some? {
      cues := cues + [FinishActive(active.value, active.value.end)];
    }
  }

  // ---- What is on screen ----

  predicate Covers(cue: Cue, t: nat, image: Image) {
    cue.image == image && cue.start <= t < cue.end
  }

  predicate Shown(cues: seq<Cue>, t: nat, image: Image) {
    exists i | 0 <= i < |cues| :: Covers(cues[i], t, image)
  }

  lemma ShownSnoc(cues: seq<Cue>, cue: Cue, t: nat, image: Image)
    ensures Shown(cues + [cue], t, image) <==> Shown(cues, t, image) || Covers(cue, t, image)
  {
    assert (cues + [cue])[|cues|] == cue;
    if Shown(cues, t, image) {
      var i :| 0 <= i < |cues| && Covers(cues[i], t, image);
      assert (cues + [cue])[i] == cues[i];
    }
  }

  // ---- Frames that stay until the next one ----

  predicate StrictStarts(frames: seq<Frame>) {
    forall i, j | 0 <= i < j < |frames| :: frames[i].start < frames[j].start
  }

  /** The image of the latest frame started by `t`. */
  function Latest(frames: seq<Frame>, t: nat): Option<Image> {
    if frames == [] then None
    else if frames[|frames| - 1].start <= t then frames[|frames| - 1].image
    else Latest(frames[..|frames| - 1], t)
  }

  /** The last run of frames with one image, as a cue. */
  function LastRun(frames: seq<Frame>): Option<Cue> {
    if frames == [] || frames[|frames| - 1].image.None? then None
    else
      var last, before := frames[|frames| - 1], LastRun(frames[..|frames| - 1]);
      if before.Some? && before.value.image == last.image.value
      then Some(before.value.(end := Max(last.end, before.value.end)))
      else Some(Cue(last.start, last.end, last.image.value))
  }

  /** While frames are still coming, the active cue is open-ended. */
  predicate ShownSoFar(m: Merging, t: nat, image: Image) {
    Shown(m.cues, t, image) || (m.active.Some? && m.active.value.image == image && m.active.value.start <= t)
  }

  /** In time order, disjoint, and no two neighbours that touch show the same image. */
  predicate Tidy(cues: seq<Cue>) {
    && (forall i | 0 <= i < |cues| :: cues[i].start < cues[i].end)
    && (forall i | 0 <= i < |cues| - 1 ::
          cues[i].end <= cues[i + 1].start && (cues[i].image == cues[i + 1].image ==> cues[i].end < cues[i + 1].start))
  }

  /** Everything finished ends by `boundary`, and a finished cue of `image` ends strictly before it. */
  predicate EndsBefore(cues: seq<Cue>, boundary: nat, image: Option<Image>) {
    cues != [] ==>
      var c := cues[|cues| - 1];
      c.end <= boundary && (image == Some(c.image) ==> c.end < boundary)
  }

  /** What merging keeps about the cues themselves. */
  predicate Shape(frames: seq<Frame>, m: Merging)
    requires frames != []
  {
    && m.active == LastRun(frames)
    && Tidy(m.cues)
    && EndsBefore(m.cues, frames[|frames| - 1].start, None)
    && (m.active.Some? ==>
          && m.active.value.start <= frames[|frames| - 1].start
          && EndsBefore(m.cues, m.active.value.start, Some(m.active.value.image)))
  }

  /** Cues that all end by `end` show nothing from then on. */
  lemma {:induction false} NotShownAfter(cues: seq<Cue>, end: nat, t: nat, image: Image)
    requires Tidy(cues) && t >= end && EndsBefore(cues, end, None)
    ensures !Shown(cues, t, image)
    decreases |cues|
  {
    if cues != [] {
      var init, last := cues[..|cues| - 1], cues[|cues| - 1];
      assert Tidy(init) && EndsBefore(init, end, None) by {
        assert cues[|cues| - 1].start < cues[|cues| - 1].end;
      }
      NotShownAfter(init, end, t, image);
      assert cues == init + [last];
      ShownSnoc(init, last, t, image);
    }
  }

  lemma TidySnoc(cues: seq<Cue>, cue: Cue)
    requires Tidy(cues) && cue.start < cue.end && EndsBefore(cues, cue.start, Some(cue.image))
    ensures Tidy(cues + [cue])
  {
    var longer := cues + [cue];
    forall i | 0 <= i < |longer| - 1
      ensures longer[i].end <= longer[i + 1].start
      ensures longer[i].image == longer[i + 1].image ==> longer[i].end < longer[i + 1].start
    {
      if i + 1 < |cues| {
        assert longer[i] == cues[i] && longer[i + 1] == cues[i + 1];
      }
    }
  }

  lemma ShapeStep(frames: seq<Frame>, m: Merging, frame: Frame)
    requires frames != [] && Shape(frames, m) && frames[|frames| - 1].start < frame.start
    ensures Shape(frames + [frame], MergeFrame(m, frame, true))
  {
    assert (frames + [frame])[..|frames + [frame]| - 1] == frames;
    if m.active.Some? {
      TidySnoc(m.cues, FinishActive(m.active.value, frame.start));
    }
  }

  lemma ShownStep(frames: seq<Frame>, m: Merging, frame: Frame, t: nat, image: Image)
    requires frames != [] && Shape(frames, m) && frames[|frames| - 1].start < frame.start
    requires ShownSoFar(m, t, image) <==> Latest(frames, t) == Some(image)
    ensures ShownSoFar(MergeFrame(m, frame, true), t, image) <==> Latest(frames + [frame], t) == Some(image)
  {
    assert (frames + [frame])[..|frames + [frame]| - 1] == frames;
    var next := MergeFrame(m, frame, true);
    ShapeStep(frames, m, frame);
    if m.active.Some? {
      ShownSnoc(m.cues, FinishActive(m.active.value, frame.start), t, image);
    }
    if t >= frame.start {
      NotShownAfter(next.cues, frame.start, t, image);
    }
  }

  lemma {:induction false} PersistShape(frames: seq<Frame>)
    requires frames != [] && StrictStarts(frames)
    ensures Shape(frames, MergeAll(frames, true))
  {
    var init, last := frames[..|frames| - 1], frames[|frames| - 1];
    assert frames == init + [last];
    if init == [] {
      assert MergeAll(init, true) == Merging(None, []) && LastRun(init) == None;
    } else {
      PersistShape(init);
      ShapeStep(init, MergeAll(init, true), last);
    }
  }

  /** The first frame alone. */
  lemma FirstShown(frame: Frame, t: nat, image: Image)
    ensures var m := MergeFrame(Merging(None, []), frame, true);
            ShownSoFar(m, t, image) <==> Latest([frame], t) == Some(image)
  {
    assert Latest([frame][..0], t) == None;
  }

  lemma {:induction false} PersistShown(frames: seq<Frame>, t: nat, image: Image)
    requires frames != [] && StrictStarts(frames)
    ensures ShownSoFar(MergeAll(frames, true), t, image) <==> Latest(frames, t) == Some(image)
  {
    var init, last := frames[..|frames| - 1], frames[|frames| - 1];
    assert frames == init + [last];
    if init == [] {
      assert MergeAll(init, true) == Merging(None, []) && frames == [last];
      FirstShown(last, t, image);
    } else {
      PersistShape(init);
      PersistShown(init, t, image);
      ShownStep(init, MergeAll(init, true), last, t, image);
    }
  }

  /** Where the last run stops when it is closed at its own end. */
  function RunEnd(frames: seq<Frame>): nat
    requires LastRun(frames).Some?
  {
    Max(LastRun(frames).value.end, LastRun(frames).value.start + 1)
  }

  /** What is on screen once the last run is closed at its own end. */
  lemma ShownInTheEnd(frames: seq<Frame>, t: nat, image: Image)
    requires frames != [] && StrictStarts(frames)
    ensures Shown(Cues(frames, true), t, image) <==>
            Latest(frames, t) == Some(image)
            && (LastRun(frames).Some? && LastRun(frames).value.start <= t ==> t < RunEnd(frames))
  {
    PersistShape(frames);
    PersistShown(frames, t, image);
    var m := MergeAll(frames, true);
    if m.active.Some? {
      var run := FinishActive(m.active.value, m.active.value.end);
      ShownSnoc(m.cues, run, t, image);
      if t >= run.start {
        NotShownAfter(m.cues, run.start, t, image);
      }
    }
  }

  /**
   * When frames stay until the next one and start in strict order, the cues are ordered, disjoint and maximally
   * merged.
   */
  lemma PersistentCuesAreTidy(frames: seq<Frame>)
    requires StrictStarts(frames)
    ensures Tidy(Cues(frames, true))
  {
    if frames != [] {
      PersistShape(frames);
      var m := MergeAll(frames, true);
      if m.active.Some? {
        TidySnoc(m.cues, FinishActive(m.active.value, m.active.value.end));
      }
    }
  }

  /**
   * Then, before the last frame starts, the cues show at every millisecond exactly the image of the latest frame
   * started, if and only if the last run's own end reaches the last frame's start.
   */
  lemma PersistentCuesShowFrames(frames: seq<Frame>)
    requires frames != [] && StrictStarts(frames)
    ensures (forall t: nat, image | t < frames[|frames| - 1].start ::
               Shown(Cues(frames, true), t, image) <==> Latest(frames, t) == Some(image))
            <==> (LastRun(frames).Some? ==> RunEnd(frames) >= frames[|frames| - 1].start)
  {
    forall t: nat, image
      ensures Shown(Cues(frames, true), t, image) <==>
              Latest(frames, t) == Some(image)
              && (LastRun(frames).Some? && LastRun(frames).value.start <= t ==> t < RunEnd(frames))
    {
      ShownInTheEnd(frames, t, image);
    }
    if LastRun(frames).Some? {
      var run := LastRun(frames).value;
      PersistShape(frames);
      PersistShown(frames, RunEnd(frames), run.image);
      assert Latest(frames, RunEnd(frames)) == Some(run.image);
      assert !Shown(Cues(frames, true), RunEnd(frames), run.image);
    }
  }

  /** A last frame that repeats the image but ends before it starts leaves a gap. */
  lemma EarlyEndLeavesGap()
    ensures var frames := [Frame(0, 0, Some("A")), Frame(10, 5, Some("A"))];
            Latest(frames, 7) == Some("A") && !Shown(Cues(frames, true), 7, "A")
  {
    var a, b := Frame(0, 0, Some("A")), Frame(10, 5, Some("A"));
    assert [a, b][..1] == [a] && [a][..0] == [];
    assert MergeAll([a], true) == Merging(Some(Cue(0, 0, "A")), []);
    assert MergeAll([a, b], true) == Merging(Some(Cue(0, 5, "A")), []);
    assert Cues([a, b], true) == [Cue(0, 5, "A")];
  }

  // ---- Frames with their own end ----

  predicate OrderedStarts(frames: seq<Frame>) {
    forall i, j | 0 <= i < j < |frames| :: frames[i].start <= frames[j].start
  }

  predicate FrameCovers(frame: Frame, t: nat, image: Image) {
    frame.image == Some(image) && frame.start <= t < frame.end
  }

  /** What the frames show. */
  predicate Displayed(frames: seq<Frame>, t: nat, image: Image) {
    exists i | 0 <= i < |frames| :: FrameCovers(frames[i], t, image)
  }

  /** What the frames show if each lasts at least a millisecond. */
  predicate Stretched(frames: seq<Frame>, t: nat, image: Image) {
    exists i | 0 <= i < |frames| :: FrameCovers(frames[i].(end := Max(frames[i].end, frames[i].start + 1)), t, image)
  }

  lemma FramesSnoc(frames: seq<Frame>, frame: Frame, t: nat, image: Image)
    ensures Displayed(frames + [frame], t, image) <==> Displayed(frames, t, image) || FrameCovers(frame, t, image)
    ensures Stretched(frames + [frame], t, image) <==>
            Stretched(frames, t, image) || FrameCovers(frame.(end := Max(frame.end, frame.start + 1)), t, image)
  {
    var longer := frames + [frame];
    assert longer[|frames|] == frame;
    assert forall i | 0 <= i < |frames| :: longer[i] == frames[i];
    if Displayed(frames, t, image) {
      var i :| 0 <= i < |frames| && FrameCovers(frames[i], t, image);
      assert FrameCovers(longer[i], t, image);
    }
    if Stretched(frames, t, image) {
      var i :| 0 <= i < |frames| && FrameCovers(frames[i].(end := Max(frames[i].end, frames[i].start + 1)), t, image);
      assert FrameCovers(longer[i].(end := Max(longer[i].end, longer[i].start + 1)), t, image);
    }
  }

  /** The cues so far, with the active one closed at its own end. */
  function Closed(m: Merging): seq<Cue> {
    match m.active
    case Some(active) => m.cues + [FinishActive(active, active.end)]
    case None => m.cues
  }

  lemma {:induction false} TimedAll(frames: seq<Frame>, t: nat, image: Image)
    requires OrderedStarts(frames)
    ensures var m := MergeAll(frames, false);
            && (m.active.Some? ==> frames != [] && m.active.value.start <= frames[|frames| - 1].start)
            && (Displayed(frames, t, image) ==> Shown(Closed(m), t, image))
            && (Shown(Closed(m), t, image) ==> Stretched(frames, t, image))
  {
    if frames != [] {
      var init, frame := frames[..|frames| - 1], frames[|frames| - 1];
      assert frames == init + [frame];
      TimedAll(init, t, image);
      FramesSnoc(init, frame, t, image);
      var m := MergeAll(init, false);
      var next := MergeFrame(m, frame, false);
      assert Close(m, frame.start, false) == Closed(m);
      if m.active.Some? {
        ShownSnoc(m.cues, FinishActive(m.active.value, m.active.value.end), t, image);
      }
      if next.active.Some? {
        ShownSnoc(next.cues, FinishActive(next.active.value, next.active.value.end), t, image);
      }
    }
  }

  /**
   * When frames carry their own ends and start in order, the cues show everything the frames show, and nothing
   * but that and the millisecond that an empty frame is stretched to.
   */
  lemma TimedCuesShowFrames(frames: seq<Frame>, t: nat, image: Image)
    requires OrderedStarts(frames)
    ensures Displayed(frames, t, image) ==> Shown(Cues(frames, false), t, image)
    ensures Shown(Cues(frames, false), t, image) ==> Stretched(frames, t, image)
    ensures (forall i | 0 <= i < |frames| :: frames[i].start < frames[i].end) ==>
              (Shown(Cues(frames, false), t, image) <==> Displayed(frames, t, image))
  {
    TimedAll(frames, t, image);
    if forall i | 0 <= i < |frames| :: frames[i].start < frames[i].end {
      if Stretched(frames, t, image) {
        var i :| 0 <= i < |frames| && FrameCovers(frames[i].(end := Max(frames[i].end, frames[i].start + 1)), t, image);
        assert FrameCovers(frames[i], t, image);
      }
    }
  }

  /** Neighbours that show the same image do not touch. */
  predicate Apart(cues: seq<Cue>) {
    forall i | 0 <= i < |cues| - 1 :: cues[i].image == cues[i + 1].image ==> cues[i].end < cues[i + 1].start
  }

  lemma ApartSnoc(cues: seq<Cue>, last: Cue, next: Cue)
    requires Apart(cues + [last]) && (last.image == next.image ==> last.end < next.start)
    ensures Apart(cues + [last] + [next])
  {
    var before, all := cues + [last], cues + [last] + [next];
    forall i | 0 <= i < |all| - 1
      ensures all[i].image == all[i + 1].image ==> all[i].end < all[i + 1].start
    {
      if i < |cues| {
        assert all[i] == before[i] && all[i + 1] == before[i + 1];
      }
    }
  }

  lemma ApartLonger(cues: seq<Cue>, last: Cue, end: nat)
    requires Apart(cues + [last])
    ensures Apart(cues + [last.(end := end)])
  {
    var before, after := cues + [last], cues + [last.(end := end)];
    forall i | 0 <= i < |after| - 1
      ensures after[i].image == after[i + 1].image ==> after[i].end < after[i + 1].start
    {
      assert after[i] == before[i] && after[i + 1].image == before[i + 1].image && after[i + 1].start == before[i + 1].start;
    }
  }

  /**
   * While every frame shows something for some time of its own, no two neighbouring cues show the same image without
   * a gap between them: frames that touch or overlap were merged.
   */
  lemma {:induction false} TimedCuesAreMerged(frames: seq<Frame>)
    requires forall i | 0 <= i < |frames| :: frames[i].image.Some? && frames[i].start < frames[i].end
    ensures var m := MergeAll(frames, false);
            frames != [] ==> m.active.Some? && m.active.value.start < m.active.value.end && Apart(m.cues + [m.active.value])
    ensures Apart(Cues(frames, false))
  {
    if frames != [] {
      var init, frame := frames[..|frames| - 1], frames[|frames| - 1];
      TimedCuesAreMerged(init);
      var m := MergeAll(init, false);
      if init != [] {
        ApartLonger(m.cues, m.active.value, Max(frame.end, m.active.value.end));
        if m.active.value.image != frame.image.value || m.active.value.end < frame.start {
          ApartSnoc(m.cues, m.active.value, Cue(frame.start, frame.end, frame.image.value));
        }
      }
    }
  }
}
