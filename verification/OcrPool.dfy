/** Recognising every distinct subtitle image once with a pool of worker threads. */
module OcrPool {
  import opened Wrappers

  type Fingerprint = string
  type Text = string

  // ---- The distinct images ----

  /** The fingerprints in order of first appearance. */
  function Distinct(cues: seq<Fingerprint>): seq<Fingerprint> {
    if cues == [] then []
    else
      var before, last := Distinct(cues[..|cues| - 1]), cues[|cues| - 1];
      if last in before then before else before + [last]
  }

  predicate NoRepeats<T(==)>(s: seq<T>) {
    forall i, j | 0 <= i < j < |s| :: s[i] != s[j]
  }

  lemma {:induction false} DistinctIsExact(cues: seq<Fingerprint>)
    ensures NoRepeats(Distinct(cues))
    ensures forall x :: x in Distinct(cues) <==> x in cues
  {
    if cues != [] {
      var init, last := cues[..|cues| - 1], cues[|cues| - 1];
      assert cues == init + [last];
      DistinctIsExact(init);
    }
  }

  method UniqueImages(cues: seq<Fingerprint>) returns (unique: seq<Fingerprint>)
    ensures unique == Distinct(cues)
  {
    unique := [];
    var indexes: map<Fingerprint, nat> := map[];
    for i := 0 to |cues|
      invariant unique == Distinct(cues[..i])
      invariant forall x :: x in indexes <==> x in unique
    {
      assert cues[..i + 1][..i] == cues[..i];
      if cues[i] !in indexes {
        indexes := indexes[cues[i] := |unique|];
        unique := unique + [cues[i]];
      }
    }
    assert cues[..|cues|] == cues;
  }

  // ---- The pool ----

  /** What a worker does next; it holds the progress lock while `Counting` and `Emitting`. */
  datatype Phase =
    | Checking
    | Cancelling
    | Claiming
    | Recognising(index: nat)
    | Storing(index: nat, text: Text)
    | Reporting
    | Counting
    | Emitting(current: nat)
    | Done(ok: bool)
  {
    predicate Locked() {
      Counting? || Emitting?
    }
  }

  /** How the foreign call of a step turns out: the cancellation check and the recogniser can fail. */
  datatype Outcome = Fine(text: Text) | Fault

  datatype Event = Event(worker: nat, outcome: Outcome)

  /** `calls` is the history of recogniser calls, `answers` what each image's call returned. */
  datatype State = State(workers: seq<Phase>, next: nat, completed: nat, failed: bool, holder: Option<nat>,
                         slots: seq<Option<Text>>, emitted: seq<nat>, calls: seq<nat>, answers: map<nat, Text>)
  {
    function Move(w: nat, phase: Phase): State
      requires w < |workers|
    {
      this.(workers := workers[w := phase])
    }
  }

  function Initial(workers: nat, total: nat): State {
    State(seq(workers, i => Checking), 0, 0, false, None, seq(total, i => None), [], [], map[])
  }

  /** A worker that has not returned can take a step unless it waits for the progress lock. */
  predicate Enabled(s: State, e: Event) {
    && e.worker < |s.workers|
    && !s.workers[e.worker].Done?
    && (s.workers[e.worker].Reporting? ==> s.holder.None?)
  }

  function Apply(s: State, e: Event): State
    requires Enabled(s, e)
  {
    var w, total := e.worker, |s.slots|;
    match s.workers[w]
    case Checking => s.Move(w, if s.failed then Done(true) else Cancelling)
    case Cancelling => if e.outcome.Fault? then s.(failed := true).Move(w, Done(false)) else s.Move(w, Claiming)
    case Claiming => s.(next := s.next + 1).Move(w, if s.next < total then Recognising(s.next) else Done(true))
    case Recognising(i) =>
      var called := s.(calls := s.calls + [i]);
      (match e.outcome
       case Fault => called.(failed := true).Move(w, Done(false))
       case Fine(text) => called.(answers := s.answers[i := text]).Move(w, Storing(i, text)))
    case Storing(i, text) =>
      (if i < total then s.(slots := s.slots[i := Some(text)]) else s).Move(w, Reporting)
    case Reporting => s.(holder := Some(w)).Move(w, Counting)
    case Counting => s.(completed := s.completed + 1).Move(w, Emitting(s.completed + 1))
    case Emitting(current) => s.(emitted := s.emitted + [current], holder := None).Move(w, Checking)
  }

  predicate Runnable(s: State, events: seq<Event>)
    decreases |events|
  {
    events != [] ==> Enabled(s, events[0]) && Runnable(Apply(s, events[0]), events[1..])
  }

  function Run(s: State, events: seq<Event>): State
    requires Runnable(s, events)
    decreases |events|
  {
    if events == [] then s else Run(Apply(s, events[0]), events[1..])
  }

  /** In this step the cancellation check or the recogniser fails. */
  predicate Faulty(s: State, e: Event) {
    && e.worker < |s.workers|
    && e.outcome.Fault?
    && (s.workers[e.worker].Cancelling? || s.workers[e.worker].Recognising?)
  }

  predicate Faultless(s: State, events: seq<Event>)
    requires Runnable(s, events)
    decreases |events|
  {
    events != [] ==> !Faulty(s, events[0]) && Faultless(Apply(s, events[0]), events[1..])
  }

  lemma FaultStep(s: State, e: Event)
    requires Enabled(s, e)
    ensures Apply(s, e).failed <==> s.failed || Faulty(s, e)
  {
  }

  /** The failure flag is up exactly when some check or recognition failed. */
  lemma {:induction false} FaultsAreFlagged(s: State, events: seq<Event>)
    requires Runnable(s, events)
    ensures Run(s, events).failed <==> s.failed || !Faultless(s, events)
    decreases |events|
  {
    if events != [] {
      FaultStep(s, events[0]);
      FaultsAreFlagged(Apply(s, events[0]), events[1..]);
    }
  }

  // ---- Sums over the workers and the slots ----

  function Sum(weight: Phase -> nat, workers: seq<Phase>): nat {
    if workers == [] then 0 else weight(workers[0]) + Sum(weight, workers[1..])
  }

  lemma {:induction false} SumUpdate(weight: Phase -> nat, workers: seq<Phase>, w: nat, phase: Phase)
    requires w < |workers|
    ensures Sum(weight, workers[w := phase]) + weight(workers[w]) == Sum(weight, workers) + weight(phase)
    decreases |workers|
  {
    var after := workers[w := phase];
    if w == 0 {
      assert after[1..] == workers[1..];
    } else {
      assert after[1..] == workers[1..][w - 1 := phase];
      SumUpdate(weight, workers[1..], w - 1, phase);
    }
  }

  lemma {:induction false} SumZero(weight: Phase -> nat, workers: seq<Phase>)
    requires forall w | 0 <= w < |workers| :: weight(workers[w]) == 0
    ensures Sum(weight, workers) == 0
    decreases |workers|
  {
    if workers != [] {
      assert forall w | 0 <= w < |workers| - 1 :: workers[1..][w] == workers[w + 1];
      SumZero(weight, workers[1..]);
    }
  }

  /** Workers that may still call the recogniser without looking at the failure flag again. */
  function Committed(): Phase -> nat {
    (p: Phase) => if p.Cancelling? || p.Claiming? || p.Recognising? then 1 else 0
  }

  lemma {:induction false} CommittedAreFew(workers: seq<Phase>)
    ensures Sum(Committed(), workers) <= |workers|
  {
    if workers != [] {
      CommittedAreFew(workers[1..]);
    }
  }

  lemma StoppingStep(s: State, e: Event)
    requires s.failed && Enabled(s, e)
    ensures var t := Apply(s, e);
            && t.failed && |t.workers| == |s.workers|
            && |t.calls| + Sum(Committed(), t.workers) <= |s.calls| + Sum(Committed(), s.workers)
  {
    SumUpdate(Committed(), s.workers, e.worker, Apply(s, e).workers[e.worker]);
  }

  lemma {:induction false} StoppingRun(s: State, events: seq<Event>)
    requires s.failed && Runnable(s, events)
    ensures |Run(s, events).calls| <= |s.calls| + Sum(Committed(), s.workers)
    decreases |events|
  {
    if events != [] {
      StoppingStep(s, events[0]);
      StoppingRun(Apply(s, events[0]), events[1..]);
    }
  }

  /** After a failure every worker makes at most the one call it had already set out for. */
  lemma FailureStopsWork(s: State, events: seq<Event>)
    requires s.failed && Runnable(s, events)
    ensures |Run(s, events).calls| <= |s.calls| + |s.workers|
  {
    StoppingRun(s, events);
    CommittedAreFew(s.workers);
  }

  function Filled(slots: seq<Option<Text>>): nat {
    if slots == [] then 0 else (if slots[0].Some? then 1 else 0) + Filled(slots[1..])
  }

  lemma {:induction false} FilledUpdate(slots: seq<Option<Text>>, i: nat, text: Text)
    requires i < |slots| && slots[i].None?
    ensures Filled(slots[i := Some(text)]) == Filled(slots) + 1
    decreases |slots|
  {
    var after := slots[i := Some(text)];
    if i == 0 {
      assert after[1..] == slots[1..];
    } else {
      assert after[1..] == slots[1..][i - 1 := Some(text)];
      FilledUpdate(slots[1..], i - 1, text);
    }
  }

  lemma {:induction false} FilledBounds(slots: seq<Option<Text>>)
    ensures Filled(slots) <= |slots|
    ensures (forall i | 0 <= i < |slots| :: slots[i].None?) ==> Filled(slots) == 0
    ensures (forall i | 0 <= i < |slots| :: slots[i].Some?) ==> Filled(slots) == |slots|
    decreases |slots|
  {
    if slots != [] {
      assert forall i | 0 <= i < |slots| - 1 :: slots[1..][i] == slots[i + 1];
      FilledBounds(slots[1..]);
    }
  }

  /** A result is stored but not counted yet. */
  function Uncounted(): Phase -> nat {
    (p: Phase) => if p.Reporting? || p.Counting? then 1 else 0
  }

  // ---- Who owns an image ----

  /** Worker `w` has claimed image `i` and not stored its text yet. */
  predicate Owns(s: State, w: nat, i: nat) {
    && w < |s.workers|
    && (s.workers[w].Recognising? || s.workers[w].Storing?)
    && s.workers[w].index == i
  }

  /** No image is with two workers. */
  ghost predicate OneOwner(s: State) {
    forall v: nat, w: nat, i: nat | Owns(s, v, i) && Owns(s, w, i) :: v == w
  }

  /** An image with a worker has been claimed and its slot is still empty. */
  ghost predicate Awaited(s: State) {
    forall w: nat, i: nat | Owns(s, w, i) :: i < s.next && i < |s.slots| && s.slots[i].None?
  }

  /** Every claimed image is with a worker, in its slot, or lost to a worker that failed. */
  ghost predicate Accounted(s: State) {
    && (forall i: nat | i < |s.slots| && s.slots[i].Some? :: i < s.next)
    && (forall i: nat | i < s.next && i < |s.slots| ::
          s.slots[i].Some? || s.failed || exists w: nat :: Owns(s, w, i))
  }

  ghost predicate Owned(s: State) {
    OneOwner(s) && Awaited(s) && Accounted(s)
  }

  /** Each image has been handed to the recogniser at most once. */
  ghost predicate CallsDistinct(s: State) {
    NoRepeats(s.calls) && forall i | i in s.calls :: i < s.next && i < |s.slots|
  }

  /** An image about to be recognised has not been before. */
  ghost predicate CallsAhead(s: State) {
    forall w, i | 0 <= w < |s.workers| && s.workers[w] == Recognising(i) :: i !in s.calls
  }

  ghost predicate CalledOnce(s: State) {
    CallsDistinct(s) && CallsAhead(s)
  }

  predicate AnswersCalled(s: State) {
    forall i | i in s.answers :: i in s.calls
  }

  /** What is being stored is what the recogniser returned. */
  ghost predicate StoresAnswers(s: State) {
    forall w, i, text | 0 <= w < |s.workers| && s.workers[w] == Storing(i, text) ::
      i in s.answers && s.answers[i] == text
  }

  /** So is what has been stored. */
  predicate SlotsAnswered(s: State) {
    forall i | 0 <= i < |s.slots| && s.slots[i].Some? :: i in s.answers && s.answers[i] == s.slots[i].value
  }

  ghost predicate Answered(s: State) {
    AnswersCalled(s) && StoresAnswers(s) && SlotsAnswered(s)
  }

  ghost predicate Called(s: State) {
    CalledOnce(s) && Answered(s)
  }

  /** Why workers returned. */
  predicate Returned(s: State) {
    && (forall w | 0 <= w < |s.workers| && s.workers[w] == Done(true) :: s.failed || s.next >= |s.slots|)
    && (s.failed ==> exists w :: 0 <= w < |s.workers| && s.workers[w] == Done(false))
  }

  /** Exactly the holder of the progress lock counts or reports. */
  predicate OneHolder(s: State) {
    && (forall w: nat | w < |s.workers| :: s.workers[w].Locked() <==> s.holder == Some(w))
    && (s.holder.Some? ==> s.holder.value < |s.workers|)
  }

  /** Progress has been reported for every counted image but the one its holder is about to report. */
  predicate Reported(s: State) {
    && (forall k | 0 <= k < |s.emitted| :: s.emitted[k] == k + 1)
    && (if s.holder.Some? && s.holder.value < |s.workers| && s.workers[s.holder.value].Emitting? then
          s.workers[s.holder.value].current == s.completed == |s.emitted| + 1
        else s.completed == |s.emitted|)
  }

  predicate Serial(s: State) {
    OneHolder(s) && Reported(s)
  }

  predicate Tallied(s: State) {
    s.completed + Sum(Uncounted(), s.workers) == Filled(s.slots)
  }

  /** A step only changes its own worker, which can only come to own the next unclaimed image. */
  lemma OwnersAfter(s: State, e: Event, w: nat, i: nat)
    requires Enabled(s, e) && Owns(Apply(s, e), w, i)
    ensures if s.workers[e.worker].Claiming? && w == e.worker then i == s.next < |s.slots|
            else Owns(s, w, i)
  {
  }

  lemma OneOwnerStep(s: State, e: Event)
    requires Owned(s) && Enabled(s, e)
    ensures OneOwner(Apply(s, e))
  {
    var t := Apply(s, e);
    forall v: nat, w: nat, i: nat | Owns(t, v, i) && Owns(t, w, i)
      ensures v == w
    {
      OwnersAfter(s, e, v, i);
      OwnersAfter(s, e, w, i);
    }
  }

  lemma AwaitedStep(s: State, e: Event)
    requires Owned(s) && Enabled(s, e)
    ensures Awaited(Apply(s, e))
  {
    var t := Apply(s, e);
    forall w: nat, i: nat | Owns(t, w, i)
      ensures i < t.next && i < |t.slots| && t.slots[i].None?
    {
      OwnersAfter(s, e, w, i);
      if s.workers[e.worker].Storing? {
        assert Owns(s, e.worker, s.workers[e.worker].index);
      }
    }
  }

  lemma AccountedStep(s: State, e: Event)
    requires Owned(s) && Enabled(s, e)
    ensures Accounted(Apply(s, e))
  {
    var t := Apply(s, e);
    if s.workers[e.worker].Storing? {
      assert Owns(s, e.worker, s.workers[e.worker].index);
    }
    forall i: nat | i < t.next && i < |t.slots|
      ensures t.slots[i].Some? || t.failed || exists w: nat :: Owns(t, w, i)
    {
      if i == s.next {
        assert Owns(t, e.worker, i);
      } else if !s.slots[i].Some? && !s.failed {
        var w: nat :| Owns(s, w, i);
        assert w != e.worker ==> Owns(t, w, i);
        assert w == e.worker ==> t.failed || Owns(t, w, i) || t.slots[i].Some?;
      }
    }
  }

  /** Recognising `i` for the first time. */
  lemma CallOnce(s: State, w: nat, i: nat)
    requires Owned(s) && CalledOnce(s) && w < |s.workers| && s.workers[w] == Recognising(i)
    ensures NoRepeats(s.calls + [i])
    ensures i < s.next && i < |s.slots| && s.slots[i].None? && i !in s.calls
  {
    assert Owns(s, w, i);
  }

  /** Nobody else owns what worker `w` is recognising. */
  lemma OthersDiffer(s: State, v: nat, w: nat, i: nat)
    requires Owned(s) && v != w && Owns(s, w, i)
    ensures !Owns(s, v, i)
  {
  }

  lemma CallsDistinctStep(s: State, e: Event)
    requires Owned(s) && CalledOnce(s) && Enabled(s, e)
    ensures CallsDistinct(Apply(s, e))
  {
    var phase := s.workers[e.worker];
    if phase.Recognising? {
      CallOnce(s, e.worker, phase.index);
    } else {
      assert Apply(s, e).calls == s.calls && Apply(s, e).next >= s.next;
    }
  }

  lemma CallsAheadStep(s: State, e: Event)
    requires Owned(s) && CalledOnce(s) && Enabled(s, e)
    ensures CallsAhead(Apply(s, e))
  {
    var t := Apply(s, e);
    var phase := s.workers[e.worker];
    forall v, i | 0 <= v < |t.workers| && t.workers[v] == Recognising(i)
      ensures i !in t.calls
    {
      if v != e.worker {
        assert s.workers[v] == Recognising(i);
        if phase.Recognising? {
          assert Owns(s, v, i) && Owns(s, e.worker, phase.index);
          OthersDiffer(s, v, e.worker, phase.index);
        }
      }
    }
  }

  lemma AnswersCalledStep(s: State, e: Event)
    requires AnswersCalled(s) && Enabled(s, e)
    ensures AnswersCalled(Apply(s, e))
  {
  }

  lemma StoresAnswersStep(s: State, e: Event)
    requires Owned(s) && StoresAnswers(s) && Enabled(s, e)
    ensures StoresAnswers(Apply(s, e))
  {
    var t := Apply(s, e);
    var phase := s.workers[e.worker];
    forall v, i, text | 0 <= v < |t.workers| && t.workers[v] == Storing(i, text)
      ensures i in t.answers && t.answers[i] == text
    {
      if v != e.worker {
        assert s.workers[v] == Storing(i, text);
        if phase.Recognising? {
          assert Owns(s, v, i) && Owns(s, e.worker, phase.index);
          OthersDiffer(s, v, e.worker, phase.index);
        }
      }
    }
  }

  lemma SlotsAnsweredStep(s: State, e: Event)
    requires Owned(s) && CalledOnce(s) && StoresAnswers(s) && SlotsAnswered(s) && Enabled(s, e)
    ensures SlotsAnswered(Apply(s, e))
  {
    var phase := s.workers[e.worker];
    if phase.Recognising? {
      CallOnce(s, e.worker, phase.index);
    } else {
      assert Apply(s, e).answers == s.answers;
    }
  }

  lemma OwnedStep(s: State, e: Event)
    requires Owned(s) && Enabled(s, e)
    ensures Owned(Apply(s, e))
  {
    OneOwnerStep(s, e);
    AwaitedStep(s, e);
    AccountedStep(s, e);
  }

  lemma CalledStep(s: State, e: Event)
    requires Owned(s) && Called(s) && Enabled(s, e)
    ensures Called(Apply(s, e))
  {
    CallsDistinctStep(s, e);
    CallsAheadStep(s, e);
    AnswersCalledStep(s, e);
    StoresAnswersStep(s, e);
    SlotsAnsweredStep(s, e);
  }

  lemma ReturnedStep(s: State, e: Event)
    requires Returned(s) && Enabled(s, e)
    ensures Returned(Apply(s, e))
  {
    var t := Apply(s, e);
    if t.failed && !s.failed {
      assert t.workers[e.worker] == Done(false);
    } else if s.failed {
      var w :| 0 <= w < |s.workers| && s.workers[w] == Done(false);
      assert t.workers[w] == Done(false);
    }
  }

  lemma OneHolderStep(s: State, e: Event)
    requires OneHolder(s) && Enabled(s, e)
    ensures OneHolder(Apply(s, e))
  {
    var t := Apply(s, e);
    assert forall w | 0 <= w < |t.workers| && w != e.worker :: t.workers[w] == s.workers[w];
  }

  lemma ReportedStep(s: State, e: Event)
    requires OneHolder(s) && Reported(s) && Enabled(s, e)
    ensures Reported(Apply(s, e))
  {
    var t := Apply(s, e);
    if !s.workers[e.worker].Locked() && s.holder.Some? {
      assert s.holder.value != e.worker && t.workers[s.holder.value] == s.workers[s.holder.value];
    }
  }

  lemma SerialStep(s: State, e: Event)
    requires Serial(s) && Enabled(s, e)
    ensures Serial(Apply(s, e))
  {
    OneHolderStep(s, e);
    ReportedStep(s, e);
  }

  lemma TalliedStep(s: State, e: Event)
    requires Owned(s) && Tallied(s) && Enabled(s, e)
    ensures Tallied(Apply(s, e))
  {
    var t := Apply(s, e);
    SumUpdate(Uncounted(), s.workers, e.worker, t.workers[e.worker]);
    var phase := s.workers[e.worker];
    if phase.Storing? {
      assert Owns(s, e.worker, phase.index);
      FilledUpdate(s.slots, phase.index, phase.text);
    }
  }

  ghost predicate Inv(s: State) {
    Owned(s) && Called(s) && Returned(s) && Serial(s) && Tallied(s)
  }

  lemma InitialInv(workers: nat, total: nat)
    ensures Inv(Initial(workers, total))
  {
    var s := Initial(workers, total);
    SumZero(Uncounted(), s.workers);
    FilledBounds(s.slots);
  }

  lemma SizesStay(s: State, e: Event)
    requires Enabled(s, e)
    ensures |Apply(s, e).slots| == |s.slots| && |Apply(s, e).workers| == |s.workers|
  {
  }

  lemma StepKeepsInv(s: State, e: Event)
    requires Inv(s) && Enabled(s, e)
    ensures Inv(Apply(s, e))
  {
    OwnedStep(s, e);
    CalledStep(s, e);
    ReturnedStep(s, e);
    SerialStep(s, e);
    TalliedStep(s, e);
  }

  lemma {:induction false} RunKeepsInv(s: State, events: seq<Event>)
    requires Inv(s) && Runnable(s, events)
    ensures Inv(Run(s, events)) && |Run(s, events).slots| == |s.slots| && |Run(s, events).workers| == |s.workers|
    decreases |events|
  {
    if events != [] {
      StepKeepsInv(s, events[0]);
      SizesStay(s, events[0]);
      RunKeepsInv(Apply(s, events[0]), events[1..]);
    }
  }

  /** Every worker has returned. */
  predicate Joined(s: State) {
    forall w | 0 <= w < |s.workers| :: s.workers[w].Done?
  }

  /** Joining the workers finds no error. */
  predicate PoolOk(s: State) {
    forall w | 0 <= w < |s.workers| :: s.workers[w] == Done(true)
  }

  lemma PoolInv(workers: nat, total: nat, events: seq<Event>)
    requires Runnable(Initial(workers, total), events)
    ensures var s := Run(Initial(workers, total), events); Inv(s) && |s.slots| == total && |s.workers| == workers
  {
    InitialInv(workers, total);
    RunKeepsInv(Initial(workers, total), events);
  }

  lemma OrderlyProgress(s: State)
    requires Tallied(s) && Serial(s)
    ensures s.emitted == seq(|s.emitted|, k => k + 1) && |s.emitted| <= Filled(s.slots) <= |s.slots|
  {
    FilledBounds(s.slots);
  }

  /** In every interleaving each image goes to the recogniser at most once and progress counts 1, 2, 3 without a gap. */
  lemma PoolIsOrderly(workers: nat, total: nat, events: seq<Event>)
    requires Runnable(Initial(workers, total), events)
    ensures var s := Run(Initial(workers, total), events);
            && NoRepeats(s.calls)
            && (forall i | i in s.calls :: i < total)
            && s.emitted == seq(|s.emitted|, k => k + 1)
            && |s.emitted| <= Filled(s.slots) <= total
  {
    PoolInv(workers, total, events);
    OrderlyProgress(Run(Initial(workers, total), events));
  }

  /** Once every worker has returned without an error nothing is missing. */
  lemma OkIsComplete(s: State)
    requires Inv(s) && PoolOk(s) && s.workers != []
    ensures !s.failed
    ensures forall i | 0 <= i < |s.slots| :: i in s.answers && s.slots[i] == Some(s.answers[i])
    ensures s.completed == |s.slots| == |s.emitted|
  {
    assert s.workers[0] == Done(true);
    forall i: nat | i < |s.slots|
      ensures s.slots[i].Some?
    {
      assert i < s.next;
    }
    FilledBounds(s.slots);
    SumZero(Uncounted(), s.workers);
    assert forall w: nat | w < |s.workers| :: !s.workers[w].Locked();
  }

  /**
   * Once every worker has returned, joining them succeeds if and only if no check and no recognition failed; then
   * every slot holds what its one recogniser call returned and progress went exactly 1, 2, ..., total.
   */
  lemma PoolSuccessIsComplete(workers: nat, total: nat, events: seq<Event>)
    requires workers > 0 && Runnable(Initial(workers, total), events)
    requires Joined(Run(Initial(workers, total), events))
    ensures var s := Run(Initial(workers, total), events);
            && (PoolOk(s) <==> Faultless(Initial(workers, total), events))
            && (PoolOk(s) <==> !s.failed)
            && (PoolOk(s) ==>
                  && |s.slots| == total
                  && (forall i | 0 <= i < total :: i in s.answers && s.slots[i] == Some(s.answers[i]))
                  && s.emitted == seq(total, k => k + 1))
  {
    PoolInv(workers, total, events);
    FaultsAreFlagged(Initial(workers, total), events);
    var s := Run(Initial(workers, total), events);
    if !s.failed {
      NoFailureMeansOk(workers, total, events);
    }
    if PoolOk(s) {
      OkIsComplete(s);
      OrderlyProgress(s);
    }
  }

  predicate Flagged(s: State) {
    forall w | 0 <= w < |s.workers| && s.workers[w] == Done(false) :: s.failed
  }

  /** A worker returns an error only after raising the failure flag. */
  lemma {:induction false} ErrorsAreFlagged(s: State, events: seq<Event>)
    requires Runnable(s, events)
    requires Flagged(s)
    ensures Flagged(Run(s, events))
    decreases |events|
  {
    if events == [] {
      assert Run(s, events) == s;
    } else {
      var t := Apply(s, events[0]);
      assert forall w | 0 <= w < |t.workers| && w != events[0].worker :: t.workers[w] == s.workers[w];
      ErrorsAreFlagged(Apply(s, events[0]), events[1..]);
    }
  }

  lemma NoFailureMeansOk(workers: nat, total: nat, events: seq<Event>)
    requires Runnable(Initial(workers, total), events)
    requires var s := Run(Initial(workers, total), events); Joined(s) && !s.failed
    ensures PoolOk(Run(Initial(workers, total), events))
  {
    ErrorsAreFlagged(Initial(workers, total), events);
    var s := Run(Initial(workers, total), events);
    forall w | 0 <= w < |s.workers|
      ensures s.workers[w] == Done(true)
    {
      assert s.workers[w].Done?;
    }
  }

  // ---- The pool always returns ----

  function Rank(): Phase -> nat {
    (p: Phase) =>
      match p
      case Checking => 3
      case Cancelling => 2
      case Claiming => 1
      case Recognising(_) => 8
      case Storing(_, _) => 7
      case Reporting => 6
      case Counting => 5
      case Emitting(_) => 4
      case Done(_) => 0
  }

  function Unclaimed(s: State): nat {
    if s.next < |s.slots| then |s.slots| - s.next else 0
  }

  function Work(s: State): nat {
    8 * Unclaimed(s) + Sum(Rank(), s.workers)
  }

  lemma RankDrops(s: State, e: Event)
    requires Enabled(s, e)
    ensures var t := Apply(s, e);
            8 * Unclaimed(t) + Rank()(t.workers[e.worker]) < 8 * Unclaimed(s) + Rank()(s.workers[e.worker])
  {
    if !s.workers[e.worker].Claiming? {
      assert Apply(s, e).next == s.next && |Apply(s, e).slots| == |s.slots|;
    }
  }

  lemma OneMoves(s: State, e: Event)
    requires Enabled(s, e)
    ensures Apply(s, e).workers == s.workers[e.worker := Apply(s, e).workers[e.worker]]
  {
  }

  lemma StepWorks(s: State, e: Event)
    requires Enabled(s, e)
    ensures Work(Apply(s, e)) < Work(s)
  {
    OneMoves(s, e);
    RankDrops(s, e);
    SumUpdate(Rank(), s.workers, e.worker, Apply(s, e).workers[e.worker]);
  }

  lemma {:induction false} RunIsBounded(s: State, events: seq<Event>)
    requires Runnable(s, events)
    ensures |events| + Work(Run(s, events)) <= Work(s)
    decreases |events|
  {
    if events != [] {
      StepWorks(s, events[0]);
      RunIsBounded(Apply(s, events[0]), events[1..]);
    }
  }

  lemma {:induction false} InitialWork(workers: nat, total: nat)
    ensures Work(Initial(workers, total)) == 8 * total + 3 * workers
  {
    if workers > 0 {
      InitialWork(workers - 1, total);
      assert Initial(workers, total).workers[1..] == Initial(workers - 1, total).workers;
    }
  }

  /** A worker with the lock can go on, and without one everybody can. */
  lemma SomebodyCanStep(s: State)
    requires Inv(s) && !Joined(s)
    ensures exists w: nat :: w < |s.workers| && Enabled(s, Event(w, Fault))
  {
    var w: nat :| w < |s.workers| && !s.workers[w].Done?;
    if s.holder.Some? {
      assert s.workers[s.holder.value].Locked();
      assert Enabled(s, Event(s.holder.value, Fault));
    } else {
      assert Enabled(s, Event(w, Fault));
    }
  }

  /** No interleaving runs for ever or gets stuck: it is short, and it can only end with every worker returned. */
  lemma PoolTerminates(workers: nat, total: nat, events: seq<Event>)
    requires Runnable(Initial(workers, total), events)
    ensures |events| <= 8 * total + 3 * workers
    ensures var s := Run(Initial(workers, total), events);
            Joined(s) <==> forall e :: !Enabled(s, e)
  {
    InitialWork(workers, total);
    RunIsBounded(Initial(workers, total), events);
    InitialInv(workers, total);
    RunKeepsInv(Initial(workers, total), events);
    var s := Run(Initial(workers, total), events);
    if !Joined(s) {
      SomebodyCanStep(s);
    }
  }

  // ---- The result map ----

  /** Pairs each distinct image with its slot; an empty slot is an error. */
  method Collect(unique: seq<Fingerprint>, slots: seq<Option<Text>>) returns (r: Result<map<Fingerprint, Text>, string>)
    requires NoRepeats(unique)
    ensures r.Ok? <==> |unique| <= |slots| && forall i | 0 <= i < |unique| :: slots[i].Some?
    ensures r.Ok? ==> && r.value.Keys == (set x | x in unique)
                      && forall i | 0 <= i < |unique| :: unique[i] in r.value && slots[i] == Some(r.value[unique[i]])
  {
    var recognized: map<Fingerprint, Text> := map[];
    for i := 0 to |unique|
      invariant i <= |slots| && forall k | 0 <= k < i :: slots[k].Some?
      invariant recognized.Keys == (set x | x in unique[..i])
      invariant forall k | 0 <= k < i :: unique[k] in recognized && slots[k] == Some(recognized[unique[k]])
    {
      if i >= |slots| || slots[i].None? {
        return Err("bitmap OCR worker returned no result");
      }
      assert unique[..i + 1] == unique[..i] + [unique[i]];
      recognized := recognized[unique[i] := slots[i].value];
    }
    assert unique[..|unique|] == unique;
    r := Ok(recognized);
  }

  /**
   * When the pool for a list of cues succeeds, collecting its slots cannot fail, and the result has exactly the
   * cues' fingerprints as keys, each with the text its one recogniser call returned.
   */
  method RecognizeUniqueImages(cues: seq<Fingerprint>, workers: nat, events: seq<Event>)
    returns (r: Result<map<Fingerprint, Text>, string>)
    requires workers > 0 && Runnable(Initial(workers, |Distinct(cues)|), events)
    requires Joined(Run(Initial(workers, |Distinct(cues)|), events))
    ensures var s := Run(Initial(workers, |Distinct(cues)|), events);
            && (r.Ok? <==> Faultless(Initial(workers, |Distinct(cues)|), events))
            && (r.Ok? ==>
                  && r.value.Keys == (set x | x in cues)
                  && forall i | 0 <= i < |Distinct(cues)| ::
                       Distinct(cues)[i] in r.value && i in s.answers && r.value[Distinct(cues)[i]] == s.answers[i])
  {
    DistinctIsExact(cues);
    var unique := UniqueImages(cues);
    var s := Run(Initial(workers, |unique|), events);
    PoolSuccessIsComplete(workers, |unique|, events);
    if s.failed {
      return Err("bitmap OCR failed");
    }
    r := Collect(unique, s.slots);
    assert (set x | x in unique) == (set x | x in cues);
  }
}
