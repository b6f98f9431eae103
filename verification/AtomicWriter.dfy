/** Any number of writers replacing one file through a lock file, a staging file and a rename. */
module AtomicWriter {
  import opened Wrappers

  type Bytes = string
  type Writer = nat

  const STALE_SECONDS := 300

  /**
   * How far a writer has got; every phase from `Locking` to `Releasing` is inside the lock. A `Breaking` writer has
   * found the lock stale and not removed it yet.
   */
  datatype Phase =
    | Waiting
    | Breaking
    | Locking
    | Inspecting
    | Creating
    | Writing
    | Publishing
    | Verifying
    | Releasing(ok: bool)
    | Done(ok: bool)
  {
    predicate Inside() {
      !Waiting? && !Breaking? && !Done?
    }
  }

  /** `lock` is the time at which the lock file was created, `staging` each writer's own temporary. */
  datatype State = State(lock: Option<nat>, target: Option<Bytes>, staging: map<Writer, Bytes>,
                         clock: nat, phases: map<Writer, Phase>, mismatch: bool)
  {
    function At(w: Writer): Phase {
      if w in phases then phases[w] else Waiting
    }

    function Move(w: Writer, phase: Phase): State {
      this.(phases := phases[w := phase])
    }

    function Unstage(w: Writer): State {
      this.(staging := staging - {w})
    }
  }

  /** `Advance` is the next operation succeeding, `Fail` the same operation failing. */
  datatype Action =
    | Acquire(w: Writer)
    | GiveUp(w: Writer)
    | Judge(w: Writer)
    | Break(w: Writer)
    | Advance(w: Writer)
    | Fail(w: Writer)
    | Tick(seconds: nat)

  function Initial(target: Option<Bytes>): State {
    State(None, target, map[], 0, map[], false)
  }

  predicate Stale(s: State) {
    s.lock.Some? && s.clock > s.lock.value + STALE_SECONDS
  }

  predicate Enabled(s: State, a: Action) {
    match a
    case Acquire(w) => s.At(w).Waiting? && s.lock.None?
    case GiveUp(w) => s.At(w).Waiting?
    case Judge(w) => s.At(w).Waiting? && Stale(s)
    case Break(w) => s.At(w).Breaking?
    case Advance(w) => s.At(w).Inside() && (s.At(w).Publishing? ==> w in s.staging)
    case Fail(w) => s.At(w).Inside() && !s.At(w).Releasing?
    case Tick(_) => true
  }

  type Contents = Writer -> Bytes

  function Succeed(contents: Contents, s: State, w: Writer): State
    requires Enabled(s, Advance(w))
  {
    match s.At(w)
    case Locking => s.Move(w, Inspecting)
    case Inspecting => s.Move(w, Creating)
    case Creating => s.(staging := s.staging[w := ""]).Move(w, Writing)
    case Writing => s.(staging := s.staging[w := contents(w)]).Move(w, Publishing)
    case Publishing => s.(target := Some(s.staging[w])).Unstage(w).Move(w, Verifying)
    case Verifying =>
      if s.target == Some(contents(w)) then s.Move(w, Releasing(true))
      else s.(mismatch := true).Move(w, Releasing(false))
    case Releasing(ok) => s.(lock := None).Move(w, Done(ok))
  }

  function Apply(contents: Contents, s: State, a: Action): State
    requires Enabled(s, a)
  {
    match a
    case Acquire(w) => s.(lock := Some(s.clock)).Move(w, Locking)
    case GiveUp(w) => s.Move(w, Done(false))
    case Judge(w) => s.Move(w, Breaking)
    case Break(w) => s.(lock := None).Move(w, Waiting)
    case Advance(w) => Succeed(contents, s, w)
    case Fail(w) =>
      if s.At(w).Locking? then s.(lock := None).Move(w, Done(false))
      else s.Unstage(w).Move(w, Releasing(false))
    case Tick(seconds) => s.(clock := s.clock + seconds)
  }

  predicate Runnable(contents: Contents, s: State, actions: seq<Action>)
    decreases |actions|
  {
    actions != [] ==> Enabled(s, actions[0]) && Runnable(contents, Apply(contents, s, actions[0]), actions[1..])
  }

  function Run(contents: Contents, s: State, actions: seq<Action>): State
    requires Runnable(contents, s, actions)
    decreases |actions|
  {
    if actions == [] then s else Run(contents, Apply(contents, s, actions[0]), actions[1..])
  }

  /** Removes a lock that is there, believing it stale: the guard of the one branch that takes a lock away. */
  predicate Seizes(s: State, a: Action) {
    a.Break? && s.lock.Some?
  }

  predicate NothingSeized(contents: Contents, s: State, actions: seq<Action>)
    requires Runnable(contents, s, actions)
    decreases |actions|
  {
    actions != [] ==> !Seizes(s, actions[0]) && NothingSeized(contents, Apply(contents, s, actions[0]), actions[1..])
  }

  // ---- Safety ----

  ghost predicate Exclusive(s: State) {
    forall v, w | v in s.phases && w in s.phases && s.phases[v].Inside() && s.phases[w].Inside() :: v == w
  }

  ghost predicate Complete(contents: Contents, initial: Option<Bytes>, target: Option<Bytes>) {
    target == initial || exists w: Writer :: target == Some(contents(w))
  }

  ghost predicate Inv(contents: Contents, initial: Option<Bytes>, s: State) {
    && Exclusive(s)
    && (forall w | w in s.phases && s.phases[w].Inside() :: s.lock.Some?)
    && (s.lock.Some? ==> exists w :: w in s.phases && s.phases[w].Inside())
    && (forall w | w in s.staging :: w in s.phases && (s.phases[w].Writing? || s.phases[w].Publishing?))
    && (forall w | w in s.phases && s.phases[w].Publishing? :: w in s.staging && s.staging[w] == contents(w))
    && (forall w | w in s.phases && s.phases[w].Verifying? :: s.target == Some(contents(w)))
    && Complete(contents, initial, s.target)
    && !s.mismatch
  }

  lemma AdvanceKeepsInv(contents: Contents, initial: Option<Bytes>, s: State, w: Writer)
    requires Inv(contents, initial, s) && Enabled(s, Advance(w))
    ensures Inv(contents, initial, Succeed(contents, s, w))
  {
    if s.At(w).Releasing? {
      ReleaseKeepsInv(contents, initial, s, w);
    } else if s.At(w).Publishing? || s.At(w).Verifying? {
      PublishKeepsInv(contents, initial, s, w);
    } else {
      StageKeepsInv(contents, initial, s, w);
    }
  }

  lemma ReleaseKeepsInv(contents: Contents, initial: Option<Bytes>, s: State, w: Writer)
    requires Inv(contents, initial, s) && s.At(w).Releasing?
    ensures Inv(contents, initial, Succeed(contents, s, w))
  {
    var next := Succeed(contents, s, w);
    assert forall v | v in next.phases :: !next.phases[v].Inside();
  }

  lemma PublishKeepsInv(contents: Contents, initial: Option<Bytes>, s: State, w: Writer)
    requires Inv(contents, initial, s) && (s.At(w).Publishing? || s.At(w).Verifying?)
    requires Enabled(s, Advance(w))
    ensures Inv(contents, initial, Succeed(contents, s, w))
  {
    assert w in Succeed(contents, s, w).phases;
  }

  lemma StageKeepsInv(contents: Contents, initial: Option<Bytes>, s: State, w: Writer)
    requires Inv(contents, initial, s)
    requires s.At(w).Locking? || s.At(w).Inspecting? || s.At(w).Creating? || s.At(w).Writing?
    ensures Inv(contents, initial, Succeed(contents, s, w))
  {
    assert w in Succeed(contents, s, w).phases;
  }

  lemma StepKeepsInv(contents: Contents, initial: Option<Bytes>, s: State, a: Action)
    requires Inv(contents, initial, s) && Enabled(s, a) && !Seizes(s, a)
    ensures Inv(contents, initial, Apply(contents, s, a))
  {
    match a
    case Acquire(w) => AcquireKeepsInv(contents, initial, s, w);
    case Advance(w) => AdvanceKeepsInv(contents, initial, s, w);
    case Fail(w) => FailKeepsInv(contents, initial, s, w);
    case GiveUp(w) => OutsideKeepsInv(contents, initial, s, w, Done(false));
    case Judge(w) => OutsideKeepsInv(contents, initial, s, w, Breaking);
    case Break(w) => OutsideKeepsInv(contents, initial, s, w, Waiting);
    case Tick(_) =>
  }

  lemma AcquireKeepsInv(contents: Contents, initial: Option<Bytes>, s: State, w: Writer)
    requires Inv(contents, initial, s) && Enabled(s, Acquire(w))
    ensures Inv(contents, initial, Apply(contents, s, Acquire(w)))
  {
    var next := Apply(contents, s, Acquire(w));
    assert w in next.phases && next.phases[w].Inside();
  }

  lemma FailKeepsInv(contents: Contents, initial: Option<Bytes>, s: State, w: Writer)
    requires Inv(contents, initial, s) && Enabled(s, Fail(w))
    ensures Inv(contents, initial, Apply(contents, s, Fail(w)))
  {
    assert w in Apply(contents, s, Fail(w)).phases;
  }

  /** A writer outside the lock that stays outside changes nothing for those inside. */
  lemma OutsideKeepsInv(contents: Contents, initial: Option<Bytes>, s: State, w: Writer, phase: Phase)
    requires Inv(contents, initial, s) && !s.At(w).Inside() && !phase.Inside()
    ensures Inv(contents, initial, s.Move(w, phase))
  {
    if s.lock.Some? {
      var v :| v in s.phases && s.phases[v].Inside();
      assert v in s.Move(w, phase).phases && s.Move(w, phase).phases[v].Inside();
    }
  }

  lemma {:induction false} RunKeepsInv(contents: Contents, initial: Option<Bytes>, s: State, actions: seq<Action>)
    requires Inv(contents, initial, s) && Runnable(contents, s, actions) && NothingSeized(contents, s, actions)
    ensures Inv(contents, initial, Run(contents, s, actions))
    decreases |actions|
  {
    if actions != [] {
      StepKeepsInv(contents, initial, s, actions[0]);
      RunKeepsInv(contents, initial, Apply(contents, s, actions[0]), actions[1..]);
    }
  }

  /** Whoever is inside has the lock file to show for it. */
  ghost predicate Protected(s: State) {
    forall w | w in s.phases && s.phases[w].Inside() :: s.lock.Some?
  }

  ghost predicate AlwaysProtected(contents: Contents, s: State, actions: seq<Action>)
    requires Runnable(contents, s, actions)
    decreases |actions|
  {
    Protected(s) && (actions != [] ==> AlwaysProtected(contents, Apply(contents, s, actions[0]), actions[1..]))
  }

  /** The lock protects the writer inside throughout a run exactly when nobody removes a lock that is there. */
  lemma {:induction false} ProtectedUntilSeized(contents: Contents, initial: Option<Bytes>, s: State, actions: seq<Action>)
    requires Inv(contents, initial, s) && Runnable(contents, s, actions)
    ensures AlwaysProtected(contents, s, actions) <==> NothingSeized(contents, s, actions)
    decreases |actions|
  {
    if actions != [] {
      var next := Apply(contents, s, actions[0]);
      if Seizes(s, actions[0]) {
        var v :| v in s.phases && s.phases[v].Inside();
        assert v in next.phases && next.phases[v].Inside();
        assert !Protected(next);
      } else {
        StepKeepsInv(contents, initial, s, actions[0]);
        ProtectedUntilSeized(contents, initial, next, actions[1..]);
      }
    }
  }

  /** Nobody is between acquiring and releasing. */
  predicate Quiescent(s: State) {
    forall w | w in s.phases :: !s.phases[w].Inside()
  }

  lemma InitialInv(contents: Contents, initial: Option<Bytes>)
    ensures Inv(contents, initial, Initial(initial))
  {
  }

  /**
   * As long as nobody removes a lock that is there: at most one writer is inside the lock, the read-back check never
   * fails, the target holds the initial bytes or one writer's complete bytes, and when nobody is inside there is
   * neither a lock file nor a staging file.
   */
  lemma WritersAreSafe(contents: Contents, initial: Option<Bytes>, actions: seq<Action>)
    requires Runnable(contents, Initial(initial), actions) && NothingSeized(contents, Initial(initial), actions)
    ensures var s := Run(contents, Initial(initial), actions);
            && Exclusive(s) && !s.mismatch && Complete(contents, initial, s.target)
            && (Quiescent(s) ==> s.lock.None? && s.staging == map[])
  {
    InitialInv(contents, initial);
    RunKeepsInv(contents, initial, Initial(initial), actions);
    var s := Run(contents, Initial(initial), actions);
    if Quiescent(s) {
      assert forall w :: w !in s.staging;
    }
  }

  /** No state along the run has a lock older than the stale bound. */
  predicate NeverStale(contents: Contents, s: State, actions: seq<Action>)
    requires Runnable(contents, s, actions)
    decreases |actions|
  {
    !Stale(s) && (actions != [] ==> NeverStale(contents, Apply(contents, s, actions[0]), actions[1..]))
  }

  /** While no held lock reaches the stale bound nobody removes one. */
  lemma {:induction false} FreshLocksStay(contents: Contents, s: State, actions: seq<Action>)
    requires Runnable(contents, s, actions) && NeverStale(contents, s, actions)
    requires forall w | w in s.phases :: !s.phases[w].Breaking?
    ensures NothingSeized(contents, s, actions)
    decreases |actions|
  {
    if actions != [] {
      FreshLocksStay(contents, Apply(contents, s, actions[0]), actions[1..]);
    }
  }

  /** Waiting may end at any moment, and so may every step of a writer inside, except giving the lock back. */
  lemma FailuresAreFree(contents: Contents, s: State, w: Writer)
    ensures s.At(w).Waiting? ==> Enabled(s, GiveUp(w)) && Apply(contents, s, GiveUp(w)).At(w) == Done(false)
    ensures s.At(w).Inside() && !s.At(w).Releasing? ==>
              && Enabled(s, Fail(w))
              && var t := Apply(contents, s, Fail(w));
                 && t.target == s.target && (s.At(w).Locking? || w !in t.staging)
                 && t.At(w) == if s.At(w).Locking? then Done(false) else Releasing(false)
  {
  }

  /** Every lock in the run is at most five minutes old. */
  predicate AlwaysYoung(contents: Contents, s: State, actions: seq<Action>)
    requires Runnable(contents, s, actions)
    decreases |actions|
  {
    && (s.lock.Some? ==> s.clock <= s.lock.value + 300)
    && (actions != [] ==> AlwaysYoung(contents, Apply(contents, s, actions[0]), actions[1..]))
  }

  /** The stale bound is five minutes. */
  lemma {:induction false} YoungMeansFresh(contents: Contents, s: State, actions: seq<Action>)
    requires Runnable(contents, s, actions)
    ensures AlwaysYoung(contents, s, actions) <==> NeverStale(contents, s, actions)
    decreases |actions|
  {
    if actions != [] {
      YoungMeansFresh(contents, Apply(contents, s, actions[0]), actions[1..]);
    }
  }

  // ---- What a writer reports ----

  /** Some state along the run has exactly `w`'s bytes as the target. */
  predicate Publishes(contents: Contents, s: State, actions: seq<Action>, w: Writer)
    requires Runnable(contents, s, actions)
    decreases |actions|
  {
    s.target == Some(contents(w)) || (actions != [] && Publishes(contents, Apply(contents, s, actions[0]), actions[1..], w))
  }

  predicate Succeeding(s: State, w: Writer) {
    s.At(w) == Releasing(true) || s.At(w) == Done(true)
  }

  predicate Failing(s: State, w: Writer) {
    s.At(w) == Releasing(false) || s.At(w) == Done(false)
  }

  /** The only step to success is a read-back, and that has found the writer's own bytes. */
  lemma SuccessStep(contents: Contents, s: State, a: Action, w: Writer)
    requires Enabled(s, a) && Succeeding(Apply(contents, s, a), w)
    ensures Succeeding(s, w) || s.target == Some(contents(w))
  {
  }

  lemma {:induction false} SuccessWasPublished(contents: Contents, s: State, actions: seq<Action>, w: Writer)
    requires Runnable(contents, s, actions) && Succeeding(Run(contents, s, actions), w)
    ensures Succeeding(s, w) || Publishes(contents, s, actions, w)
    decreases |actions|
  {
    if actions != [] {
      SuccessWasPublished(contents, Apply(contents, s, actions[0]), actions[1..], w);
      if Succeeding(Apply(contents, s, actions[0]), w) {
        SuccessStep(contents, s, actions[0], w);
      }
    }
  }

  lemma {:induction false} WhenPublished(contents: Contents, s: State, actions: seq<Action>, w: Writer) returns (k: nat)
    requires Runnable(contents, s, actions) && Publishes(contents, s, actions, w)
    ensures k <= |actions| && Runnable(contents, s, actions[..k])
    ensures Run(contents, s, actions[..k]).target == Some(contents(w))
    decreases |actions|
  {
    if s.target == Some(contents(w)) {
      k := 0;
    } else {
      var n := WhenPublished(contents, Apply(contents, s, actions[0]), actions[1..], w);
      k := n + 1;
      assert actions[..k][0] == actions[0] && actions[..k][1..] == actions[1..][..n];
    }
  }

  predicate Fails(a: Action, w: Writer) {
    a == Fail(w) || a == GiveUp(w)
  }

  lemma FailureStep(contents: Contents, initial: Option<Bytes>, s: State, a: Action, w: Writer)
    requires Inv(contents, initial, s) && Enabled(s, a)
    ensures Failing(Apply(contents, s, a), w) <==> Failing(s, w) || Fails(a, w)
  {
  }

  lemma {:induction false} FailuresAreReported(contents: Contents, initial: Option<Bytes>, s: State, actions: seq<Action>, w: Writer)
    requires Inv(contents, initial, s) && Runnable(contents, s, actions) && NothingSeized(contents, s, actions)
    ensures Failing(Run(contents, s, actions), w) <==> Failing(s, w) || exists i :: 0 <= i < |actions| && Fails(actions[i], w)
    decreases |actions|
  {
    if actions != [] {
      var next := Apply(contents, s, actions[0]);
      StepKeepsInv(contents, initial, s, actions[0]);
      FailureStep(contents, initial, s, actions[0], w);
      FailuresAreReported(contents, initial, next, actions[1..], w);
      if exists i :: 0 <= i < |actions| && Fails(actions[i], w) {
        var i :| 0 <= i < |actions| && Fails(actions[i], w);
        assert i > 0 ==> Fails(actions[1..][i - 1], w);
      }
      if exists i :: 0 <= i < |actions[1..]| && Fails(actions[1..][i], w) {
        var i :| 0 <= i < |actions[1..]| && Fails(actions[1..][i], w);
        assert Fails(actions[i + 1], w);
      }
    }
  }

  /**
   * While nobody removes a lock that is there, a writer that returns reports success if and only if none of its
   * operations failed and it did not give up.
   */
  lemma ReportsAreTrue(contents: Contents, initial: Option<Bytes>, actions: seq<Action>, w: Writer)
    requires Runnable(contents, Initial(initial), actions) && NothingSeized(contents, Initial(initial), actions)
    requires Run(contents, Initial(initial), actions).At(w).Done?
    ensures Run(contents, Initial(initial), actions).At(w) == Done(true) <==> Fail(w) !in actions && GiveUp(w) !in actions
  {
    InitialInv(contents, initial);
    FailuresAreReported(contents, initial, Initial(initial), actions, w);
    if exists i :: 0 <= i < |actions| && Fails(actions[i], w) {
      var i :| 0 <= i < |actions| && Fails(actions[i], w);
      assert actions[i] in actions;
    }
  }

  /** A reported success means that at some moment of the run the target held exactly the writer's bytes. */
  lemma SuccessMeansPublished(contents: Contents, initial: Option<Bytes>, actions: seq<Action>, w: Writer) returns (k: nat)
    requires Runnable(contents, Initial(initial), actions)
    requires Run(contents, Initial(initial), actions).At(w) == Done(true)
    ensures k <= |actions| && Runnable(contents, Initial(initial), actions[..k])
    ensures Run(contents, Initial(initial), actions[..k]).target == Some(contents(w))
  {
    SuccessWasPublished(contents, Initial(initial), actions, w);
    k := WhenPublished(contents, Initial(initial), actions, w);
  }

  // ---- Beyond the stale bound ----

  lemma {:induction false} RunSnoc(contents: Contents, s: State, actions: seq<Action>, a: Action)
    requires Runnable(contents, s, actions) && Enabled(Run(contents, s, actions), a)
    ensures Runnable(contents, s, actions + [a])
    ensures Run(contents, s, actions + [a]) == Apply(contents, Run(contents, s, actions), a)
    decreases |actions|
  {
    if actions == [] {
      assert actions + [a] == [a];
      assert [a][1..] == [];
    } else {
      assert (actions + [a])[1..] == actions[1..] + [a];
      RunSnoc(contents, Apply(contents, s, actions[0]), actions[1..], a);
    }
  }

  /** Where a writer is after `i` successful operations inside the lock. */
  function Stage(i: nat): Phase {
    match i
    case 0 => Locking
    case 1 => Inspecting
    case 2 => Creating
    case 3 => Writing
    case 4 => Publishing
    case _ => Verifying
  }

  /** `t` is `s` with writer `w` having taken the free lock and got to its `i`-th stage. */
  predicate Reached(contents: Contents, s: State, t: State, w: Writer, i: nat) {
    && t.lock == Some(s.clock) && t.clock == s.clock
    && t.phases == s.phases[w := Stage(i)]
    && (i == 4 ==> w in t.staging && t.staging[w] == contents(w))
    && (i == 5 ==> t.target == Some(contents(w)))
  }

  lemma ReachNext(contents: Contents, s: State, t: State, w: Writer, i: nat)
    requires i < 5 && Reached(contents, s, t, w, i)
    ensures Enabled(t, Advance(w)) && Reached(contents, s, Apply(contents, t, Advance(w)), w, i + 1)
  {
  }

  /** Writer `w` takes a free lock, stages its bytes and publishes them. */
  lemma PublishFrom(contents: Contents, start: State, before: seq<Action>, w: Writer) returns (actions: seq<Action>)
    requires Runnable(contents, start, before)
    requires var s := Run(contents, start, before); s.At(w).Waiting? && s.lock.None?
    ensures Runnable(contents, start, actions)
    ensures Reached(contents, Run(contents, start, before), Run(contents, start, actions), w, 5)
  {
    var s := Run(contents, start, before);
    RunSnoc(contents, start, before, Acquire(w));
    actions := before + [Acquire(w)];
    for i := 0 to 5
      invariant Runnable(contents, start, actions)
      invariant Reached(contents, s, Run(contents, start, actions), w, i)
    {
      ReachNext(contents, s, Run(contents, start, actions), w, i);
      RunSnoc(contents, start, actions, Advance(w));
      actions := actions + [Advance(w)];
    }
  }

  /**
   * Once a held lock goes stale, exclusion and read-back can both fail: writer 0 stalls for 301 seconds after
   * publishing, writer 1 breaks its lock and publishes, and writer 0 then reads back the wrong bytes.
   */
  lemma StaleLockBreaksExclusion(contents: Contents) returns (actions: seq<Action>)
    requires contents(0) != contents(1)
    ensures Runnable(contents, Initial(None), actions)
    ensures var s := Run(contents, Initial(None), actions); !Exclusive(s) && s.mismatch
  {
    var start := Initial(None);
    actions := PublishFrom(contents, start, [], 0);
    RunSnoc(contents, start, actions, Tick(STALE_SECONDS + 1));
    actions := actions + [Tick(STALE_SECONDS + 1)];
    RunSnoc(contents, start, actions, Judge(1));
    actions := actions + [Judge(1)];
    RunSnoc(contents, start, actions, Break(1));
    actions := actions + [Break(1)];
    actions := PublishFrom(contents, start, actions, 1);
    RunSnoc(contents, start, actions, Advance(0));
    actions := actions + [Advance(0)];
    var s := Run(contents, start, actions);
    assert s.phases[0] == Releasing(false) && s.phases[1] == Verifying;
  }
}
