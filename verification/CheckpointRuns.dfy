/** Many store handles on one run directory, interleaved write by write, any of which may crash at any point. */
module CheckpointRuns {
  import opened Wrappers
  import opened Machine
  import opened CheckpointSpec
  import opened CheckpointLaws

  /** A published state and the shard directory at that moment. */
  datatype Publication = Publication(state: RunState, shards: Shards)

  /** A state that a handle is about to publish, and how many references of each kind it has read back so far. */
  datatype Proposal = Proposal(state: RunState, translated: nat, reviewed: nat, finalized: nat) {
    function Done(kind: Kind): nat {
      match kind
      case Translated => translated
      case Reviewed => reviewed
      case Finalized => finalized
    }

    function Advance(kind: Kind, n: nat): Proposal {
      match kind
      case Translated => this.(translated := translated + n)
      case Reviewed => this.(reviewed := reviewed + n)
      case Finalized => this.(finalized := finalized + n)
    }

    function Refs(kind: Kind): seq<ShardRef> {
      if state.manifest.Some? then state.manifest.value.Refs(kind) else []
    }

    function Count(kind: Kind): nat {
      Completed(state, kind)
    }
  }

  /** The batch that the reference after the first `k` has to start at. */
  function NextBatch(refs: seq<ShardRef>, k: nat): nat
    requires k <= |refs|
  {
    if k == 0 then 1 else refs[k - 1].last + 1
  }

  /** The `k`-th reference continues the tiling and its file reads back. */
  predicate CanRead(digest: Digest, shards: Shards, refs: seq<ShardRef>, count: nat, k: nat) {
    && k < |refs|
    && NextBatch(refs, k) == refs[k].first <= refs[k].last <= count
    && refs[k].last < USIZE_MAX
    && ReadShard(digest, shards, refs[k]).Ok?
  }

  /** Nothing is left to read and nothing is missing. */
  predicate AllRead(refs: seq<ShardRef>, count: nat, k: nat) {
    && k <= |refs|
    && (k < |refs| ==> refs[k].first > count)
    && NextBatch(refs, k) == SaturatingSucc(count)
  }

  /** `pending` holds the proposal that each handle is validating. */
  datatype World = World(
    shards: Shards,
    state: Option<RunState>,
    pending: map<nat, Proposal>,
    history: seq<Publication>)

  /** Every event touches at most one file. */
  datatype Event =
    | WriteShard(content: Content)
    | Propose(handle: nat, state: RunState)
    | Read(handle: nat, kind: Kind)
    | Publish(handle: nat)
    | Crash(handle: nat)

  predicate Enabled(digest: Digest, w: World, e: Event) {
    match e
    case Propose(_, state) => state.manifest.Some?
    case Read(handle, kind) =>
      handle in w.pending
      && var p := w.pending[handle]; CanRead(digest, w.shards, p.Refs(kind), p.Count(kind), p.Done(kind))
    case Publish(handle) => handle in w.pending && Complete(w.pending[handle])
    case _ => true
  }

  predicate Complete(p: Proposal) {
    && AllRead(p.Refs(Translated), p.Count(Translated), p.translated)
    && AllRead(p.Refs(Reviewed), p.Count(Reviewed), p.reviewed)
    && AllRead(p.Refs(Finalized), p.Count(Finalized), p.finalized)
  }

  function Apply(digest: Digest, w: World, e: Event): World {
    match e
    case WriteShard(content) => w.(shards := w.shards[digest(content) := content])
    case Propose(handle, state) => w.(pending := w.pending[handle := Proposal(state, 0, 0, 0)])
    case Read(handle, kind) =>
      if handle !in w.pending then w
      else w.(pending := w.pending[handle := w.pending[handle].Advance(kind, 1)])
    case Publish(handle) =>
      if handle !in w.pending then w
      else w.(state := Some(w.pending[handle].state), pending := w.pending - {handle},
              history := w.history + [Publication(w.pending[handle].state, w.shards)])
    case Crash(handle) => w.(pending := w.pending - {handle})
  }

  function Replay(digest: Digest, w: World, events: seq<Event>): World
    decreases |events|
  {
    if events == [] then w else Replay(digest, Apply(digest, w, events[0]), events[1..])
  }

  predicate Runnable(digest: Digest, w: World, events: seq<Event>)
    decreases |events|
  {
    events != [] ==> Enabled(digest, w, events[0]) && Runnable(digest, Apply(digest, w, events[0]), events[1..])
  }

  ghost predicate Drawn(events: seq<Event>, pool: set<Content>) {
    forall e | e in events && e.WriteShard? :: e.content in pool
  }

  /** A publication was validated, and everything it could read then is still there unchanged. */
  ghost predicate Durable(digest: Digest, p: Publication, shards: Shards) {
    Validated(digest, p.shards, p.state) && Keeps(digest, p.shards, shards)
  }

  /** The first `k` references were each read back, and still can be. */
  predicate PrefixRead(digest: Digest, shards: Shards, refs: seq<ShardRef>, count: nat, k: nat) {
    k <= |refs| && forall i | 0 <= i < k :: CanRead(digest, shards, refs, count, i)
  }

  ghost predicate Sound(digest: Digest, shards: Shards, p: Proposal) {
    p.state.manifest.Some?
    && forall kind: Kind :: PrefixRead(digest, shards, p.Refs(kind), p.Count(kind), p.Done(kind))
  }

  ghost predicate Safe(digest: Digest, w: World, pool: set<Content>) {
    && DrawnFrom(digest, w.shards, pool)
    && (forall h | h in w.pending :: Sound(digest, w.shards, w.pending[h]))
    && (forall i | 0 <= i < |w.history| :: Durable(digest, w.history[i], w.shards))
  }

  /** Reading reference after reference to the end amounts to one load, whatever was written in between. */
  lemma {:induction false} ReadsLoad(digest: Digest, shards: Shards, refs: seq<ShardRef>, count: nat, k: nat, j: nat)
    requires j <= k && PrefixRead(digest, shards, refs, count, k) && AllRead(refs, count, k)
    ensures LoadRefs(digest, shards, refs[j..], NextBatch(refs, j), count).Ok?
    decreases k - j
  {
    if j < k {
      assert CanRead(digest, shards, refs, count, j);
      assert refs[j..][0] == refs[j] && refs[j..][1..] == refs[j + 1..];
      ReadsLoad(digest, shards, refs, count, k, j + 1);
    }
  }

  lemma SoundStays(digest: Digest, before: Shards, after: Shards, p: Proposal)
    requires Keeps(digest, before, after) && Sound(digest, before, p)
    ensures Sound(digest, after, p)
  {
    forall kind: Kind, i | 0 <= i < p.Done(kind)
      ensures CanRead(digest, after, p.Refs(kind), p.Count(kind), i)
    {
      assert CanRead(digest, before, p.Refs(kind), p.Count(kind), i);
      assert Intact(digest, before, p.Refs(kind)[i].sha256);
    }
  }

  lemma SoundAdvances(digest: Digest, shards: Shards, p: Proposal, kind: Kind)
    requires Sound(digest, shards, p) && CanRead(digest, shards, p.Refs(kind), p.Count(kind), p.Done(kind))
    ensures Sound(digest, shards, p.Advance(kind, 1))
  {
    var q := p.Advance(kind, 1);
    forall other: Kind
      ensures PrefixRead(digest, shards, q.Refs(other), q.Count(other), q.Done(other))
    {
      assert PrefixRead(digest, shards, p.Refs(other), p.Count(other), p.Done(other));
    }
  }

  /** A proposal that was read to the end is valid at the moment of its publication. */
  lemma CompleteIsValidated(digest: Digest, shards: Shards, p: Proposal)
    requires Sound(digest, shards, p) && Complete(p)
    ensures Validated(digest, shards, p.state)
  {
    forall kind: Kind
      ensures LoadRefs(digest, shards, p.Refs(kind), 1, p.Count(kind)).Ok?
    {
      ReadsLoad(digest, shards, p.Refs(kind), p.Count(kind), p.Done(kind), 0);
      assert p.Refs(kind)[0..] == p.Refs(kind);
    }
  }

  lemma ValidatedStays(digest: Digest, before: Shards, after: Shards, state: RunState)
    requires Keeps(digest, before, after) && Validated(digest, before, state)
    ensures Validated(digest, after, state)
    ensures forall kind: Kind ::
              LoadRefs(digest, after, state.manifest.value.Refs(kind), 1, Completed(state, kind))
              == LoadRefs(digest, before, state.manifest.value.Refs(kind), 1, Completed(state, kind))
  {
    forall kind: Kind
      ensures LoadRefs(digest, after, state.manifest.value.Refs(kind), 1, Completed(state, kind))
              == LoadRefs(digest, before, state.manifest.value.Refs(kind), 1, Completed(state, kind))
    {
      LoadIsStable(digest, before, after, state.manifest.value.Refs(kind), 1, Completed(state, kind));
    }
  }

  lemma WriteSafe(digest: Digest, w: World, content: Content, pool: set<Content>)
    requires CollisionFree(digest, pool) && Safe(digest, w, pool) && content in pool
    ensures Safe(digest, Apply(digest, w, WriteShard(content)), pool)
    ensures Keeps(digest, w.shards, Apply(digest, w, WriteShard(content)).shards)
  {
    WriteKeeps(digest, w.shards, content, pool);
    var next := Apply(digest, w, WriteShard(content));
    forall h | h in next.pending
      ensures Sound(digest, next.shards, next.pending[h])
    {
      SoundStays(digest, w.shards, next.shards, w.pending[h]);
    }
  }

  lemma StepSafe(digest: Digest, w: World, e: Event, pool: set<Content>)
    requires CollisionFree(digest, pool) && Safe(digest, w, pool) && Enabled(digest, w, e)
    requires e.WriteShard? ==> e.content in pool
    ensures Safe(digest, Apply(digest, w, e), pool)
    ensures Keeps(digest, w.shards, Apply(digest, w, e).shards)
  {
    match e
    case WriteShard(content) => WriteSafe(digest, w, content, pool);
    case Read(handle, kind) => SoundAdvances(digest, w.shards, w.pending[handle], kind);
    case Publish(handle) => CompleteIsValidated(digest, w.shards, w.pending[handle]);
    case _ =>
  }

  /**
   * Whatever the handles do and wherever they crash, also while one is reading its references back: the state file
   * is the initial one or the last one some handle published, publications are never withdrawn, and each one still
   * loads, for every kind, exactly the segments it loaded when it was published, and all that its fields count.
   */
  lemma {:induction false} RunsAreSafe(digest: Digest, w: World, events: seq<Event>, pool: set<Content>)
    requires CollisionFree(digest, pool) && Safe(digest, w, pool)
    requires Runnable(digest, w, events) && Drawn(events, pool)
    ensures var end := Replay(digest, w, events);
            && Safe(digest, end, pool)
            && w.history <= end.history
            && end.state == (if |end.history| == |w.history| then w.state
                             else Some(end.history[|end.history| - 1].state))
            && forall i, kind: Kind | 0 <= i < |end.history| ::
                 var p := end.history[i];
                 && p.state.manifest.Some?
                 && var refs := p.state.manifest.value.Refs(kind);
                    var count := Completed(p.state, kind);
                    && LoadRefs(digest, p.shards, refs, 1, count).Ok?
                    && LoadRefs(digest, end.shards, refs, 1, count) == LoadRefs(digest, p.shards, refs, 1, count)
    ensures forall p | p in Replay(digest, w, events).history ::
              && p.state.manifest.Some?
              && ClaimsHold(digest, Replay(digest, w, events).shards, p.state.manifest.value,
                            p.state.translatedCompleted, p.state.reviewedCompleted,
                            p.state.version >= 4 && p.state.validationCompleted)
    decreases |events|
  {
    var end := Replay(digest, w, events);
    if events != [] {
      assert events[0] in events;
      StepSafe(digest, w, events[0], pool);
      RunsAreSafe(digest, Apply(digest, w, events[0]), events[1..], pool);
    } else {
      forall i, kind: Kind | 0 <= i < |end.history|
        ensures var p := end.history[i];
                LoadRefs(digest, end.shards, p.state.manifest.value.Refs(kind), 1, Completed(p.state, kind))
                == LoadRefs(digest, p.shards, p.state.manifest.value.Refs(kind), 1, Completed(p.state, kind))
      {
        ValidatedStays(digest, end.history[i].shards, end.shards, end.history[i].state);
      }
      forall p | p in end.history
        ensures p.state.manifest.Some?
        ensures ClaimsHold(digest, end.shards, p.state.manifest.value, p.state.translatedCompleted,
                           p.state.reviewedCompleted, p.state.version >= 4 && p.state.validationCompleted)
      {
        ValidatedStays(digest, p.shards, end.shards, p.state);
        ValidatedMeans(digest, end.shards, p.state);
      }
    }
  }

  /** The events of shard writes. */
  function Writes(contents: seq<Content>): seq<Event> {
    seq(|contents|, i requires 0 <= i < |contents| => WriteShard(contents[i]))
  }

  lemma {:induction false} ReplayAppend(digest: Digest, w: World, left: seq<Event>, right: seq<Event>)
    ensures Replay(digest, w, left + right) == Replay(digest, Replay(digest, w, left), right)
    ensures Runnable(digest, w, left + right) <==>
            Runnable(digest, w, left) && Runnable(digest, Replay(digest, w, left), right)
    decreases |left|
  {
    if left == [] {
      assert left + right == right;
    } else {
      assert (left + right)[1..] == left[1..] + right;
      ReplayAppend(digest, Apply(digest, w, left[0]), left[1..], right);
    }
  }

  lemma {:induction false} ReplayWrites(digest: Digest, w: World, contents: seq<Content>)
    ensures Replay(digest, w, Writes(contents)) == w.(shards := AddAll(digest, w.shards, contents))
    ensures Runnable(digest, w, Writes(contents))
    decreases |contents|
  {
    if contents != [] {
      assert Writes(contents)[1..] == Writes(contents[1..]);
      ReplayWrites(digest, Apply(digest, w, Writes(contents)[0]), contents[1..]);
    }
  }

  // ---- The events of a validation that succeeds ----

  /** How many references a load at `count` reads, from the `j`-th on. */
  function Span(refs: seq<ShardRef>, count: nat, j: nat): nat
    decreases |refs| - j
  {
    if j < |refs| && refs[j].first <= count then 1 + Span(refs, count, j + 1) else 0
  }

  /** A load that succeeds can read its references one by one. */
  lemma {:induction false} LoadReads(digest: Digest, shards: Shards, refs: seq<ShardRef>, count: nat, j: nat)
    requires j <= |refs| && LoadRefs(digest, shards, refs[j..], NextBatch(refs, j), count).Ok?
    ensures var k := j + Span(refs, count, j);
            AllRead(refs, count, k) && forall i | j <= i < k :: CanRead(digest, shards, refs, count, i)
    decreases |refs| - j
  {
    if j < |refs| && refs[j].first <= count {
      assert refs[j..][0] == refs[j] && refs[j..][1..] == refs[j + 1..];
      LoadReads(digest, shards, refs, count, j + 1);
    }
  }

  function Reads(handle: nat, kind: Kind, n: nat): seq<Event> {
    seq(n, i => Read(handle, kind))
  }

  lemma AdvanceOnce(p: Proposal, kind: Kind, n: nat)
    ensures var q := p.Advance(kind, 1);
            && q.Done(kind) == p.Done(kind) + 1 && q.Refs(kind) == p.Refs(kind) && q.Count(kind) == p.Count(kind)
            && q.Advance(kind, n) == p.Advance(kind, n + 1)
  {
  }

  lemma {:induction false} ReplayReads(digest: Digest, w: World, handle: nat, kind: Kind, n: nat)
    requires handle in w.pending
    requires var p := w.pending[handle];
             forall i | p.Done(kind) <= i < p.Done(kind) + n :: CanRead(digest, w.shards, p.Refs(kind), p.Count(kind), i)
    ensures Runnable(digest, w, Reads(handle, kind, n))
    ensures Replay(digest, w, Reads(handle, kind, n))
            == w.(pending := w.pending[handle := w.pending[handle].Advance(kind, n)])
    decreases n
  {
    if n == 0 {
      assert w.pending[handle].Advance(kind, 0) == w.pending[handle];
      assert w.pending[handle := w.pending[handle]] == w.pending;
    } else {
      var next := Apply(digest, w, Read(handle, kind));
      assert Reads(handle, kind, n)[1..] == Reads(handle, kind, n - 1);
      AdvanceOnce(w.pending[handle], kind, n - 1);
      ReplayReads(digest, next, handle, kind, n - 1);
      assert next.pending[handle := next.pending[handle].Advance(kind, n - 1)]
             == w.pending[handle := w.pending[handle].Advance(kind, n)];
    }
  }

  /** A state once all of its references are read. */
  function Checked(state: RunState): Proposal {
    var p := Proposal(state, 0, 0, 0);
    Proposal(state, Span(p.Refs(Translated), p.Count(Translated), 0), Span(p.Refs(Reviewed), p.Count(Reviewed), 0),
             Span(p.Refs(Finalized), p.Count(Finalized), 0))
  }

  /** Proposing a state and reading all of its references, kind by kind. */
  function Validation(handle: nat, state: RunState): seq<Event> {
    var p := Checked(state);
    [Propose(handle, state)] + (Reads(handle, Translated, p.translated)
                                + (Reads(handle, Reviewed, p.reviewed) + Reads(handle, Finalized, p.finalized)))
  }

  lemma ValidatedReads(digest: Digest, shards: Shards, state: RunState, kind: Kind)
    requires Validated(digest, shards, state)
    ensures var p := Checked(state);
            && AllRead(p.Refs(kind), p.Count(kind), p.Done(kind))
            && forall i | 0 <= i < p.Done(kind) :: CanRead(digest, shards, p.Refs(kind), p.Count(kind), i)
  {
    var p := Checked(state);
    assert p.Refs(kind)[0..] == p.Refs(kind);
    LoadReads(digest, shards, p.Refs(kind), p.Count(kind), 0);
  }

  function With(w: World, handle: nat, p: Proposal): World {
    w.(pending := w.pending[handle := p])
  }

  lemma WithTwice(w: World, handle: nat, p: Proposal, q: Proposal)
    ensures With(With(w, handle, p), handle, q) == With(w, handle, q)
  {
    assert w.pending[handle := p][handle := q] == w.pending[handle := q];
  }

  /** Reading one kind of a valid proposal from its beginning. */
  lemma ReplayKind(digest: Digest, w: World, handle: nat, p: Proposal, kind: Kind)
    requires Validated(digest, w.shards, p.state) && p.Done(kind) == 0
    ensures var n := Checked(p.state).Done(kind);
            && Runnable(digest, With(w, handle, p), Reads(handle, kind, n))
            && Replay(digest, With(w, handle, p), Reads(handle, kind, n)) == With(w, handle, p.Advance(kind, n))
  {
    var n := Checked(p.state).Done(kind);
    ValidatedReads(digest, w.shards, p.state, kind);
    ReplayReads(digest, With(w, handle, p), handle, kind, n);
    WithTwice(w, handle, p, p.Advance(kind, n));
  }

  /** Reading the other two kinds. */
  lemma ReplayLaterKinds(digest: Digest, w: World, handle: nat, state: RunState)
    requires Validated(digest, w.shards, state)
    ensures var p := Checked(state);
            var start := With(w, handle, Proposal(state, p.translated, 0, 0));
            var steps := Reads(handle, Reviewed, p.reviewed) + Reads(handle, Finalized, p.finalized);
            Runnable(digest, start, steps) && Replay(digest, start, steps) == With(w, handle, p)
  {
    var p := Checked(state);
    var before, middle := Proposal(state, p.translated, 0, 0), Proposal(state, p.translated, p.reviewed, 0);
    ReplayKind(digest, w, handle, before, Reviewed);
    ReplayKind(digest, w, handle, middle, Finalized);
    ReplayAppend(digest, With(w, handle, before), Reads(handle, Reviewed, p.reviewed), Reads(handle, Finalized, p.finalized));
  }

  /** Validating a valid state in one go leaves it ready for publication. */
  lemma ReplayValidation(digest: Digest, w: World, handle: nat, state: RunState)
    requires Validated(digest, w.shards, state)
    ensures Runnable(digest, w, Validation(handle, state))
    ensures Replay(digest, w, Validation(handle, state)) == With(w, handle, Checked(state))
  {
    var p := Checked(state);
    var first, later := Reads(handle, Translated, p.translated),
                        Reads(handle, Reviewed, p.reviewed) + Reads(handle, Finalized, p.finalized);
    ReplayKind(digest, w, handle, Proposal(state, 0, 0, 0), Translated);
    ReplayLaterKinds(digest, w, handle, state);
    ReplayAppend(digest, With(w, handle, Proposal(state, 0, 0, 0)), first, later);
    assert Validation(handle, state)[0] == Propose(handle, state);
    assert Validation(handle, state)[1..] == first + later;
  }

  lemma CheckedIsComplete(digest: Digest, shards: Shards, state: RunState)
    requires Validated(digest, shards, state)
    ensures Complete(Checked(state))
  {
    ValidatedReads(digest, shards, state, Translated);
    ValidatedReads(digest, shards, state, Reviewed);
    ValidatedReads(digest, shards, state, Finalized);
  }
}
