/** The file-backed checkpoint store: handles that share one run directory. */
module CheckpointStore {
  import opened Wrappers
  import opened Machine
  import opened SegmentCodec
  import opened CheckpointSpec
  import opened CheckpointRuns

  /**
   * One run directory.  `world` is the ghost account of everything handles did to it.  In a
   * `reliable` directory no read or write fails by itself and the state file is never damaged, so that every refusal
   * has its reason in what is stored.
   */
  class RunDirectory {
    const digest: Digest
    const reliable: bool
    var shards: Shards
    var legacy: Legacy
    var state: Option<RunState>
    ghost var world: World

    ghost predicate Valid()
      reads this
    {
      world.shards == shards && world.state == state
    }

    constructor (digest: Digest, legacy: Legacy, reliable: bool)
      ensures Valid() && this.digest == digest && this.legacy == legacy && this.reliable == reliable
      ensures shards == map[] && state == None && world.pending == map[] && world.history == []
    {
      this.digest, this.legacy, this.reliable, shards, state := digest, legacy, reliable, map[], None;
      world := World(map[], None, map[], []);
    }

    /** Whether an access to the disk goes through. */
    method Access() returns (ok: bool)
      ensures reliable ==> ok
    {
      ok := *;
      if reliable {
        ok := true;
      }
    }

    /** An atomic write that may fail, and may have reached the disk even when it reports failure. */
    method PutShard(content: Content) returns (ok: bool, ghost events: seq<Event>)
      requires Valid()
      modifies this`shards, this`world
      ensures Valid()
      ensures reliable ==> ok
      ensures ok ==> events == [WriteShard(content)]
      ensures events == [] || events == [WriteShard(content)]
      ensures world == Replay(digest, old(world), events) && Runnable(digest, old(world), events)
    {
      events := [];
      ok := Access();
      var reached := *;
      if ok || reached {
        shards := shards[digest(content) := content];
        events := [WriteShard(content)];
        world := Apply(digest, world, events[0]);
      }
    }

    ghost method NoteValidated(handle: nat, proposed: RunState)
      requires Valid() && Validated(digest, shards, proposed)
      modifies this`world
      ensures Valid() && world == Replay(digest, old(world), Validation(handle, proposed))
      ensures Runnable(digest, old(world), Validation(handle, proposed))
      ensures handle in world.pending && world.pending[handle] == Checked(proposed) && Complete(Checked(proposed))
    {
      ReplayValidation(digest, world, handle, proposed);
      CheckedIsComplete(digest, shards, proposed);
      world := Replay(digest, world, Validation(handle, proposed));
    }

    method PutState(handle: nat, proposed: RunState) returns (ok: bool, ghost events: seq<Event>)
      requires Valid() && handle in world.pending
      requires world.pending[handle].state == proposed && Complete(world.pending[handle])
      modifies this`state, this`world
      ensures Valid()
      ensures reliable ==> ok
      ensures ok ==> events == [Publish(handle)]
      ensures events == [Crash(handle)] || events == [Publish(handle)]
      ensures state == if events == [Publish(handle)] then Some(proposed) else old(state)
      ensures world == Replay(digest, old(world), events) && Runnable(digest, old(world), events)
    {
      ok := Access();
      var reached := *;
      if ok || reached {
        state := Some(proposed);
        events := [Publish(handle)];
      } else {
        events := [Crash(handle)];
      }
      world := Apply(digest, world, events[0]);
    }
  }

  /** One handle; `memory` is the state it last published or read. */
  class FileRuntimeStore {
    const id: nat
    const dir: RunDirectory
    var memory: Option<RunState>

    constructor (id: nat, dir: RunDirectory)
      ensures this.id == id && this.dir == dir && memory == None
    {
      this.id, this.dir, memory := id, dir, None;
    }

    method WriteImmutableShard(first: nat, last: nat, segments: seq<Segment>)
      returns (r: Result<ShardRef, Error>, ghost events: seq<Event>)
      requires dir.Valid()
      modifies dir`shards, dir`world
      ensures dir.Valid()
      ensures r.Ok? ==> r.value == ShardRef(first, last, dir.digest(ShardContent(segments)))
                        && events == [WriteShard(ShardContent(segments))]
      ensures events == [] || events == [WriteShard(ShardContent(segments))]
      ensures dir.world == Replay(dir.digest, old(dir.world), events) && Runnable(dir.digest, old(dir.world), events)
      ensures r.Err? ==>
                if ValidDigest(dir.digest(ShardContent(segments))) then r.error == Io && !dir.reliable
                else r.error == InvalidDigest
    {
      var content := ShardContent(segments);
      var name := dir.digest(content);
      if !ValidDigest(name) {
        return Err(InvalidDigest), [];
      }
      var ok;
      ok, events := dir.PutShard(content);
      r := if ok then Ok(ShardRef(first, last, name)) else Err(Io);
    }

    method ReadImmutableShard(reference: ShardRef) returns (r: Result<seq<Segment>, Error>)
      ensures r == ReadShard(dir.digest, dir.shards, reference) || (r == Err(Io) && !dir.reliable)
    {
      if !ValidDigest(reference.sha256) {
        return Err(InvalidDigest);
      }
      var readable := dir.Access();
      if reference.sha256 !in dir.shards || !readable {
        return Err(Io);
      }
      var content := dir.shards[reference.sha256];
      if dir.digest(content) != reference.sha256 {
        return Err(ChecksumMismatch);
      }
      r := ParseContent(content);
    }

    method LoadBatchSegments(kind: Kind, completed: nat) returns (r: Result<seq<Segment>, Error>)
      ensures r == LoadFiles(FilesOf(dir.legacy, kind), 1, completed) || (r == Err(Io) && !dir.reliable)
    {
      var loaded: seq<Segment> := [];
      var batch: nat := 1;
      PrependNothing(LoadFiles(FilesOf(dir.legacy, kind), 1, completed));
      while batch <= completed
        invariant 1 <= batch <= completed + 1
        invariant LoadFiles(FilesOf(dir.legacy, kind), 1, completed) ==
                  Prepend(loaded, LoadFiles(FilesOf(dir.legacy, kind), batch, completed))
      {
        var readable := dir.Access();
        if !readable {
          return Err(Io);
        }
        var parsed := FilesOf(dir.legacy, kind)(batch);
        if parsed.Err? {
          return Err(parsed.error);
        }
        PrependTwice(loaded, parsed.value, LoadFiles(FilesOf(dir.legacy, kind), batch + 1, completed));
        loaded := loaded + parsed.value;
        batch := batch + 1;
      }
      assert loaded + [] == loaded;
      r := Ok(loaded);
    }

    /** Check one reference's range and read its shard. */
    method ReadNext(reference: ShardRef, next: nat, completed: nat) returns (r: Result<seq<Segment>, Error>)
      ensures r == NextShard(dir.digest, dir.shards, reference, next, completed) || (r == Err(Io) && !dir.reliable)
    {
      if reference.first != next || reference.last < reference.first || reference.last > completed {
        return Err(RangeMismatch);
      }
      r := ReadImmutableShard(reference);
      if r.Ok? && reference.last >= USIZE_MAX {
        r := Err(BatchOverflow);
      }
    }

    method LoadCheckpointSegments(state: RunState, kind: Kind, completed: nat) returns (r: Result<seq<Segment>, Error>)
      ensures r == LoadCheckpoint(dir.digest, dir.shards, dir.legacy, state, kind, completed)
              || (r == Err(Io) && !dir.reliable)
    {
      if state.manifest.None? {
        r := LoadBatchSegments(kind, completed);
        return;
      }
      var refs := state.manifest.value.Refs(kind);
      var next: nat := 1;
      var segments: seq<Segment> := [];
      var i := 0;
      PrependNothing(LoadRefs(dir.digest, dir.shards, refs, 1, completed));
      assert refs[0..] == refs;
      while i < |refs| && refs[i].first <= completed
        invariant 0 <= i <= |refs|
        invariant LoadRefs(dir.digest, dir.shards, refs, 1, completed) ==
                  Prepend(segments, LoadRefs(dir.digest, dir.shards, refs[i..], next, completed))
      {
        LoadRefsCons(dir.digest, dir.shards, refs, i, next, completed);
        var shard := ReadNext(refs[i], next, completed);
        if shard.Err? {
          return shard;
        }
        PrependTwice(segments, shard.value, LoadRefs(dir.digest, dir.shards, refs[i + 1..], refs[i].last + 1, completed));
        segments := segments + shard.value;
        next := refs[i].last + 1;
        i := i + 1;
      }
      if next != SaturatingSucc(completed) {
        return Err(MissingBatches);
      }
      assert segments + [] == segments;
      r := Ok(segments);
    }

    /** Inline segments become one shard for all batches. */
    method ImportInline(count: nat, inline: seq<Segment>)
      returns (r: Result<seq<ShardRef>, Error>, ghost writes: seq<Content>)
      requires dir.Valid()
      modifies dir`shards, dir`world
      ensures dir.Valid()
      ensures r.Ok? ==> writes == [ShardContent(inline)] && r.value == [ShardRef(1, count, dir.digest(ShardContent(inline)))]
      ensures dir.world == Replay(dir.digest, old(dir.world), Writes(writes))
      ensures r.Err? && DigestsValid(dir.digest) ==> r.error == Io && !dir.reliable
    {
      var written;
      ghost var events;
      written, events := WriteImmutableShard(1, count, inline);
      writes := if events == [] then [] else [ShardContent(inline)];
      assert Writes(writes) == events;
      r := if written.Ok? then Ok([written.value]) else Err(written.error);
    }

    /** One per-batch file, as it parses, becomes one shard. */
    method ImportFile(file: Result<seq<Segment>, Error>, batch: nat)
      returns (r: Result<ShardRef, Error>, ghost writes: seq<Content>)
      requires dir.Valid()
      modifies dir`shards, dir`world
      ensures dir.Valid()
      ensures dir.world == Replay(dir.digest, old(dir.world), Writes(writes))
      ensures r.Ok? ==> && file.Ok? && writes == [ShardContent(file.value)]
                        && r.value == ShardRef(batch, batch, dir.digest(ShardContent(file.value)))
      ensures r.Err? && DigestsValid(dir.digest) ==> (r.error == Io && !dir.reliable) || file == Err(r.error)
    {
      writes := [];
      var readable := dir.Access();
      if !readable {
        return Err(Io), [];
      }
      if file.Err? {
        return Err(file.error), [];
      }
      ghost var events;
      r, events := WriteImmutableShard(batch, batch, file.value);
      writes := if events == [] then [] else [ShardContent(file.value)];
      assert Writes(writes) == events;
    }

    /** The per-batch files from the first to the last. */
    method ImportBatches(files: BatchFiles, count: nat)
      returns (r: Result<seq<ShardRef>, Error>, ghost writes: seq<Content>)
      requires dir.Valid()
      modifies dir`shards, dir`world
      ensures dir.Valid()
      ensures r.Ok? ==> ImportFiles(dir.digest, files, 1, count) == Ok((r.value, writes))
      ensures dir.world == Replay(dir.digest, old(dir.world), Writes(writes))
      ensures r.Err? && DigestsValid(dir.digest) ==>
                (r.error == Io && !dir.reliable) || ImportFiles(dir.digest, files, 1, count) == Err(r.error)
    {
      var refs: seq<ShardRef> := [];
      var batch: nat := 1;
      writes := [];
      ImportPrefix([], [], ImportFiles(dir.digest, files, 1, count), [], []);
      while batch <= count
        invariant 1 <= batch <= count + 1 && dir.Valid()
        invariant dir.world == Replay(dir.digest, old(dir.world), Writes(writes))
        invariant ImportFiles(dir.digest, files, 1, count) ==
                  Imported(refs, writes, ImportFiles(dir.digest, files, batch, count))
      {
        var imported;
        ghost var more;
        imported, more := ImportFile(files(batch), batch);
        WritesAppend(dir.digest, old(dir.world), writes, more);
        if imported.Err? {
          return Err(imported.error), writes + more;
        }
        ImportPrefix(refs, writes, ImportFiles(dir.digest, files, batch + 1, count), [imported.value], more);
        refs := refs + [imported.value];
        writes := writes + more;
        batch := batch + 1;
      }
      assert refs + [] == refs && writes + [] == writes;
      r := Ok(refs);
    }

    /** Turn one kind of a legacy state into shard references, writing the shards as it goes. */
    method ImportOneKind(state: RunState, kind: Kind)
      returns (r: Result<seq<ShardRef>, Error>, ghost writes: seq<Content>)
      requires dir.Valid()
      modifies dir`shards, dir`world
      ensures dir.Valid()
      ensures r.Ok? ==> ImportKind(dir.digest, dir.legacy, state, kind) == Ok((r.value, writes))
      ensures dir.world == Replay(dir.digest, old(dir.world), Writes(writes))
      ensures r.Err? && DigestsValid(dir.digest) ==>
                (r.error == Io && !dir.reliable) || ImportKind(dir.digest, dir.legacy, state, kind) == Err(r.error)
    {
      var count := Completed(state, kind);
      writes := [];
      if count > 0 && Inline(state, kind) != [] {
        r, writes := ImportInline(count, Inline(state, kind));
        return;
      }
      r, writes := ImportBatches(FilesOf(dir.legacy, kind), count);
    }

    method ImportManifest(state: RunState) returns (r: Result<Manifest, Error>, ghost writes: seq<Content>)
      requires dir.Valid()
      modifies dir`shards, dir`world
      ensures dir.Valid()
      ensures r.Ok? ==> ImportPlan(dir.digest, dir.legacy, state) == Ok(Plan(r.value, writes))
      ensures dir.world == Replay(dir.digest, old(dir.world), Writes(writes))
      ensures r.Err? && DigestsValid(dir.digest) ==>
                (r.error == Io && !dir.reliable) || ImportPlan(dir.digest, dir.legacy, state) == Err(r.error)
    {
      writes := [];
      if state.manifest.Some? {
        return Ok(state.manifest.value), [];
      }
      ghost var w;
      var t, u, f;
      t, writes := ImportOneKind(state, Translated);
      if t.Err? {
        return Err(t.error), writes;
      }
      u, w := ImportOneKind(state, Reviewed);
      WritesAppend(dir.digest, old(dir.world), writes, w);
      writes := writes + w;
      if u.Err? {
        return Err(u.error), writes;
      }
      f, w := ImportOneKind(state, Finalized);
      WritesAppend(dir.digest, old(dir.world), writes, w);
      writes := writes + w;
      if f.Err? {
        return Err(f.error), writes;
      }
      r := Ok(Manifest(t.value, u.value, f.value));
    }

    /**
     * Publish a checkpoint.  Success publishes exactly the planned state over exactly the planned shards, after
     * validating it; any failure leaves the handle's memory alone, and leaves the state file alone unless the
     * failing step was the write of the validated state itself.
     */
    method CommitCheckpoint(checkpoint: Checkpoint) returns (r: Result<(), Error>, ghost events: seq<Event>)
      requires dir.Valid()
      modifies this`memory, dir`shards, dir`state, dir`world
      ensures dir.Valid()
      ensures dir.world == Replay(dir.digest, old(dir.world), events) && Runnable(dir.digest, old(dir.world), events)
      ensures r.Ok? ==>
                var plan := CommitPlan(dir.digest, dir.legacy, old(memory), checkpoint);
                && plan.Ok?
                && dir.shards == AddAll(dir.digest, old(dir.shards), plan.value.writes)
                && Validated(dir.digest, dir.shards, Proposed(plan.value, checkpoint))
                && dir.state == memory == Some(Proposed(plan.value, checkpoint))
                && events == Writes(plan.value.writes) + (Validation(id, Proposed(plan.value, checkpoint)) + [Publish(id)])
      ensures r.Ok? ==>
                && dir.state.Some? && dir.state.value.version == 6 && dir.state.value.manifest.Some?
                && ClaimsHold(dir.digest, dir.shards, dir.state.value.manifest.value, checkpoint.state.translatedCompleted,
                              checkpoint.state.reviewedCompleted, checkpoint.state.validationCompleted)
      ensures r.Err? ==> memory == old(memory)
      ensures r.Err? && dir.state != old(dir.state) ==>
                && r.error == Io
                && CommitPlan(dir.digest, dir.legacy, old(memory), checkpoint).Ok?
                && var proposed := Proposed(CommitPlan(dir.digest, dir.legacy, old(memory), checkpoint).value, checkpoint);
                   dir.state == Some(proposed) && Validated(dir.digest, dir.shards, proposed)
      ensures r.Err? && DigestsValid(dir.digest) && (dir.reliable || r.error != Io) ==>
                var plan := CommitPlan(dir.digest, dir.legacy, old(memory), checkpoint);
                plan == Err(r.error)
                || (plan.Ok?
                    && !ClaimsHold(dir.digest, AddAll(dir.digest, old(dir.shards), plan.value.writes), plan.value.manifest,
                                   checkpoint.state.translatedCompleted, checkpoint.state.reviewedCompleted,
                                   checkpoint.state.validationCompleted))
    {
      var base;
      ghost var writes;
      base, writes := BaseManifest(checkpoint.state);
      ReplayWrites(dir.digest, old(dir.world), writes);
      if base.Err? {
        return Err(base.error), Writes(writes);
      }
      var manifest := base.value;
      var updated;
      ghost var shardWrites;
      updated, shardWrites := PutShards(manifest, checkpoint.shards);
      WritesAppend(dir.digest, old(dir.world), writes, shardWrites);
      writes := writes + shardWrites;
      ReplayWrites(dir.digest, old(dir.world), writes);
      if updated.Err? {
        return Err(updated.error), Writes(writes);
      }
      manifest := updated.value;
      var state := checkpoint.state.(version := RUN_STATE_VERSION, manifest := Some(manifest));
      r := ValidateState(state);
      ValidatedMeans(dir.digest, dir.shards, state);
      if r.Err? {
        return r, Writes(writes);
      }
      ghost var tail;
      var ok;
      ok, tail := PublishState(state);
      events := Writes(writes) + tail;
      ReplayAppend(dir.digest, old(dir.world), Writes(writes), tail);
      if !ok {
        return Err(Io), events;
      }
      memory := Some(state);
      r := Ok(());
    }

    /** The manifest a commit builds on: the remembered state's if the fingerprints agree, else an empty one. */
    method BaseManifest(next: RunState) returns (r: Result<Manifest, Error>, ghost writes: seq<Content>)
      requires dir.Valid()
      modifies dir`shards, dir`world
      ensures dir.Valid()
      ensures dir.world == Replay(dir.digest, old(dir.world), Writes(writes))
      ensures r.Ok? ==> BasePlan(dir.digest, dir.legacy, memory, next) == Ok(Plan(r.value, writes))
      ensures r.Err? && DigestsValid(dir.digest) ==>
                (r.error == Io && !dir.reliable) || BasePlan(dir.digest, dir.legacy, memory, next) == Err(r.error)
    {
      if memory.Some? && memory.value.fingerprint == next.fingerprint {
        r, writes := ImportManifest(memory.value);
      } else {
        r, writes := Ok(EMPTY_MANIFEST), [];
      }
    }

    /** Write a validated state; the write may reach the disk even when it reports failure. */
    method PublishState(state: RunState) returns (ok: bool, ghost events: seq<Event>)
      requires dir.Valid() && Validated(dir.digest, dir.shards, state)
      modifies dir`state, dir`world
      ensures dir.Valid()
      ensures dir.world == Replay(dir.digest, old(dir.world), events) && Runnable(dir.digest, old(dir.world), events)
      ensures ok ==> events == Validation(id, state) + [Publish(id)] && dir.state == Some(state)
      ensures !ok ==> !dir.reliable && (dir.state == old(dir.state) || dir.state == Some(state))
    {
      dir.NoteValidated(id, state);
      ghost var tail;
      ok, tail := dir.PutState(id, state);
      events := Validation(id, state) + tail;
      ReplayAppend(dir.digest, old(dir.world), Validation(id, state), tail);
    }

    /** Write the checkpoint's shards and put each at its batch in the manifest. */
    method PutShards(base: Manifest, shards: seq<Shard>) returns (r: Result<Manifest, Error>, ghost writes: seq<Content>)
      requires dir.Valid()
      modifies dir`shards, dir`world
      ensures dir.Valid()
      ensures dir.world == Replay(dir.digest, old(dir.world), Writes(writes))
      ensures r.Ok? ==> ShardsPlan(dir.digest, base, shards) == Ok(Plan(r.value, writes))
      ensures r.Err? && DigestsValid(dir.digest) ==>
                (r.error == Io && !dir.reliable) || ShardsPlan(dir.digest, base, shards) == Err(r.error)
    {
      writes := [];
      var manifest := base;
      PlannedTwice([], [], ShardsPlan(dir.digest, base, shards));
      assert shards[0..] == shards;
      for i := 0 to |shards|
        invariant dir.Valid()
        invariant dir.world == Replay(dir.digest, old(dir.world), Writes(writes))
        invariant ShardsPlan(dir.digest, base, shards) == Planned(writes, ShardsPlan(dir.digest, manifest, shards[i..]))
      {
        var shard := shards[i];
        var refs := manifest.Refs(shard.kind);
        assert shards[i..][0] == shard && shards[i..][1..] == shards[i + 1..];
        if InsideRange(refs, shard.batch) {
          return Err(PartialReplace), writes;
        }
        refs := Without(refs, shard.batch);
        var written;
        ghost var event;
        ghost var more;
        written, event := WriteImmutableShard(shard.batch, shard.batch, shard.segments);
        more := if event == [] then [] else [ShardContent(shard.segments)];
        assert Writes(more) == event;
        WritesAppend(dir.digest, old(dir.world), writes, more);
        if written.Err? {
          return Err(written.error), writes + more;
        }
        manifest := manifest.With(shard.kind, SortByFirst(refs + [written.value]));
        PlannedTwice(writes, more, ShardsPlan(dir.digest, manifest, shards[i + 1..]));
        writes := writes + more;
      }
      assert writes + [] == writes;
      r := Ok(manifest);
    }

    /** Do not publish a state that refers to missing or corrupted data. */
    method ValidateState(state: RunState) returns (r: Result<(), Error>)
      requires state.manifest.Some?
      ensures r.Ok? ==> Validated(dir.digest, dir.shards, state)
      ensures r.Err? && (dir.reliable || r.error != Io) ==>
                exists kind: Kind ::
                  LoadRefs(dir.digest, dir.shards, state.manifest.value.Refs(kind), 1, Completed(state, kind)) == Err(r.error)
    {
      var kinds := [Translated, Reviewed, Finalized];
      for i := 0 to 3
        invariant forall j | 0 <= j < i ::
                    LoadRefs(dir.digest, dir.shards, state.manifest.value.Refs(kinds[j]), 1, Completed(state, kinds[j])).Ok?
      {
        var loaded := LoadCheckpointSegments(state, kinds[i], Completed(state, kinds[i]));
        if loaded.Err? {
          return Err(loaded.error);
        }
      }
      forall kind: Kind
        ensures LoadRefs(dir.digest, dir.shards, state.manifest.value.Refs(kind), 1, Completed(state, kind)).Ok?
      {
        assert kind == kinds[0] || kind == kinds[1] || kind == kinds[2];
      }
      r := Ok(());
    }

    method SaveRunState(state: RunState) returns (r: Result<(), Error>, ghost events: seq<Event>)
      requires dir.Valid()
      modifies this`memory, dir`shards, dir`state, dir`world
      ensures dir.Valid()
      ensures dir.world == Replay(dir.digest, old(dir.world), events) && Runnable(dir.digest, old(dir.world), events)
      ensures r.Ok? ==>
                var plan := BasePlan(dir.digest, dir.legacy, old(memory), state);
                && plan.Ok?
                && dir.shards == AddAll(dir.digest, old(dir.shards), plan.value.writes)
                && dir.state == memory == Some(Proposed(plan.value, Checkpoint(state, [])))
      ensures r.Err? ==> memory == old(memory)
      ensures r.Err? && DigestsValid(dir.digest) && dir.reliable ==>
                var plan := BasePlan(dir.digest, dir.legacy, old(memory), state);
                plan == Err(r.error)
                || (plan.Ok?
                    && !ClaimsHold(dir.digest, AddAll(dir.digest, old(dir.shards), plan.value.writes), plan.value.manifest,
                                   state.translatedCompleted, state.reviewedCompleted, state.validationCompleted))
    {
      r, events := CommitCheckpoint(Checkpoint(state, []));
      ghost var plan := BasePlan(dir.digest, dir.legacy, old(memory), state);
      assert plan.Ok? ==> plan.value.writes + [] == plan.value.writes;
    }

    /** Reading the state file makes it the handle's memory; a missing or unreadable file leaves the memory alone. */
    method LoadRunState() returns (r: Result<Option<RunState>, Error>)
      modifies this`memory
      ensures r.Ok? ==> r.value == dir.state && memory == if dir.state.Some? then dir.state else old(memory)
      ensures r.Err? ==> dir.state.Some? && !dir.reliable && memory == old(memory)
    {
      if dir.state.None? {
        return Ok(None);
      }
      var readable := dir.Access();
      if !readable {
        return Err(Io);
      }
      var intact := dir.Access();
      if !intact {
        return Err(Malformed("run state"));
      }
      memory := dir.state;
      r := Ok(dir.state);
    }
  }

  ghost predicate DigestsValid(digest: Digest) {
    forall c :: ValidDigest(digest(c))
  }

  function Prepend(head: seq<Segment>, rest: Result<seq<Segment>, Error>): Result<seq<Segment>, Error> {
    match rest
    case Ok(segments) => Ok(head + segments)
    case Err(e) => Err(e)
  }

  /** What one reference contributes to a load that has come to batch `next`. */
  function NextShard(digest: Digest, shards: Shards, reference: ShardRef, next: nat, completed: nat)
    : Result<seq<Segment>, Error>
  {
    if reference.first != next || reference.last < reference.first || reference.last > completed then Err(RangeMismatch)
    else if ReadShard(digest, shards, reference).Ok? && reference.last >= USIZE_MAX then Err(BatchOverflow)
    else ReadShard(digest, shards, reference)
  }

  lemma LoadRefsCons(digest: Digest, shards: Shards, refs: seq<ShardRef>, i: nat, next: nat, completed: nat)
    requires i < |refs| && refs[i].first <= completed
    ensures var shard := NextShard(digest, shards, refs[i], next, completed);
            LoadRefs(digest, shards, refs[i..], next, completed)
            == if shard.Err? then shard
               else Prepend(shard.value, LoadRefs(digest, shards, refs[i + 1..], refs[i].last + 1, completed))
  {
    assert refs[i..][0] == refs[i] && refs[i..][1..] == refs[i + 1..];
  }

  lemma PrependNothing(rest: Result<seq<Segment>, Error>)
    ensures Prepend([], rest) == rest
  {
    assert rest.Ok? ==> [] + rest.value == rest.value;
  }

  lemma PrependTwice(left: seq<Segment>, right: seq<Segment>, rest: Result<seq<Segment>, Error>)
    ensures Prepend(left, Prepend(right, rest)) == Prepend(left + right, rest)
  {
    assert rest.Ok? ==> left + (right + rest.value) == (left + right) + rest.value;
  }

  function Imported(refs: seq<ShardRef>, writes: seq<Content>, rest: Result<(seq<ShardRef>, seq<Content>), Error>)
    : Result<(seq<ShardRef>, seq<Content>), Error>
  {
    match rest
    case Ok(pair) => Ok((refs + pair.0, writes + pair.1))
    case Err(e) => Err(e)
  }

  lemma ImportPrefix(refs: seq<ShardRef>, writes: seq<Content>, rest: Result<(seq<ShardRef>, seq<Content>), Error>,
                     moreRefs: seq<ShardRef>, moreWrites: seq<Content>)
    ensures Imported(refs, writes, Imported(moreRefs, moreWrites, rest)) == Imported(refs + moreRefs, writes + moreWrites, rest)
    ensures Imported([], [], rest) == rest
  {
    if rest.Ok? {
      var (r, w) := rest.value;
      assert refs + (moreRefs + r) == refs + moreRefs + r && writes + (moreWrites + w) == writes + moreWrites + w;
      assert [] + r == r && [] + w == w;
    }
  }

  function Planned(writes: seq<Content>, rest: Result<Plan, Error>): Result<Plan, Error> {
    match rest
    case Ok(plan) => Ok(Plan(plan.manifest, writes + plan.writes))
    case Err(e) => Err(e)
  }

  lemma PlannedTwice(left: seq<Content>, right: seq<Content>, rest: Result<Plan, Error>)
    ensures Planned(left, Planned(right, rest)) == Planned(left + right, rest)
    ensures Planned([], rest) == rest
  {
    if rest.Ok? {
      assert left + (right + rest.value.writes) == left + right + rest.value.writes;
      assert [] + rest.value.writes == rest.value.writes;
    }
  }

  lemma WritesAppend(digest: Digest, w: World, left: seq<Content>, right: seq<Content>)
    ensures Replay(digest, w, Writes(left + right)) == Replay(digest, Replay(digest, w, Writes(left)), Writes(right))
  {
    assert Writes(left + right) == Writes(left) + Writes(right);
    ReplayAppend(digest, w, Writes(left), Writes(right));
  }
}
