/** A store handle refines a latest-wins map from batches to segments, and migration keeps the meaning of a state. */
module CheckpointRefinement {
  import opened Wrappers
  import opened Machine
  import opened SegmentCodec
  import opened CheckpointSpec
  import opened CheckpointLaws

  /** The abstract value of a manifest. */
  datatype Views = Views(translated: Blocks, reviewed: Blocks, finalized: Blocks) {
    function Of(kind: Kind): Blocks {
      match kind
      case Translated => translated
      case Reviewed => reviewed
      case Finalized => finalized
    }

    function Put(shard: Shard): Views {
      var block := (shard.batch, shard.segments);
      match shard.kind
      case Translated => this.(translated := translated[shard.batch := block])
      case Reviewed => this.(reviewed := reviewed[shard.batch := block])
      case Finalized => this.(finalized := finalized[shard.batch := block])
    }
  }

  const EMPTY_VIEWS := Views(map[], map[], map[])

  function PutAll(views: Views, shards: seq<Shard>): Views
    decreases |shards|
  {
    if shards == [] then views else PutAll(views.Put(shards[0]), shards[1..])
  }

  /** Some multi-batch block contains the batch. */
  predicate InsideBlocks(blocks: Blocks, batch: nat) {
    exists first | first in blocks :: blocks[first].0 != first && first <= batch <= blocks[first].0
  }

  predicate Replaceable(views: Views, shards: seq<Shard>)
    decreases |shards|
  {
    shards != [] ==>
      !InsideBlocks(views.Of(shards[0].kind), shards[0].batch) && Replaceable(views.Put(shards[0]), shards[1..])
  }

  function Contents(shards: seq<Shard>): seq<Content> {
    seq(|shards|, i requires 0 <= i < |shards| => ShardContent(shards[i].segments))
  }

  ghost predicate ManifestHolds(digest: Digest, disk: Shards, manifest: Manifest, views: Views) {
    forall kind: Kind :: Represents(digest, disk, manifest.Refs(kind), 0, views.Of(kind))
  }

  lemma {:induction false} InsideIff(digest: Digest, disk: Shards, refs: seq<ShardRef>, low: nat, blocks: Blocks, batch: nat)
    requires Represents(digest, disk, refs, low, blocks)
    ensures InsideRange(refs, batch) <==>
            exists first | first in blocks :: first >= low && blocks[first].0 != first && first <= batch <= blocks[first].0
  {
    if refs != [] {
      var rest := refs[1..];
      InsideIff(digest, disk, rest, refs[0].last + 1, blocks, batch);
      assert InsideRange(refs, batch) <==>
             (refs[0].first != refs[0].last && refs[0].first <= batch <= refs[0].last) || InsideRange(rest, batch) by {
        assert forall i | 0 <= i < |rest| :: rest[i] == refs[i + 1];
        if i :| 0 <= i < |refs| && refs[i].first != refs[i].last && refs[i].first <= batch <= refs[i].last {
          assert i > 0 ==> rest[i - 1] == refs[i];
        }
      }
    }
  }

  lemma ReplaceHolds(digest: Digest, disk: Shards, manifest: Manifest, views: Views, shard: Shard)
    requires ManifestHolds(digest, disk, manifest, views)
    requires !InsideRange(manifest.Refs(shard.kind), shard.batch)
    requires var c := ShardContent(shard.segments); digest(c) in disk && disk[digest(c)] == c
    ensures var refs := ReplaceBatch(digest, manifest.Refs(shard.kind), shard.batch, ShardContent(shard.segments));
            ManifestHolds(digest, disk, manifest.With(shard.kind, refs), views.Put(shard))
  {
    ReplaceUpdates(digest, disk, manifest.Refs(shard.kind), views.Of(shard.kind), shard.batch, shard.segments);
    var refs := ReplaceBatch(digest, manifest.Refs(shard.kind), shard.batch, ShardContent(shard.segments));
    forall kind: Kind
      ensures Represents(digest, disk, manifest.With(shard.kind, refs).Refs(kind), 0, views.Put(shard).Of(kind))
    {
      WithPut(manifest, views, shard, refs, kind);
    }
  }

  /** Writing one kind's references and putting one kind's block leave the other kinds alone. */
  lemma WithPut(manifest: Manifest, views: Views, shard: Shard, refs: seq<ShardRef>, kind: Kind)
    ensures manifest.With(shard.kind, refs).Refs(kind) == if kind == shard.kind then refs else manifest.Refs(kind)
    ensures views.Put(shard).Of(kind)
            == if kind == shard.kind then views.Of(kind)[shard.batch := (shard.batch, shard.segments)] else views.Of(kind)
  {
  }

  lemma HoldsKept(digest: Digest, before: Shards, after: Shards, manifest: Manifest, views: Views)
    requires ManifestHolds(digest, before, manifest, views) && Keeps(digest, before, after)
    ensures ManifestHolds(digest, after, manifest, views)
  {
    forall kind: Kind ensures Represents(digest, after, manifest.Refs(kind), 0, views.Of(kind)) {
      RepresentsKept(digest, before, after, manifest.Refs(kind), 0, views.Of(kind));
    }
  }

  /**
   * Planning succeeds exactly when no shard falls inside a multi-batch block, and then the new manifest
   * stands for the old map with the shards put in, in order, and nothing else changed.
   */
  lemma {:induction false} ShardsPlanLatest(digest: Digest, disk: Shards, manifest: Manifest, views: Views,
                                            shards: seq<Shard>, pool: set<Content>)
    requires CollisionFree(digest, pool) && DrawnFrom(digest, disk, pool)
    requires forall c | c in Contents(shards) :: c in pool
    requires ManifestHolds(digest, disk, manifest, views)
    ensures ShardsPlan(digest, manifest, shards).Ok? <==> Replaceable(views, shards)
    ensures ShardsPlan(digest, manifest, shards).Ok? ==>
              var plan := ShardsPlan(digest, manifest, shards).value;
              && plan.writes == Contents(shards)
              && ManifestHolds(digest, AddAll(digest, disk, plan.writes), plan.manifest, PutAll(views, shards))
    decreases |shards|
  {
    if shards != [] {
      var shard := shards[0];
      var refs := manifest.Refs(shard.kind);
      InsideIff(digest, disk, refs, 0, views.Of(shard.kind), shard.batch);
      if !InsideRange(refs, shard.batch) {
        var content := ShardContent(shard.segments);
        assert content == Contents(shards)[0];
        var next := disk[digest(content) := content];
        WriteKeeps(digest, disk, content, pool);
        HoldsKept(digest, disk, next, manifest, views);
        ReplaceHolds(digest, next, manifest, views, shard);
        var replaced := manifest.With(shard.kind, ReplaceBatch(digest, refs, shard.batch, content));
        assert Contents(shards)[1..] == Contents(shards[1..]);
        ShardsPlanLatest(digest, next, replaced, views.Put(shard), shards[1..], pool);
        assert [content] + Contents(shards[1..]) == Contents(shards);
        assert Contents(shards)[1..] == Contents(shards[1..]);
      }
    }
  }

  // ---- Migration ----

  /** The blocks held by the per-batch files from `batch` to `count`. */
  function LegacyBlocks(files: BatchFiles, batch: nat, count: nat): Blocks {
    map b: nat | batch <= b <= count && files(b).Ok? :: (b, files(b).value)
  }

  function KindBlocks(legacy: Legacy, state: RunState, kind: Kind): Blocks {
    var count := Completed(state, kind);
    if count > 0 && Inline(state, kind) != [] then map[1 := (count, Inline(state, kind))]
    else LegacyBlocks(FilesOf(legacy, kind), 1, count)
  }

  function ImportViews(legacy: Legacy, state: RunState): Views {
    Views(KindBlocks(legacy, state, Translated), KindBlocks(legacy, state, Reviewed), KindBlocks(legacy, state, Finalized))
  }

  ghost predicate Written(digest: Digest, disk: Shards, writes: seq<Content>) {
    forall c | c in writes :: digest(c) in disk && disk[digest(c)] == c
  }

  lemma {:induction false} ImportFilesHolds(digest: Digest, disk: Shards, files: BatchFiles, batch: nat, count: nat)
    requires ImportFiles(digest, files, batch, count).Ok? ==>
               Written(digest, disk, ImportFiles(digest, files, batch, count).value.1)
    ensures ImportFiles(digest, files, batch, count).Ok? ==>
              Represents(digest, disk, ImportFiles(digest, files, batch, count).value.0, batch,
                         LegacyBlocks(files, batch, count))
    decreases count + 1 - batch
  {
    if batch <= count && files(batch).Ok? {
      var rest := ImportFiles(digest, files, batch + 1, count);
      if rest.Ok? {
        var (tail, writes) := rest.value;
        var content := ShardContent(files(batch).value);
        assert forall c | c in writes :: c in [content] + writes;
        assert content in [content] + writes;
        ImportFilesHolds(digest, disk, files, batch + 1, count);
        ConsFileHolds(digest, disk, files, batch, count, tail);
      }
    }
  }

  /** One more per-batch file in front of the imported references. */
  lemma ConsFileHolds(digest: Digest, disk: Shards, files: BatchFiles, batch: nat, count: nat, tail: seq<ShardRef>)
    requires batch <= count && files(batch).Ok?
    requires Written(digest, disk, [ShardContent(files(batch).value)])
    requires Represents(digest, disk, tail, batch + 1, LegacyBlocks(files, batch + 1, count))
    ensures var content := ShardContent(files(batch).value);
            Represents(digest, disk, [ShardRef(batch, batch, digest(content))] + tail, batch,
                       LegacyBlocks(files, batch, count))
  {
    var content := ShardContent(files(batch).value);
    var blocks := LegacyBlocks(files, batch, count);
    RepresentsAgree(digest, disk, tail, batch + 1, LegacyBlocks(files, batch + 1, count), blocks);
    var refs := [ShardRef(batch, batch, digest(content))] + tail;
    assert content in [content];
    assert refs[0] == ShardRef(batch, batch, digest(content)) && refs[1..] == tail;
  }

  lemma {:induction false} WalkLegacy(files: BatchFiles, batch: nat, count: nat)
    requires 1 <= batch
    ensures match LoadFiles(files, batch, count)
            case Ok(segments) => Walk(LegacyBlocks(files, 1, count), batch, count) == Some(segments)
            case Err(_) => Walk(LegacyBlocks(files, 1, count), batch, count) == None
    decreases count + 1 - batch
  {
    if batch <= count {
      WalkLegacy(files, batch + 1, count);
    }
  }

  lemma ImportKindHolds(digest: Digest, disk: Shards, legacy: Legacy, state: RunState, kind: Kind)
    requires ImportKind(digest, legacy, state, kind).Ok? ==>
               Written(digest, disk, ImportKind(digest, legacy, state, kind).value.1)
    ensures ImportKind(digest, legacy, state, kind).Ok? ==>
              Represents(digest, disk, ImportKind(digest, legacy, state, kind).value.0, 0, KindBlocks(legacy, state, kind))
  {
    var count := Completed(state, kind);
    if count > 0 && Inline(state, kind) != [] {
      var content := ShardContent(Inline(state, kind));
      assert content in [content];
    } else {
      ImportFilesHolds(digest, disk, FilesOf(legacy, kind), 1, count);
    }
  }

  lemma ImportHolds(digest: Digest, disk: Shards, legacy: Legacy, state: RunState, plan: Plan)
    requires state.manifest.None? && ImportPlan(digest, legacy, state) == Ok(plan)
    requires Written(digest, disk, plan.writes)
    ensures ManifestHolds(digest, disk, plan.manifest, ImportViews(legacy, state))
  {
    ImportKindHolds(digest, disk, legacy, state, Translated);
    ImportKindHolds(digest, disk, legacy, state, Reviewed);
    ImportKindHolds(digest, disk, legacy, state, Finalized);
  }

  /** What a legacy state means: its inline segments if it has them, otherwise its per-batch files. */
  function LegacyMeaning(legacy: Legacy, state: RunState, kind: Kind): Result<seq<Segment>, Error> {
    var count := Completed(state, kind);
    if count > 0 && Inline(state, kind) != [] then Ok(Inline(state, kind))
    else LoadFiles(FilesOf(legacy, kind), 1, count)
  }

  /** Importing a legacy state succeeds exactly when all of its segments can be read. */
  lemma MigrationReads(digest: Digest, legacy: Legacy, state: RunState)
    requires state.manifest.None?
    ensures ImportPlan(digest, legacy, state).Ok? <==>
            && LegacyMeaning(legacy, state, Translated).Ok?
            && LegacyMeaning(legacy, state, Reviewed).Ok?
            && LegacyMeaning(legacy, state, Finalized).Ok?
  {
    ImportReads(digest, legacy, state, Translated);
    ImportReads(digest, legacy, state, Reviewed);
    ImportReads(digest, legacy, state, Finalized);
  }

  /** Loading through the imported manifest gives exactly what the legacy state meant, for every kind. */
  lemma MigrationPreservesMeaning(digest: Digest, disk: Shards, legacy: Legacy, state: RunState, plan: Plan,
                                  pool: set<Content>, kind: Kind)
    requires state.manifest.None? && (forall c :: ValidDigest(digest(c))) && Completed(state, kind) < USIZE_MAX
    requires CollisionFree(digest, pool) && DrawnFrom(digest, disk, pool)
    requires ImportPlan(digest, legacy, state) == Ok(plan) && forall c | c in plan.writes :: c in pool
    ensures LoadRefs(digest, AddAll(digest, disk, plan.writes), plan.manifest.Refs(kind), 1, Completed(state, kind))
            == LegacyMeaning(legacy, state, kind)
  {
    var after := AddAll(digest, disk, plan.writes);
    AddAllKeeps(digest, disk, plan.writes, pool);
    ImportHolds(digest, after, legacy, state, plan);
    assert Represents(digest, after, plan.manifest.Refs(kind), 0, ImportViews(legacy, state).Of(kind));
    MigrationReads(digest, legacy, state);
    ImportedKindMeans(digest, after, legacy, state, kind, plan.manifest.Refs(kind));
  }

  /**
   * The same in the fields of the state: inline segments come back for all counted batches of their kind, and
   * otherwise, as always for validation, the per-batch files do.
   */
  lemma MigrationInFields(digest: Digest, disk: Shards, legacy: Legacy, state: RunState, plan: Plan, pool: set<Content>)
    requires state.manifest.None? && (forall c :: ValidDigest(digest(c)))
    requires state.translatedCompleted < USIZE_MAX && state.reviewedCompleted < USIZE_MAX
    requires CollisionFree(digest, pool) && DrawnFrom(digest, disk, pool)
    requires ImportPlan(digest, legacy, state) == Ok(plan) && forall c | c in plan.writes :: c in pool
    ensures LoadRefs(digest, AddAll(digest, disk, plan.writes), plan.manifest.translated, 1, state.translatedCompleted)
            == if state.translatedCompleted > 0 && state.translatedSegments != [] then Ok(state.translatedSegments)
               else LoadFiles(FilesOf(legacy, Translated), 1, state.translatedCompleted)
    ensures LoadRefs(digest, AddAll(digest, disk, plan.writes), plan.manifest.reviewed, 1, state.reviewedCompleted)
            == if state.reviewedCompleted > 0 && state.reviewedSegments != [] then Ok(state.reviewedSegments)
               else LoadFiles(FilesOf(legacy, Reviewed), 1, state.reviewedCompleted)
    ensures var count := if state.version >= 4 && state.validationCompleted then 1 else 0;
            LoadRefs(digest, AddAll(digest, disk, plan.writes), plan.manifest.finalized, 1, count)
            == LoadFiles(FilesOf(legacy, Finalized), 1, count)
  {
    MigrationPreservesMeaning(digest, disk, legacy, state, plan, pool, Translated);
    MigrationPreservesMeaning(digest, disk, legacy, state, plan, pool, Reviewed);
    MigrationPreservesMeaning(digest, disk, legacy, state, plan, pool, Finalized);
  }

  function Joined(lists: seq<seq<Segment>>): seq<Segment> {
    if lists == [] then [] else lists[0] + Joined(lists[1..])
  }

  /** Per-batch files load as the lists that were written to them, batch by batch. */
  lemma {:induction false} WrittenFilesLoad(legacy: Legacy, kind: Kind, lists: seq<seq<Segment>>, batch: nat)
    requires 1 <= batch <= |lists| + 1
    requires forall b: nat | 1 <= b <= |lists| :: (kind, b) in legacy && legacy[(kind, b)] == ShardContent(lists[b - 1])
    ensures LoadFiles(FilesOf(legacy, kind), batch, |lists|) == Ok(Joined(lists[batch - 1..]))
    decreases |lists| + 1 - batch
  {
    if batch <= |lists| {
      ShardRoundTrip(lists[batch - 1]);
      WrittenFilesLoad(legacy, kind, lists, batch + 1);
      assert lists[batch - 1..][1..] == lists[batch..];
    }
  }

  /** Per-batch files load exactly when the file of every batch is there and can be read. */
  lemma {:induction false} LegacyNeedsEveryFile(legacy: Legacy, kind: Kind, batch: nat, count: nat)
    ensures LoadFiles(FilesOf(legacy, kind), batch, count).Ok? <==>
            forall b: nat | batch <= b <= count :: (kind, b) in legacy && ParseContent(legacy[(kind, b)]).Ok?
    decreases count + 1 - batch
  {
    if batch <= count {
      LegacyNeedsEveryFile(legacy, kind, batch + 1, count);
    }
  }

  lemma ImportedKindMeans(digest: Digest, disk: Shards, legacy: Legacy, state: RunState, kind: Kind, refs: seq<ShardRef>)
    requires (forall c :: ValidDigest(digest(c))) && Completed(state, kind) < USIZE_MAX
    requires Represents(digest, disk, refs, 0, KindBlocks(legacy, state, kind)) && LegacyMeaning(legacy, state, kind).Ok?
    ensures LoadRefs(digest, disk, refs, 1, Completed(state, kind)) == LegacyMeaning(legacy, state, kind)
  {
    var count := Completed(state, kind);
    LoadIsLatest(digest, disk, refs, count, KindBlocks(legacy, state, kind));
    if count > 0 && Inline(state, kind) != [] {
      InlineMeans(count, Inline(state, kind));
    } else {
      WalkLegacy(FilesOf(legacy, kind), 1, count);
    }
  }

  /** One block from the first batch to the last is all there is to load. */
  lemma InlineMeans(count: nat, segments: seq<Segment>)
    requires count > 0
    ensures Latest(map[1 := (count, segments)], count) == Some(segments)
  {
    var blocks: Blocks := map[1 := (count, segments)];
    assert Walk(blocks, count + 1, count) == Some([]);
    assert segments + [] == segments;
  }

  lemma ImportReads(digest: Digest, legacy: Legacy, state: RunState, kind: Kind)
    ensures ImportKind(digest, legacy, state, kind).Ok? <==> LegacyMeaning(legacy, state, kind).Ok?
  {
    ImportFilesReads(digest, FilesOf(legacy, kind), 1, Completed(state, kind));
  }

  lemma {:induction false} ImportFilesReads(digest: Digest, files: BatchFiles, batch: nat, count: nat)
    ensures ImportFiles(digest, files, batch, count).Ok? <==> LoadFiles(files, batch, count).Ok?
    decreases count + 1 - batch
  {
    if batch <= count {
      ImportFilesReads(digest, files, batch + 1, count);
    }
  }

  // ---- Commits ----

  /** What a handle builds on: its own map, an imported legacy state, or nothing for another fingerprint. */
  function BaseViews(legacy: Legacy, current: Option<RunState>, views: Views, next: RunState): Views {
    match current
    case Some(prior) =>
      if prior.fingerprint != next.fingerprint then EMPTY_VIEWS
      else if prior.manifest.Some? then views
      else ImportViews(legacy, prior)
    case None => EMPTY_VIEWS
  }

  ghost predicate HandleHolds(digest: Digest, disk: Shards, current: Option<RunState>, views: Views) {
    current.Some? && current.value.manifest.Some? ==>
      ManifestHolds(digest, disk, current.value.manifest.value, views)
  }

  /**
   * A planned commit stands for the base map with the checkpoint's shards put in, latest last.  The base is
   * empty unless the remembered state has the same fingerprint, so no reference crosses fingerprints.
   */
  lemma CommitRefines(digest: Digest, disk: Shards, legacy: Legacy, current: Option<RunState>, views: Views,
                      checkpoint: Checkpoint, plan: Plan, pool: set<Content>)
    requires CollisionFree(digest, pool) && DrawnFrom(digest, disk, pool)
    requires HandleHolds(digest, disk, current, views)
    requires CommitPlan(digest, legacy, current, checkpoint) == Ok(plan)
    requires forall c | c in plan.writes :: c in pool
    ensures var base := BaseViews(legacy, current, views, checkpoint.state);
            && Replaceable(base, checkpoint.shards)
            && ManifestHolds(digest, AddAll(digest, disk, plan.writes), plan.manifest, PutAll(base, checkpoint.shards))
  {
    var base := BasePlan(digest, legacy, current, checkpoint.state).value;
    var baseViews := BaseViews(legacy, current, views, checkpoint.state);
    var rest := ShardsPlan(digest, base.manifest, checkpoint.shards).value;
    assert plan.writes == base.writes + rest.writes;
    assert forall c | c in base.writes :: c in plan.writes;
    assert forall c | c in rest.writes :: c in plan.writes;
    var middle := AddAll(digest, disk, base.writes);
    AddAllKeeps(digest, disk, base.writes, pool);
    AddAllAppend(digest, disk, base.writes, rest.writes);
    ShardsPlanWrites(digest, base.manifest, checkpoint.shards);
    if current.Some? && current.value.fingerprint == checkpoint.state.fingerprint && current.value.manifest.None? {
      ImportHolds(digest, middle, legacy, current.value, base);
    } else if current.Some? && current.value.fingerprint == checkpoint.state.fingerprint {
      assert middle == disk;
    }
    assert ManifestHolds(digest, middle, base.manifest, baseViews);
    ShardsPlanLatest(digest, middle, base.manifest, baseViews, checkpoint.shards, pool);
  }

  lemma {:induction false} ShardsPlanWrites(digest: Digest, manifest: Manifest, shards: seq<Shard>)
    ensures ShardsPlan(digest, manifest, shards).Ok? ==>
              ShardsPlan(digest, manifest, shards).value.writes == Contents(shards)
    decreases |shards|
  {
    if shards != [] {
      var refs := ReplaceBatch(digest, manifest.Refs(shards[0].kind), shards[0].batch, ShardContent(shards[0].segments));
      ShardsPlanWrites(digest, manifest.With(shards[0].kind, refs), shards[1..]);
      assert Contents(shards) == [ShardContent(shards[0].segments)] + Contents(shards[1..]);
    }
  }

  // ---- Runs of commits by one handle ----

  function AllShards(checkpoints: seq<Checkpoint>): seq<Shard> {
    if checkpoints == [] then [] else AllShards(checkpoints[..|checkpoints| - 1]) + checkpoints[|checkpoints| - 1].shards
  }

  /**
   * `states[i]` is the handle's memory and `disks[i]` the shard directory before its i-th successful commit;
   * between commits other handles, and failed commits, may add shard files.
   */
  ghost predicate CommitRun(digest: Digest, legacy: Legacy, checkpoints: seq<Checkpoint>,
                            states: seq<RunState>, disks: seq<Shards>, pool: set<Content>)
  {
    && |states| == |disks| == |checkpoints| + 1
    && (forall i | 0 <= i < |disks| :: DrawnFrom(digest, disks[i], pool))
    && forall i | 0 <= i < |checkpoints| ::
         CommitAt(digest, legacy, checkpoints[i], states[i], states[i + 1], disks[i], disks[i + 1], pool)
  }

  ghost predicate CommitAt(digest: Digest, legacy: Legacy, checkpoint: Checkpoint, before: RunState, after: RunState,
                           disk: Shards, later: Shards, pool: set<Content>)
  {
    && before.fingerprint == checkpoint.state.fingerprint
    && CommitPlan(digest, legacy, Some(before), checkpoint).Ok?
    && var plan := CommitPlan(digest, legacy, Some(before), checkpoint).value;
       && after == Proposed(plan, checkpoint)
       && (forall c | c in plan.writes :: c in pool)
       && Keeps(digest, AddAll(digest, disk, plan.writes), later)
  }

  /**
   * After any run of same-fingerprint commits, loading the first `n` batches of a kind gives exactly the
   * latest segments put at each batch, in batch order, or fails because some batch was never put.
   */
  lemma {:induction false} RunIsLatestWins(digest: Digest, legacy: Legacy, checkpoints: seq<Checkpoint>,
                                           states: seq<RunState>, disks: seq<Shards>, pool: set<Content>,
                                           views: Views, kind: Kind, n: nat)
    requires CollisionFree(digest, pool) && (forall c :: ValidDigest(digest(c))) && n < USIZE_MAX
    requires CommitRun(digest, legacy, checkpoints, states, disks, pool) && states[0].manifest.Some?
    requires ManifestHolds(digest, disks[0], states[0].manifest.value, views)
    ensures states[|checkpoints|].manifest.Some?
    ensures var latest := PutAll(views, AllShards(checkpoints));
            && ManifestHolds(digest, disks[|checkpoints|], states[|checkpoints|].manifest.value, latest)
            && match Latest(latest.Of(kind), n)
               case Some(segments) =>
                 LoadRefs(digest, disks[|checkpoints|], states[|checkpoints|].manifest.value.Refs(kind), 1, n) == Ok(segments)
               case None =>
                 LoadRefs(digest, disks[|checkpoints|], states[|checkpoints|].manifest.value.Refs(kind), 1, n).Err?
    decreases |checkpoints|
  {
    var k := |checkpoints|;
    if k > 0 {
      var last := checkpoints[k - 1];
      RunIsLatestWins(digest, legacy, checkpoints[..k - 1], states[..k], disks[..k], pool, views, kind, n);
      var before := PutAll(views, AllShards(checkpoints[..k - 1]));
      assert CommitAt(digest, legacy, last, states[k - 1], states[k], disks[k - 1], disks[k], pool);
      var plan := CommitPlan(digest, legacy, Some(states[k - 1]), last).value;
      CommitRefines(digest, disks[k - 1], legacy, Some(states[k - 1]), before, last, plan, pool);
      PutAllAppend(views, AllShards(checkpoints[..k - 1]), last.shards);
      HoldsKept(digest, AddAll(digest, disks[k - 1], plan.writes), disks[k], plan.manifest, PutAll(before, last.shards));
    }
    var latest := PutAll(views, AllShards(checkpoints));
    var refs := states[k].manifest.value.Refs(kind);
    assert Represents(digest, disks[k], refs, 0, latest.Of(kind));
    LoadIsLatest(digest, disks[k], refs, n, latest.Of(kind));
  }

  lemma {:induction false} PutAllAppend(views: Views, left: seq<Shard>, right: seq<Shard>)
    ensures PutAll(views, left + right) == PutAll(PutAll(views, left), right)
    decreases |left|
  {
    if left == [] {
      assert left + right == right;
    } else {
      assert (left + right)[1..] == left[1..] + right;
      PutAllAppend(views.Put(left[0]), left[1..], right);
    }
  }

  /** The segments put last for a batch, if any. */
  function LatestFor(shards: seq<Shard>, kind: Kind, batch: nat): Option<seq<Segment>> {
    if shards == [] then None
    else
      var last := shards[|shards| - 1];
      if last.kind == kind && last.batch == batch then Some(last.segments)
      else LatestFor(shards[..|shards| - 1], kind, batch)
  }

  /** The abstract map holds, for each batch, what was put there last, and otherwise what it held before. */
  lemma {:induction false} PutAllIsLatest(views: Views, shards: seq<Shard>, kind: Kind, batch: nat)
    ensures match LatestFor(shards, kind, batch)
            case Some(segments) =>
              batch in PutAll(views, shards).Of(kind) && PutAll(views, shards).Of(kind)[batch] == (batch, segments)
            case None =>
              && (batch in PutAll(views, shards).Of(kind) <==> batch in views.Of(kind))
              && (batch in views.Of(kind) ==> PutAll(views, shards).Of(kind)[batch] == views.Of(kind)[batch])
    decreases |shards|
  {
    if shards != [] {
      var init, last := shards[..|shards| - 1], shards[|shards| - 1];
      assert shards == init + [last];
      PutAllAppend(views, init, [last]);
      assert PutAll(PutAll(views, init), [last]) == PutAll(views, init).Put(last);
      PutAllIsLatest(views, init, kind, batch);
    }
  }
}
