/** Content-addressed checkpoint shards: what the manifest, the shard files and the legacy files mean. */
module CheckpointSpec {
  import opened Wrappers
  import opened Machine
  import opened JsonValues
  import opened SegmentCodec

  const RUN_STATE_VERSION := 6

  datatype Kind = Translated | Reviewed | Finalized

  /** One immutable shard: it holds batches `first` to `last` and is named by its digest. */
  datatype ShardRef = ShardRef(first: nat, last: nat, sha256: string)

  datatype Manifest = Manifest(translated: seq<ShardRef>, reviewed: seq<ShardRef>, finalized: seq<ShardRef>) {
    function Refs(kind: Kind): seq<ShardRef> {
      match kind
      case Translated => translated
      case Reviewed => reviewed
      case Finalized => finalized
    }

    function With(kind: Kind, refs: seq<ShardRef>): Manifest {
      match kind
      case Translated => this.(translated := refs)
      case Reviewed => this.(reviewed := refs)
      case Finalized => this.(finalized := refs)
    }
  }

  const EMPTY_MANIFEST := Manifest([], [], [])

  /** `other` stands for the members of a run state that the store only carries along. */
  datatype RunState = RunState(
    version: nat,
    manifest: Option<Manifest>,
    fingerprint: string,
    translatedCompleted: nat,
    reviewedCompleted: nat,
    validationCompleted: bool,
    translatedSegments: seq<Segment>,
    reviewedSegments: seq<Segment>,
    other: string)

  datatype Shard = Shard(kind: Kind, batch: nat, segments: seq<Segment>)
  datatype Checkpoint = Checkpoint(state: RunState, shards: seq<Shard>)

  /** File bytes, seen through the JSON parser. */
  datatype Content = Text(value: Json) | NotJson(raw: string)

  /** The hexadecimal SHA-256 of a file's bytes. */
  type Digest = Content -> string

  type Shards = map<string, Content>
  type Legacy = map<(Kind, nat), Content>

  datatype Error =
    | InvalidDigest
    | Io
    | ChecksumMismatch
    | Malformed(reason: string)
    | RangeMismatch
    | BatchOverflow
    | MissingBatches
    | PartialReplace

  /** The number of batches a state says it holds, for each kind. */
  function Completed(state: RunState, kind: Kind): nat {
    match kind
    case Translated => state.translatedCompleted
    case Reviewed => state.reviewedCompleted
    case Finalized => if state.version >= 4 && state.validationCompleted then 1 else 0
  }

  predicate IsHexDigit(c: char) {
    '0' <= c <= '9' || 'a' <= c <= 'f' || 'A' <= c <= 'F'
  }

  /** Only 64 hexadecimal digits name a shard file; anything else could leave the directory. */
  predicate ValidDigest(sha256: string) {
    |sha256| == 64 && forall i | 0 <= i < |sha256| :: IsHexDigit(sha256[i])
  }

  // ---- Shard files ----

  function SegmentsJson(segments: seq<Segment>): seq<Json> {
    seq(|segments|, i requires 0 <= i < |segments| => SegmentJson(segments[i]))
  }

  function ShardContent(segments: seq<Segment>): Content {
    Text(Object([Member("segments", Array(SegmentsJson(segments)))]))
  }

  function SegmentsFromJson(items: seq<Json>): Result<seq<Segment>, Error> {
    if items == [] then Ok([])
    else match SegmentFromJson(items[0])
      case Err(reason) => Err(Malformed(reason))
      case Ok(segment) =>
        var rest :- SegmentsFromJson(items[1..]);
        Ok([segment] + rest)
  }

  function ParseContent(content: Content): Result<seq<Segment>, Error> {
    if content.NotJson? then Err(Malformed("not JSON"))
    else if !content.value.At("segments").Array? then Err(Malformed("missing segments"))
    else SegmentsFromJson(content.value.At("segments").items)
  }

  function ReadShard(digest: Digest, shards: Shards, reference: ShardRef): Result<seq<Segment>, Error> {
    if !ValidDigest(reference.sha256) then Err(InvalidDigest)
    else if reference.sha256 !in shards then Err(Io)
    else if digest(shards[reference.sha256]) != reference.sha256 then Err(ChecksumMismatch)
    else ParseContent(shards[reference.sha256])
  }

  // ---- Loading through a manifest ----

  function SaturatingSucc(n: nat): nat {
    if n >= USIZE_MAX then USIZE_MAX else n + 1
  }

  /** Walk the references in order, requiring them to tile `next` to `completed`. */
  function LoadRefs(digest: Digest, shards: Shards, refs: seq<ShardRef>, next: nat, completed: nat)
    : Result<seq<Segment>, Error>
  {
    if refs == [] || refs[0].first > completed then
      if next == SaturatingSucc(completed) then Ok([]) else Err(MissingBatches)
    else if refs[0].first != next || refs[0].last < refs[0].first || refs[0].last > completed then
      Err(RangeMismatch)
    else
      var head :- ReadShard(digest, shards, refs[0]);
      if refs[0].last >= USIZE_MAX then Err(BatchOverflow) else
      var tail :- LoadRefs(digest, shards, refs[1..], refs[0].last + 1, completed);
      Ok(head + tail)
  }

  /** One kind's per-batch files of the layout before manifests. */
  type BatchFiles = nat -> Result<seq<Segment>, Error>

  function FilesOf(legacy: Legacy, kind: Kind): BatchFiles {
    (batch: nat) => if (kind, batch) in legacy then ParseContent(legacy[(kind, batch)]) else Err(Io)
  }

  function LoadFiles(files: BatchFiles, batch: nat, completed: nat): Result<seq<Segment>, Error>
    decreases completed + 1 - batch
  {
    if batch > completed then Ok([])
    else
      var head :- files(batch);
      var tail :- LoadFiles(files, batch + 1, completed);
      Ok(head + tail)
  }

  function LoadCheckpoint(digest: Digest, shards: Shards, legacy: Legacy, state: RunState, kind: Kind, completed: nat)
    : Result<seq<Segment>, Error>
  {
    match state.manifest
    case Some(manifest) => LoadRefs(digest, shards, manifest.Refs(kind), 1, completed)
    case None => LoadFiles(FilesOf(legacy, kind), 1, completed)
  }

  // ---- Planning a commit: the new manifest and the files it needs ----

  datatype Plan = Plan(manifest: Manifest, writes: seq<Content>)

  /** The shard directory after the planned files are written, in order. */
  function AddAll(digest: Digest, shards: Shards, writes: seq<Content>): Shards
    decreases |writes|
  {
    if writes == [] then shards
    else AddAll(digest, shards[digest(writes[0]) := writes[0]], writes[1..])
  }

  function Inline(state: RunState, kind: Kind): seq<Segment> {
    match kind
    case Translated => state.translatedSegments
    case Reviewed => state.reviewedSegments
    case Finalized => []
  }

  /** One immutable shard for each legacy batch file from `batch` on. */
  function ImportFiles(digest: Digest, files: BatchFiles, batch: nat, count: nat)
    : Result<(seq<ShardRef>, seq<Content>), Error>
    decreases count + 1 - batch
  {
    if batch > count then Ok(([], []))
    else
      var segments :- files(batch);
      var content := ShardContent(segments);
      var rest :- ImportFiles(digest, files, batch + 1, count);
      Ok(([ShardRef(batch, batch, digest(content))] + rest.0, [content] + rest.1))
  }

  function ImportKind(digest: Digest, legacy: Legacy, state: RunState, kind: Kind)
    : Result<(seq<ShardRef>, seq<Content>), Error>
  {
    var count := Completed(state, kind);
    if count > 0 && Inline(state, kind) != [] then
      var content := ShardContent(Inline(state, kind));
      Ok(([ShardRef(1, count, digest(content))], [content]))
    else
      ImportFiles(digest, FilesOf(legacy, kind), 1, count)
  }

  function ImportPlan(digest: Digest, legacy: Legacy, state: RunState): Result<Plan, Error> {
    match state.manifest
    case Some(manifest) => Ok(Plan(manifest, []))
    case None =>
      var t :- ImportKind(digest, legacy, state, Translated);
      var r :- ImportKind(digest, legacy, state, Reviewed);
      var f :- ImportKind(digest, legacy, state, Finalized);
      Ok(Plan(Manifest(t.0, r.0, f.0), t.1 + r.1 + f.1))
  }

  predicate InsideRange(refs: seq<ShardRef>, batch: nat) {
    exists i | 0 <= i < |refs| :: refs[i].first != refs[i].last && refs[i].first <= batch <= refs[i].last
  }

  function Without(refs: seq<ShardRef>, first: nat): seq<ShardRef> {
    if refs == [] then []
    else if refs[0].first == first then Without(refs[1..], first)
    else [refs[0]] + Without(refs[1..], first)
  }

  /** A stable sort by first batch. */
  function SortByFirst(refs: seq<ShardRef>): seq<ShardRef> {
    if refs == [] then []
    else InsertFront(refs[0], SortByFirst(refs[1..]))
  }

  function InsertFront(reference: ShardRef, sorted: seq<ShardRef>): seq<ShardRef> {
    if sorted == [] || reference.first <= sorted[0].first then [reference] + sorted
    else [sorted[0]] + InsertFront(reference, sorted[1..])
  }

  function ReplaceBatch(digest: Digest, refs: seq<ShardRef>, batch: nat, content: Content): seq<ShardRef> {
    SortByFirst(Without(refs, batch) + [ShardRef(batch, batch, digest(content))])
  }

  function ShardsPlan(digest: Digest, manifest: Manifest, shards: seq<Shard>): Result<Plan, Error>
    decreases |shards|
  {
    if shards == [] then Ok(Plan(manifest, []))
    else
      var shard := shards[0];
      var refs := manifest.Refs(shard.kind);
      if InsideRange(refs, shard.batch) then Err(PartialReplace) else
      var content := ShardContent(shard.segments);
      var rest :- ShardsPlan(digest, manifest.With(shard.kind, ReplaceBatch(digest, refs, shard.batch, content)), shards[1..]);
      Ok(Plan(rest.manifest, [content] + rest.writes))
  }

  /** A store builds on its remembered state only when the fingerprints agree. */
  function BasePlan(digest: Digest, legacy: Legacy, current: Option<RunState>, next: RunState): Result<Plan, Error> {
    match current
    case Some(prior) => if prior.fingerprint == next.fingerprint then ImportPlan(digest, legacy, prior)
                        else Ok(Plan(EMPTY_MANIFEST, []))
    case None => Ok(Plan(EMPTY_MANIFEST, []))
  }

  function CommitPlan(digest: Digest, legacy: Legacy, current: Option<RunState>, checkpoint: Checkpoint): Result<Plan, Error> {
    var base :- BasePlan(digest, legacy, current, checkpoint.state);
    var plan :- ShardsPlan(digest, base.manifest, checkpoint.shards);
    Ok(Plan(plan.manifest, base.writes + plan.writes))
  }

  /** The state a successful commit publishes. */
  function Proposed(plan: Plan, checkpoint: Checkpoint): RunState {
    checkpoint.state.(version := RUN_STATE_VERSION, manifest := Some(plan.manifest))
  }

  /** Every kind loads for the number of batches the state claims. */
  predicate Validated(digest: Digest, shards: Shards, state: RunState) {
    state.manifest.Some? &&
    forall kind: Kind ::
      LoadRefs(digest, shards, state.manifest.value.Refs(kind), 1, Completed(state, kind)).Ok?
  }

  /** The state's own counts, each with its own list: what a reader of the published file will ask for. */
  predicate ClaimsHold(digest: Digest, shards: Shards, manifest: Manifest, translated: nat, reviewed: nat, validated: bool) {
    && LoadRefs(digest, shards, manifest.translated, 1, translated).Ok?
    && LoadRefs(digest, shards, manifest.reviewed, 1, reviewed).Ok?
    && LoadRefs(digest, shards, manifest.finalized, 1, if validated then 1 else 0).Ok?
  }

  lemma ValidatedMeans(digest: Digest, shards: Shards, state: RunState)
    ensures Validated(digest, shards, state) <==>
            && state.manifest.Some?
            && ClaimsHold(digest, shards, state.manifest.value, state.translatedCompleted, state.reviewedCompleted,
                          state.version >= 4 && state.validationCompleted)
  {
    if state.manifest.Some? {
      var m := state.manifest.value;
      var validated := state.version >= 4 && state.validationCompleted;
      if Validated(digest, shards, state) {
        assert LoadRefs(digest, shards, m.Refs(Translated), 1, Completed(state, Translated)).Ok?;
        assert LoadRefs(digest, shards, m.Refs(Reviewed), 1, Completed(state, Reviewed)).Ok?;
        assert LoadRefs(digest, shards, m.Refs(Finalized), 1, Completed(state, Finalized)).Ok?;
      }
    }
  }

  /** A digest that names a file is 64 hexadecimal characters, so it names nothing outside the shard directory. */
  lemma DigestNames(sha256: string)
    ensures ValidDigest(sha256) <==> |sha256| == 64 && forall c | c in sha256 :: c in "0123456789abcdefABCDEF"
    ensures ValidDigest(sha256) ==> '/' !in sha256 && '\\' !in sha256 && '.' !in sha256
  {
    forall c: char
      ensures IsHexDigit(c) <==> c in "0123456789abcdefABCDEF"
    {
      HexDigitNames(c);
    }
  }

  lemma HexDigitNames(c: char)
    ensures IsHexDigit(c) <==> c in "0123456789abcdefABCDEF"
  {
    var digits := "0123456789abcdefABCDEF";
    if IsHexDigit(c) {
      var i := if c <= '9' then c as int - '0' as int else if c <= 'F' then c as int - 'A' as int + 16
               else c as int - 'a' as int + 10;
      assert digits[i] == c;
    }
  }
}
