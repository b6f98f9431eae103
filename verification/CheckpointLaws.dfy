/** What checkpoint loading and committing preserve. */
module CheckpointLaws {
  import opened Wrappers
  import opened Machine
  import opened JsonValues
  import opened SegmentCodec
  import opened CheckpointSpec

  // ---- Shards read back what was written ----

  lemma {:induction false} SegmentsRoundTrip(segments: seq<Segment>)
    ensures SegmentsFromJson(SegmentsJson(segments)) == Ok(segments)
  {
    if segments == [] {
      assert SegmentsJson(segments) == [];
    } else {
      SegmentRoundTrip(segments[0]);
      assert SegmentsJson(segments)[0] == SegmentJson(segments[0]);
      assert SegmentsJson(segments)[1..] == SegmentsJson(segments[1..]);
      SegmentsRoundTrip(segments[1..]);
      assert [segments[0]] + segments[1..] == segments;
    }
  }

  lemma ShardRoundTrip(segments: seq<Segment>)
    ensures ParseContent(ShardContent(segments)) == Ok(segments)
  {
    SegmentsRoundTrip(segments);
    LookupFirst([Member("segments", Array(SegmentsJson(segments)))], "segments", 0);
  }

  lemma {:induction false} SegmentsRead(items: seq<Json>)
    ensures SegmentsFromJson(items).Ok? <==> forall i | 0 <= i < |items| :: SegmentFromJson(items[i]).Ok?
    ensures SegmentsFromJson(items).Ok? ==>
              && |SegmentsFromJson(items).value| == |items|
              && forall i | 0 <= i < |items| :: SegmentFromJson(items[i]) == Ok(SegmentsFromJson(items).value[i])
  {
    if items != [] {
      SegmentsRead(items[1..]);
      assert forall i | 0 < i < |items| :: items[i] == items[1..][i - 1];
      if forall i | 0 <= i < |items| :: SegmentFromJson(items[i]).Ok? {
        assert forall i | 0 <= i < |items| - 1 :: SegmentFromJson(items[1..][i]) == SegmentFromJson(items[i + 1]);
      } else if SegmentFromJson(items[0]).Ok? {
        var i :| 0 <= i < |items| && SegmentFromJson(items[i]).Err?;
        assert items[1..][i - 1] == items[i];
      }
    }
  }

  /** A payload is read exactly when it is an object with a list of readable segments, and then as those. */
  lemma ContentReads(content: Content)
    ensures ParseContent(content).Ok? <==>
            && content.Text? && content.value.At("segments").Array?
            && forall i | 0 <= i < |content.value.At("segments").items| ::
                 SegmentFromJson(content.value.At("segments").items[i]).Ok?
    ensures ParseContent(content).Ok? ==>
              var items, segments := content.value.At("segments").items, ParseContent(content).value;
              |segments| == |items| && forall i | 0 <= i < |items| :: SegmentFromJson(items[i]) == Ok(segments[i])
  {
    if content.Text? && content.value.At("segments").Array? {
      SegmentsRead(content.value.At("segments").items);
    }
  }

  // ---- Shard files are immutable ----

  /** A file is intact when its bytes still hash to its name. */
  predicate Intact(digest: Digest, shards: Shards, name: string) {
    name in shards && digest(shards[name]) == name
  }

  /** No two of the payloads in `pool` share a digest. */
  ghost predicate CollisionFree(digest: Digest, pool: set<Content>) {
    forall a, b | a in pool && b in pool && digest(a) == digest(b) :: a == b
  }

  ghost predicate DrawnFrom(digest: Digest, shards: Shards, pool: set<Content>) {
    forall name | Intact(digest, shards, name) :: shards[name] in pool
  }

  /** Every intact file stays, with the same bytes. */
  ghost predicate Keeps(digest: Digest, before: Shards, after: Shards) {
    forall name | Intact(digest, before, name) :: Intact(digest, after, name) && after[name] == before[name]
  }

  lemma WriteKeeps(digest: Digest, shards: Shards, content: Content, pool: set<Content>)
    requires CollisionFree(digest, pool) && DrawnFrom(digest, shards, pool) && content in pool
    ensures Keeps(digest, shards, shards[digest(content) := content])
    ensures DrawnFrom(digest, shards[digest(content) := content], pool)
  {
  }

  lemma {:induction false} AddAllKeeps(digest: Digest, shards: Shards, writes: seq<Content>, pool: set<Content>)
    requires CollisionFree(digest, pool) && DrawnFrom(digest, shards, pool)
    requires forall c | c in writes :: c in pool
    ensures var after := AddAll(digest, shards, writes);
            && Keeps(digest, shards, after)
            && DrawnFrom(digest, after, pool)
            && forall c | c in writes :: Intact(digest, after, digest(c)) && after[digest(c)] == c
    decreases |writes|
  {
    if writes != [] {
      var next := shards[digest(writes[0]) := writes[0]];
      WriteKeeps(digest, shards, writes[0], pool);
      AddAllKeeps(digest, next, writes[1..], pool);
      assert Intact(digest, next, digest(writes[0]));
    }
  }

  lemma {:induction false} AddAllAppend(digest: Digest, shards: Shards, left: seq<Content>, right: seq<Content>)
    ensures AddAll(digest, shards, left + right) == AddAll(digest, AddAll(digest, shards, left), right)
    decreases |left|
  {
    if left == [] {
      assert left + right == right;
    } else {
      assert (left + right)[1..] == left[1..] + right;
      AddAllAppend(digest, shards[digest(left[0]) := left[0]], left[1..], right);
    }
  }

  /** Whatever loaded once keeps loading, with the same segments, however many shards are added. */
  lemma {:induction false} LoadIsStable(digest: Digest, before: Shards, after: Shards,
                                        refs: seq<ShardRef>, next: nat, completed: nat)
    requires Keeps(digest, before, after)
    requires LoadRefs(digest, before, refs, next, completed).Ok?
    ensures LoadRefs(digest, after, refs, next, completed) == LoadRefs(digest, before, refs, next, completed)
  {
    if refs != [] && refs[0].first <= completed {
      assert Intact(digest, before, refs[0].sha256);
      LoadIsStable(digest, before, after, refs[1..], refs[0].last + 1, completed);
    }
  }

  // ---- A manifest is a latest-wins map ----

  /** The abstract value of a reference list: first batch to last batch and segments. */
  type Blocks = map<nat, (nat, seq<Segment>)>

  /** The file a block's reference names is there and holds the block's segments. */
  predicate Holds(digest: Digest, shards: Shards, reference: ShardRef, block: (nat, seq<Segment>)) {
    && reference.last == block.0
    && reference.sha256 == digest(ShardContent(block.1))
    && reference.sha256 in shards && shards[reference.sha256] == ShardContent(block.1)
  }

  ghost predicate Gap(blocks: Blocks, low: nat, high: nat) {
    forall b | b in blocks :: !(low <= b < high)
  }

  /** `refs` lists, in order and without overlap, exactly the blocks that start at `low` or later. */
  ghost predicate Represents(digest: Digest, shards: Shards, refs: seq<ShardRef>, low: nat, blocks: Blocks) {
    if refs == [] then forall b | b in blocks :: b < low
    else
      && low <= refs[0].first <= refs[0].last
      && refs[0].first in blocks && Holds(digest, shards, refs[0], blocks[refs[0].first])
      && Gap(blocks, low, refs[0].first) && Gap(blocks, refs[0].first + 1, refs[0].last + 1)
      && Represents(digest, shards, refs[1..], refs[0].last + 1, blocks)
  }

  /** Concatenate the blocks that tile `next` to `completed`, if they do. */
  function Walk(blocks: Blocks, next: nat, completed: nat): Option<seq<Segment>>
    decreases completed + 1 - next
  {
    if next > completed then Some([])
    else if next !in blocks || !(next <= blocks[next].0 <= completed) then None
    else match Walk(blocks, blocks[next].0 + 1, completed)
      case None => None
      case Some(rest) => Some(blocks[next].1 + rest)
  }

  lemma ReadHeld(digest: Digest, shards: Shards, reference: ShardRef, block: (nat, seq<Segment>))
    requires ValidDigest(reference.sha256) && Holds(digest, shards, reference, block)
    ensures ReadShard(digest, shards, reference) == Ok(block.1)
  {
    ShardRoundTrip(block.1);
  }

  /** Loading through an ordered reference list is exactly walking its blocks. */
  lemma {:induction false} LoadIsWalk(digest: Digest, shards: Shards, refs: seq<ShardRef>, next: nat,
                                      completed: nat, blocks: Blocks)
    requires (forall c :: ValidDigest(digest(c))) && completed < USIZE_MAX && next <= completed + 1
    requires Represents(digest, shards, refs, next, blocks)
    ensures match Walk(blocks, next, completed)
            case Some(segments) => LoadRefs(digest, shards, refs, next, completed) == Ok(segments)
            case None => LoadRefs(digest, shards, refs, next, completed).Err?
  {
    if next <= completed && next in blocks {
      ReadHeld(digest, shards, refs[0], blocks[next]);
      if blocks[next].0 <= completed {
        LoadIsWalk(digest, shards, refs[1..], blocks[next].0 + 1, completed, blocks);
      }
    }
  }

  /** The segments of the first `n` batches, if the blocks tile them; a batch numbered 0 spoils every load. */
  function Latest(blocks: Blocks, n: nat): Option<seq<Segment>> {
    if 0 in blocks then None else Walk(blocks, 1, n)
  }

  lemma LoadIsLatest(digest: Digest, shards: Shards, refs: seq<ShardRef>, n: nat, blocks: Blocks)
    requires (forall c :: ValidDigest(digest(c))) && n < USIZE_MAX && Represents(digest, shards, refs, 0, blocks)
    ensures match Latest(blocks, n)
            case Some(segments) => LoadRefs(digest, shards, refs, 1, n) == Ok(segments)
            case None => LoadRefs(digest, shards, refs, 1, n).Err?
  {
    if 0 !in blocks {
      LoadIsWalk(digest, shards, refs, 1, n, blocks);
    }
  }

  function Concat(blocks: Blocks, first: nat, n: nat): seq<Segment>
    requires forall b: nat | first <= b <= n :: b in blocks
    decreases n + 1 - first
  {
    if first > n then [] else blocks[first].1 + Concat(blocks, first + 1, n)
  }

  /** Without multi-batch blocks, a load needs every batch and is their concatenation in batch order. */
  lemma {:induction false} WalkSingles(blocks: Blocks, first: nat, n: nat)
    requires forall b | b in blocks :: blocks[b].0 == b
    ensures Walk(blocks, first, n).Some? <==> forall b: nat | first <= b <= n :: b in blocks
    ensures (forall b: nat | first <= b <= n :: b in blocks) ==> Walk(blocks, first, n) == Some(Concat(blocks, first, n))
    decreases n + 1 - first
  {
    if first <= n {
      WalkSingles(blocks, first + 1, n);
    }
  }

  /**
   * The one count that cannot be loaded exactly: at `usize::MAX` the expected end saturates, so a load succeeds
   * exactly when the batches before the last one load and no block starts at the last one.
   */
  lemma {:induction false} LoadAtLargestCount(digest: Digest, shards: Shards, refs: seq<ShardRef>, next: nat, blocks: Blocks)
    requires (forall c :: ValidDigest(digest(c))) && next <= USIZE_MAX && Represents(digest, shards, refs, next, blocks)
    requires forall b | b in blocks :: b <= USIZE_MAX && blocks[b].0 <= USIZE_MAX
    ensures match Walk(blocks, next, USIZE_MAX - 1)
            case Some(segments) =>
              if USIZE_MAX in blocks then LoadRefs(digest, shards, refs, next, USIZE_MAX).Err?
              else LoadRefs(digest, shards, refs, next, USIZE_MAX) == Ok(segments)
            case None => LoadRefs(digest, shards, refs, next, USIZE_MAX).Err?
    decreases |refs|
  {
    if next in blocks {
      ReadHeld(digest, shards, refs[0], blocks[next]);
      if blocks[next].0 < USIZE_MAX {
        LoadAtLargestCount(digest, shards, refs[1..], blocks[next].0 + 1, blocks);
      }
    }
  }

  /** One block that stops short of `usize::MAX` batches is accepted for that many. */
  lemma LastBatchNotNeeded(digest: Digest, segments: seq<Segment>)
    requires ValidDigest(digest(ShardContent(segments)))
    ensures var c := ShardContent(segments);
            LoadRefs(digest, map[digest(c) := c], [ShardRef(1, USIZE_MAX - 1, digest(c))], 1, USIZE_MAX) == Ok(segments)
  {
    ShardRoundTrip(segments);
    var c := ShardContent(segments);
    var refs := [ShardRef(1, USIZE_MAX - 1, digest(c))];
    assert refs[1..] == [];
    assert segments + [] == segments;
  }

  // ---- Replacing a batch updates the map at that batch only ----

  lemma {:induction false} RepresentsKept(digest: Digest, before: Shards, after: Shards, refs: seq<ShardRef>,
                                          low: nat, blocks: Blocks)
    requires Represents(digest, before, refs, low, blocks) && Keeps(digest, before, after)
    ensures Represents(digest, after, refs, low, blocks)
  {
    if refs != [] {
      assert Intact(digest, before, refs[0].sha256);
      RepresentsKept(digest, before, after, refs[1..], refs[0].last + 1, blocks);
    }
  }

  /** Only the blocks from `low` on matter. */
  lemma {:induction false} RepresentsAgree(digest: Digest, shards: Shards, refs: seq<ShardRef>, low: nat,
                                           blocks: Blocks, other: Blocks)
    requires Represents(digest, shards, refs, low, blocks)
    requires forall b: nat | b >= low :: (b in other <==> b in blocks) && (b in blocks ==> other[b] == blocks[b])
    ensures Represents(digest, shards, refs, low, other)
  {
    if refs != [] {
      RepresentsAgree(digest, shards, refs[1..], refs[0].last + 1, blocks, other);
    }
  }

  lemma {:induction false} WithoutRepresents(digest: Digest, shards: Shards, refs: seq<ShardRef>, low: nat,
                                             blocks: Blocks, batch: nat)
    requires Represents(digest, shards, refs, low, blocks) && !InsideRange(refs, batch)
    ensures Represents(digest, shards, Without(refs, batch), low, blocks - {batch})
    ensures !Covered(Without(refs, batch), batch)
  {
    if refs != [] {
      var rest := refs[1..];
      assert !InsideRange(rest, batch) by {
        assert forall i | 0 <= i < |rest| :: rest[i] == refs[i + 1];
      }
      WithoutRepresents(digest, shards, rest, refs[0].last + 1, blocks, batch);
    }
  }

  predicate Covered(refs: seq<ShardRef>, batch: nat) {
    refs != [] && (refs[0].first <= batch <= refs[0].last || Covered(refs[1..], batch))
  }

  /** Insertion into an ordered list, the meaning of push-then-sort. */
  function Place(refs: seq<ShardRef>, reference: ShardRef): seq<ShardRef> {
    if refs == [] || reference.first < refs[0].first then [reference] + refs
    else [refs[0]] + Place(refs[1..], reference)
  }

  lemma {:induction false} SortIsPlace(digest: Digest, shards: Shards, refs: seq<ShardRef>, low: nat,
                                       blocks: Blocks, reference: ShardRef)
    requires Represents(digest, shards, refs, low, blocks) && !Covered(refs, reference.first)
    ensures SortByFirst(refs + [reference]) == Place(refs, reference)
  {
    if refs == [] {
      assert refs + [reference] == [reference];
      assert SortByFirst([reference]) == [reference];
    } else {
      var rest := refs[1..];
      assert (refs + [reference])[1..] == rest + [reference];
      SortIsPlace(digest, shards, rest, refs[0].last + 1, blocks, reference);
      if reference.first < refs[0].first {
        assert Place(rest, reference) == [reference] + rest;
        assert ([reference] + rest)[1..] == rest;
        assert InsertFront(refs[0], rest) == refs;
      }
    }
  }

  lemma {:induction false} PlaceRepresents(digest: Digest, shards: Shards, refs: seq<ShardRef>, low: nat,
                                           blocks: Blocks, reference: ShardRef, segments: seq<Segment>)
    requires low <= reference.first && reference.first !in blocks && !Covered(refs, reference.first)
    requires Represents(digest, shards, refs, low, blocks)
    requires Holds(digest, shards, reference, (reference.first, segments))
    ensures Represents(digest, shards, Place(refs, reference), low,
                       blocks[reference.first := (reference.first, segments)])
  {
    var target := blocks[reference.first := (reference.first, segments)];
    if refs == [] || reference.first < refs[0].first {
      assert ([reference] + refs)[1..] == refs;
      assert Represents(digest, shards, refs, reference.first + 1, blocks);
      RepresentsAgree(digest, shards, refs, reference.first + 1, blocks, target);
    } else {
      PlaceRepresents(digest, shards, refs[1..], refs[0].last + 1, blocks, reference, segments);
      assert Place(refs, reference)[1..] == Place(refs[1..], reference);
    }
  }

  /** Publishing a batch replaces that batch's block and leaves every other block alone. */
  lemma ReplaceUpdates(digest: Digest, shards: Shards, refs: seq<ShardRef>, blocks: Blocks, batch: nat,
                       segments: seq<Segment>)
    requires Represents(digest, shards, refs, 0, blocks) && !InsideRange(refs, batch)
    requires var c := ShardContent(segments); digest(c) in shards && shards[digest(c)] == c
    ensures Represents(digest, shards, ReplaceBatch(digest, refs, batch, ShardContent(segments)), 0,
                       blocks[batch := (batch, segments)])
  {
    var reference := ShardRef(batch, batch, digest(ShardContent(segments)));
    var kept := Without(refs, batch);
    WithoutRepresents(digest, shards, refs, 0, blocks, batch);
    SortIsPlace(digest, shards, kept, 0, blocks - {batch}, reference);
    PlaceRepresents(digest, shards, kept, 0, blocks - {batch}, reference, segments);
    assert (blocks - {batch})[batch := (batch, segments)] == blocks[batch := (batch, segments)];
  }
}
