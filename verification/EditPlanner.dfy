/** Cutting a subtitle file into editing requests, each as long as its token budgets allow. */
module EditPlanner {
  import opened EditEstimate
  import opened Machine
  import opened SegmentCodec
  import opened Wrappers

  const MAX_BATCH_ENTRIES := 48
  const RESPONSE_TOKEN_BUDGET := 3_000

  /** Building the messages for the entries `start..end` and estimating their tokens; building can fail. */
  type Estimator = (nat, nat) -> Result<Estimate, string>

  /** A budget of zero means no limit on the request. */
  predicate EditRequestFits(estimate: Estimate, budget: nat) {
    && estimate.response <= RESPONSE_TOKEN_BUDGET
    && (budget == 0 || SaturatingAdd(estimate.request, estimate.response) <= budget)
  }

  /**
   * In the numbers of the request: at most 3000 tokens of reply, and both together within the budget; neither a
   * budget of zero nor one of `usize::MAX` refuses any request, the second because the addition saturates.
   */
  lemma RequestBudget(estimate: Estimate, budget: nat)
    ensures EditRequestFits(estimate, budget)
            <==> estimate.response <= 3_000
                 && (budget == 0 || estimate.request + estimate.response <= budget || budget >= USIZE_MAX)
  {
    var total := estimate.request + estimate.response;
    assert SaturatingAdd(estimate.request, estimate.response) == if total > USIZE_MAX then USIZE_MAX else total;
  }

  /** The request for `start..end` can be built and is within both budgets. */
  predicate Fits(estimator: Estimator, budget: nat, start: nat, end: nat) {
    estimator(start, end).Ok? && EditRequestFits(estimator(start, end).value, budget)
  }

  predicate EntryFits(estimator: Estimator, budget: nat, entry: nat) {
    Fits(estimator, budget, entry, entry + 1)
  }

  datatype PlanError = CannotBuild(error: string) | EntryTooLarge(entry: nat)

  datatype Batch = Batch(start: nat, end: nat)

  function Limit(start: nat, n: nat): nat {
    if n < start + MAX_BATCH_ENTRIES then n else start + MAX_BATCH_ENTRIES
  }

  // ---- What a plan is ----

  /** End to end from `first` up to `last`, every range non-empty, under the entry cap and within budget. */
  predicate Tiles(estimator: Estimator, budget: nat, plan: seq<Batch>, first: nat, last: nat) {
    if plan == [] then first == last
    else
      && plan[0].start == first < plan[0].end <= first + MAX_BATCH_ENTRIES
      && Fits(estimator, budget, first, plan[0].end)
      && Tiles(estimator, budget, plan[1..], plan[0].end, last)
  }

  /** Every shorter range from the same start fits too, and one more entry is over a limit. */
  predicate Greedy(estimator: Estimator, budget: nat, b: Batch, n: nat) {
    && b.start < b.end <= Limit(b.start, n)
    && (forall e: nat | b.start < e <= b.end :: Fits(estimator, budget, b.start, e))
    && (b.end < Limit(b.start, n) ==>
          estimator(b.start, b.end + 1).Ok? && !Fits(estimator, budget, b.start, b.end + 1))
  }

  lemma {:induction false} TilesSnoc(estimator: Estimator, budget: nat, plan: seq<Batch>, first: nat, b: Batch)
    requires Tiles(estimator, budget, plan, first, b.start)
    requires b.start < b.end <= b.start + MAX_BATCH_ENTRIES && Fits(estimator, budget, b.start, b.end)
    ensures Tiles(estimator, budget, plan + [b], first, b.end)
    decreases |plan|
  {
    if plan == [] {
      assert plan + [b] == [b] && [b][1..] == [];
    } else {
      assert (plan + [b])[1..] == plan[1..] + [b];
      TilesSnoc(estimator, budget, plan[1..], plan[0].end, b);
    }
  }

  // ---- Growing one batch ----

  /** Grows one batch from `start`; `start` itself comes back when not even one entry fits. */
  method GrowBatch(estimator: Estimator, budget: nat, start: nat, n: nat) returns (r: Result<nat, string>)
    requires start < n
    ensures r.Err? ==> exists e: nat :: start < e <= Limit(start, n) && estimator(start, e).Err?
    ensures r.Ok? && r.value == start ==> estimator(start, start + 1).Ok? && !Fits(estimator, budget, start, start + 1)
    ensures r.Ok? && r.value != start ==> Greedy(estimator, budget, Batch(start, r.value), n)
  {
    var limit := Limit(start, n);
    var accepted := start;
    for end := start + 1 to limit + 1
      invariant accepted == end - 1
      invariant forall e: nat | start < e <= accepted :: Fits(estimator, budget, start, e)
    {
      var estimate := estimator(start, end);
      if estimate.Err? {
        return Err(estimate.error);
      }
      if !EditRequestFits(estimate.value, budget) {
        break;
      }
      accepted := end;
    }
    r := Ok(accepted);
  }

  // ---- Optimality ----

  /** Messages for the `n` entries can always be built, and every part of a range that fits fits as well. */
  ghost predicate Hereditary(estimator: Estimator, budget: nat, n: nat) {
    && (forall a: nat, b: nat | a < b <= n :: estimator(a, b).Ok?)
    && (forall a: nat, b: nat, c: nat, d: nat | a <= c < d <= b <= n && Fits(estimator, budget, a, b) ::
          Fits(estimator, budget, c, d))
  }

  lemma {:induction false} TilesGrow(estimator: Estimator, budget: nat, plan: seq<Batch>, first: nat, last: nat)
    requires Tiles(estimator, budget, plan, first, last)
    ensures first <= last && (plan != [] ==> first < last)
    decreases |plan|
  {
    if plan != [] {
      TilesGrow(estimator, budget, plan[1..], plan[0].end, last);
    }
  }

  /** A greedy batch that starts no earlier reaches at least as far as any batch that fits. */
  lemma GreedyReaches(estimator: Estimator, budget: nat, g: Batch, b: Batch, n: nat)
    requires Hereditary(estimator, budget, n) && Greedy(estimator, budget, g, n)
    requires b.start <= g.start && b.end <= n && b.end <= b.start + MAX_BATCH_ENTRIES
    requires Fits(estimator, budget, b.start, b.end)
    ensures g.end >= b.end
  {
  }

  /** Greedy plans stay ahead of every other plan for the same entries, so they are never longer. */
  lemma {:induction false} GreedyStaysAhead(estimator: Estimator, budget: nat, greedy: seq<Batch>, g: nat,
                                            other: seq<Batch>, o: nat, n: nat)
    requires Hereditary(estimator, budget, n) && o <= g
    requires Tiles(estimator, budget, greedy, g, n) && Tiles(estimator, budget, other, o, n)
    requires forall b | b in greedy :: Greedy(estimator, budget, b, n)
    ensures |greedy| <= |other|
    decreases |greedy|
  {
    TilesGrow(estimator, budget, greedy, g, n);
    if greedy != [] {
      assert other != [];
      TilesGrow(estimator, budget, other[1..], other[0].end, n);
      assert greedy[0] in greedy;
      GreedyReaches(estimator, budget, greedy[0], other[0], n);
      GreedyStaysAhead(estimator, budget, greedy[1..], greedy[0].end, other[1..], other[0].end, n);
    }
  }

  /** A plan shows that every entry it covers fits on its own. */
  lemma {:induction false} EntriesFit(estimator: Estimator, budget: nat, plan: seq<Batch>, first: nat, last: nat,
                                      n: nat, entry: nat)
    requires Hereditary(estimator, budget, n) && Tiles(estimator, budget, plan, first, last) && last <= n
    requires first <= entry < last
    ensures EntryFits(estimator, budget, entry)
    decreases |plan|
  {
    TilesGrow(estimator, budget, plan[1..], plan[0].end, last);
    if entry >= plan[0].end {
      EntriesFit(estimator, budget, plan[1..], plan[0].end, last, n, entry);
    } else {
      assert first <= entry < entry + 1 <= plan[0].end <= n;
    }
  }

  // ---- The planning loop ----

  /** What the loop yields for any way of estimating: greedy batches end to end, or the entry where it got stuck. */
  method PlanBatches(estimator: Estimator, budget: nat, n: nat) returns (r: Result<seq<Batch>, PlanError>, ghost done: seq<Batch>)
    ensures forall b | b in done :: Greedy(estimator, budget, b, n)
    ensures r.Ok? ==> r.value == done && Tiles(estimator, budget, done, 0, n)
    ensures r.Err? && r.error.EntryTooLarge? ==>
              && r.error.entry < n && !EntryFits(estimator, budget, r.error.entry)
              && Tiles(estimator, budget, done, 0, r.error.entry)
    ensures r.Err? && r.error.CannotBuild? ==>
              exists start: nat, e: nat :: start < e <= n && estimator(start, e).Err?
  {
    var batches: seq<Batch> := [];
    var start: nat := 0;
    while start < n
      invariant start <= n
      invariant Tiles(estimator, budget, batches, 0, start)
      invariant forall b | b in batches :: Greedy(estimator, budget, b, n)
    {
      var accepted := GrowBatch(estimator, budget, start, n);
      if accepted.Err? {
        return Err(CannotBuild(accepted.error)), batches;
      }
      if accepted.value == start {
        assert !EntryFits(estimator, budget, start);
        return Err(EntryTooLarge(start)), batches;
      }
      var batch := Batch(start, accepted.value);
      assert Fits(estimator, budget, start, batch.end);
      TilesSnoc(estimator, budget, batches, 0, batch);
      batches := batches + [batch];
      start := accepted.value;
    }
    r, done := Ok(batches), batches;
  }

  // ---- Editing requests ----

  /** The estimate for a range of the entries, with the source lines beside them if there are any. */
  function RequestEstimator(costing: Costing, target: seq<Segment>, source: Option<seq<Segment>>): Estimator
    requires source.Some? ==> |source.value| == |target|
  {
    (a: nat, b: nat) =>
      if a <= b <= |target| then Ok(costing(target[a..b], Part(source, a, b))) else Err("range end out of bounds")
  }

  lemma SmallerFits(small: Estimate, large: Estimate, budget: nat)
    requires small.request <= large.request && small.response <= large.response && EditRequestFits(large, budget)
    ensures EditRequestFits(small, budget)
  {
  }

  lemma SliceOfSlice<T>(s: seq<T>, a: nat, b: nat, c: nat, d: nat)
    requires a <= c <= d <= b <= |s|
    ensures s[a..b][c - a..d - a] == s[c..d]
  {
    var inner, outer := s[a..b][c - a..d - a], s[c..d];
    assert forall i | 0 <= i < d - c :: inner[i] == s[a..b][c - a + i] == s[c + i] == outer[i];
  }

  lemma PartOfFits(costing: Costing, target: seq<Segment>, source: Option<seq<Segment>>, budget: nat,
                   a: nat, b: nat, c: nat, d: nat)
    requires (source.Some? ==> |source.value| == |target|) && a <= c < d <= b <= |target| && Monotone(costing)
    requires Fits(RequestEstimator(costing, target, source), budget, a, b)
    ensures Fits(RequestEstimator(costing, target, source), budget, c, d)
  {
    assert NoDearer(costing, target[a..b], Part(source, a, b), c - a, d - a);
    SliceOfSlice(target, a, b, c, d);
    if source.Some? {
      SliceOfSlice(source.value, a, b, c, d);
    }
    assert Part(Part(source, a, b), c - a, d - a) == Part(source, c, d);
    SmallerFits(costing(target[c..d], Part(source, c, d)), costing(target[a..b], Part(source, a, b)), budget);
  }

  /** Whatever the entries and the budget: a part of a range that fits fits as well. */
  lemma RequestsAreHereditary(costing: Costing, target: seq<Segment>, source: Option<seq<Segment>>, budget: nat)
    requires (source.Some? ==> |source.value| == |target|) && Monotone(costing)
    ensures Hereditary(RequestEstimator(costing, target, source), budget, |target|)
  {
    var estimator := RequestEstimator(costing, target, source);
    forall a: nat, b: nat, c: nat, d: nat | a <= c < d <= b <= |target| && Fits(estimator, budget, a, b)
      ensures Fits(estimator, budget, c, d)
    {
      PartOfFits(costing, target, source, budget, a, b, c, d);
    }
  }

  /**
   * Planning fails if and only if some single entry does not fit, and then names the first one; otherwise the plan
   * tiles the entries with greedy batches, and no plan for the same entries has fewer.
   */
  method PlanEditBatches(prompt: Prompt, target: seq<Segment>, source: Option<seq<Segment>>, budget: nat)
    returns (r: Result<seq<Batch>, PlanError>)
    requires source.Some? ==> |source.value| == |target|
    ensures var estimator := RequestEstimator(Costs(prompt), target, source);
            && (r.Ok? <==> forall entry: nat | entry < |target| :: EntryFits(estimator, budget, entry))
            && (r.Err? ==>
                  && r.error.EntryTooLarge? && r.error.entry < |target|
                  && !EntryFits(estimator, budget, r.error.entry)
                  && forall entry: nat | entry < r.error.entry :: EntryFits(estimator, budget, entry))
    ensures var estimator := RequestEstimator(Costs(prompt), target, source);
            r.Ok? ==>
              && Tiles(estimator, budget, r.value, 0, |target|)
              && (forall b | b in r.value :: Greedy(estimator, budget, b, |target|))
              && (forall b | b in r.value ::
                    && b.end <= |target| && b.end - b.start <= 48
                    && (b.end < |target| && b.end - b.start < 48 ==> !Fits(estimator, budget, b.start, b.end + 1)))
              && forall other | Tiles(estimator, budget, other, 0, |target|) :: |r.value| <= |other|
  {
    var estimator := RequestEstimator(Costs(prompt), target, source);
    CostsGrow(prompt);
    RequestsAreHereditary(Costs(prompt), target, source, budget);
    ghost var done;
    r, done := PlanBatches(estimator, budget, |target|);
    ghost var last := if r.Ok? then |target| else r.error.entry;
    forall entry: nat | entry < last
      ensures EntryFits(estimator, budget, entry)
    {
      EntriesFit(estimator, budget, done, 0, last, |target|, entry);
    }
    if r.Ok? {
      forall other | Tiles(estimator, budget, other, 0, |target|)
        ensures |r.value| <= |other|
      {
        GreedyStaysAhead(estimator, budget, r.value, 0, other, 0, |target|);
      }
    }
  }
}
