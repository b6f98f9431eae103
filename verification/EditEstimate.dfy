/** What an editing request costs: the messages for a range of entries and the estimate of their tokens. */
module EditEstimate {
  import opened JsonText
  import opened JsonValues
  import opened Machine
  import opened SegmentCodec
  import opened Wrappers

  datatype Estimate = Estimate(request: nat, response: nat)

  /** What is the same in every request: the wording around the payload, the language and the instruction. */
  datatype Prompt = Prompt(system: string, before: string, after: string, language: string, instruction: string)

  // ---- The messages ----

  function Decimal(n: nat): string {
    if n < 10 then [HexDigit(n)] else Decimal(n / 10) + [HexDigit(n % 10)]
  }

  function Text(text: string): Syntax {
    Quoted(PiecesOf(text))
  }

  function Line(segment: Segment, key: string): Syntax {
    Braces("", [TightEntry("id", Text(segment.id)), TightEntry(key, Text(segment.text))])
  }

  function Ids(segments: seq<Segment>): seq<Item> {
    seq(|segments|, i requires 0 <= i < |segments| => Tight(Text(segments[i].id)))
  }

  function Lines(segments: seq<Segment>, key: string): seq<Item> {
    seq(|segments|, i requires 0 <= i < |segments| => Tight(Line(segments[i], key)))
  }

  /** The members' names, in the order in which the serialiser sorts them. */
  function Keys(withSource: bool): seq<string> {
    FirstKeys() + (if withSource then ["source_lines"] else []) + ["target_language"]
  }

  function FirstKeys(): seq<string> {
    ["expected_count"] + ["expected_ids"] + ["instruction"] + ["lines"]
  }

  function Values(prompt: Prompt, target: seq<Segment>, source: Option<seq<Segment>>): seq<Syntax> {
    FirstValues(prompt, target) + SourceValue(source) + [Text(prompt.language)]
  }

  function FirstValues(prompt: Prompt, target: seq<Segment>): seq<Syntax> {
    [Digits(Decimal(|target|))] + [Brackets("", Ids(target))] + [Text(prompt.instruction)]
    + [Brackets("", Lines(target, "translation"))]
  }

  function SourceValue(source: Option<seq<Segment>>): seq<Syntax> {
    if source.Some? then [Brackets("", Lines(source.value, "text"))] else []
  }

  function Fields(keys: seq<string>, values: seq<Syntax>): seq<Entry>
    requires |keys| == |values|
  {
    seq(|keys|, i requires 0 <= i < |keys| => TightEntry(keys[i], values[i]))
  }

  function Payload(prompt: Prompt, target: seq<Segment>, source: Option<seq<Segment>>): string {
    Render(Braces("", Fields(Keys(source.Some?), Values(prompt, target, source))))
  }

  function UserMessage(prompt: Prompt, target: seq<Segment>, source: Option<seq<Segment>>): string {
    prompt.before + Payload(prompt, target, source) + prompt.after
  }

  // ---- The estimate ----

  function Ascii(text: string): (n: nat)
    ensures n <= |text|
  {
    if text == "" then 0 else (if text[0] as int < 128 then 1 else 0) + Ascii(text[1..])
  }

  function Other(text: string): nat {
    |text| - Ascii(text)
  }

  /** Four ASCII characters to a token, one of any other. */
  function Tokens(text: string): nat {
    SaturatingAdd((Ascii(text) + 3) / 4, Other(text))
  }

  /** A reply may be half as long again as the entry, and each line has its overhead. */
  function LineTokens(): Segment -> nat {
    (segment: Segment) => SaturatingAdd((Saturated(Tokens(segment.text) * 3) + 1) / 2, 12)
  }

  function Sum(cost: Segment -> nat, segments: seq<Segment>): nat {
    if segments == [] then 0 else Sum(cost, segments[..|segments| - 1]) + cost(segments[|segments| - 1])
  }

  function RequestTokens(system: string, user: string): nat {
    SaturatingAdd(Tokens(system), 6) + SaturatingAdd(Tokens(user), 6)
  }

  function EstimateTokens(prompt: Prompt, target: seq<Segment>, source: Option<seq<Segment>>): Estimate {
    Estimate(RequestTokens(prompt.system, UserMessage(prompt, target, source)),
             SaturatingAdd(Sum(LineTokens(), target), 64))
  }

  // ---- Longer texts cost no less ----

  predicate Within(small: string, large: string) {
    Ascii(small) <= Ascii(large) && Other(small) <= Other(large)
  }

  lemma {:induction false} AsciiConcat(a: string, b: string)
    ensures Ascii(a + b) == Ascii(a) + Ascii(b)
    decreases |a|
  {
    if a == "" {
      assert a + b == b;
    } else {
      assert (a + b)[1..] == a[1..] + b;
      AsciiConcat(a[1..], b);
    }
  }

  lemma WithinConcat(a: string, b: string, c: string, d: string)
    requires Within(a, b) && Within(c, d)
    ensures Within(a + c, b + d)
  {
    AsciiConcat(a, c);
    AsciiConcat(b, d);
  }

  lemma WithinAround(before: string, small: string, large: string, after: string)
    requires Within(small, large)
    ensures Within(before + small + after, before + large + after)
  {
    WithinConcat(before, before, small, large);
    WithinConcat(before + small, before + large, after, after);
  }

  /** What comes before or after a text only adds to its cost. */
  lemma WithinLonger(a: string, b: string)
    ensures Within(a, a + b) && Within(b, a + b)
  {
    AsciiConcat(a, b);
  }

  lemma TokensGrow(small: string, large: string)
    requires Within(small, large)
    ensures Tokens(small) <= Tokens(large)
  {
  }

  lemma {:induction false} DecimalGrows(m: nat, n: nat)
    requires m <= n
    ensures |Decimal(m)| <= |Decimal(n)| && Ascii(Decimal(m)) == |Decimal(m)|
    decreases n
  {
    if n >= 10 {
      DecimalGrows(m / 10, n / 10);
    }
    if m >= 10 {
      DecimalGrows(m / 10, m / 10);
      AsciiConcat(Decimal(m / 10), [HexDigit(m % 10)]);
    }
  }

  // ---- A part of a list renders to no more than the list ----

  lemma {:induction false} ItemsSnoc(items: seq<Item>, item: Item)
    requires items != []
    ensures RenderItems(items + [item]) == RenderItems(items) + "," + RenderItem(item)
    decreases |items|
  {
    var all := items + [item];
    assert all[1..] == items[1..] + [item];
    if |items| > 1 {
      ItemsSnoc(items[1..], item);
    } else {
      assert items[1..] + [item] == [item];
    }
  }

  lemma {:induction false} PartOfItems(items: seq<Item>, lo: nat, hi: nat)
    requires lo <= hi <= |items|
    ensures Within(RenderItems(items[lo..hi]), RenderItems(items))
    decreases |items|
  {
    if lo > 0 {
      PartOfItems(items[1..], lo - 1, hi - 1);
      assert items[1..][lo - 1..hi - 1] == items[lo..hi];
      WithoutFirst(items);
    } else if hi < |items| {
      var init := items[..|items| - 1];
      PartOfItems(init, lo, hi);
      assert init[lo..hi] == items[lo..hi];
      WithoutLast(items);
    } else {
      assert items[lo..hi] == items;
    }
  }

  lemma WithoutFirst(items: seq<Item>)
    requires items != []
    ensures Within(RenderItems(items[1..]), RenderItems(items))
  {
    if |items| > 1 {
      WithinLonger(RenderItem(items[0]) + ",", RenderItems(items[1..]));
    }
  }

  lemma WithoutLast(items: seq<Item>)
    requires items != []
    ensures Within(RenderItems(items[..|items| - 1]), RenderItems(items))
  {
    var init, last := items[..|items| - 1], items[|items| - 1];
    assert items == init + [last];
    if init != [] {
      ItemsSnoc(init, last);
      WithinLonger(RenderItems(init), ",");
      WithinLonger(RenderItems(init) + ",", RenderItem(last));
    }
  }

  /** The same key with a value that renders to no more. */
  lemma EntryWithin(key: string, small: Syntax, large: Syntax)
    requires Within(Render(small), Render(large))
    ensures Within(RenderEntry(TightEntry(key, small)), RenderEntry(TightEntry(key, large)))
  {
    var prefix := "" + RenderQuoted(PiecesOf(key)) + "" + ":";
    WithinAround("", Render(small), Render(large), "");
    WithinConcat(prefix, prefix, RenderItem(Tight(small)), RenderItem(Tight(large)));
  }

  lemma {:induction false} EntriesWithin(small: seq<Entry>, large: seq<Entry>)
    requires |small| == |large| && forall i | 0 <= i < |small| :: Within(RenderEntry(small[i]), RenderEntry(large[i]))
    ensures Within(RenderEntries(small), RenderEntries(large))
    decreases |small|
  {
    if |small| > 1 {
      EntriesWithin(small[1..], large[1..]);
      WithinConcat(RenderEntry(small[0]), RenderEntry(large[0]), ",", ",");
      WithinConcat(RenderEntry(small[0]) + ",", RenderEntry(large[0]) + ",",
                   RenderEntries(small[1..]), RenderEntries(large[1..]));
    }
  }

  lemma BracketsWithin(items: seq<Item>, lo: nat, hi: nat)
    requires lo <= hi <= |items|
    ensures Within(Render(Brackets("", items[lo..hi])), Render(Brackets("", items)))
  {
    PartOfItems(items, lo, hi);
    WithinAround("[", RenderItems(items[lo..hi]), RenderItems(items), "]");
  }

  predicate AllWithin(small: seq<Syntax>, large: seq<Syntax>) {
    |small| == |large| && forall i | 0 <= i < |small| :: Within(Render(small[i]), Render(large[i]))
  }

  lemma AllWithinSnoc(small: seq<Syntax>, large: seq<Syntax>, a: Syntax, b: Syntax)
    requires AllWithin(small, large) && Within(Render(a), Render(b))
    ensures AllWithin(small + [a], large + [b])
  {
  }

  lemma FieldsWithin(keys: seq<string>, small: seq<Syntax>, large: seq<Syntax>)
    requires |keys| == |small| && AllWithin(small, large)
    ensures Within(Render(Braces("", Fields(keys, small))), Render(Braces("", Fields(keys, large))))
  {
    var a, b := Fields(keys, small), Fields(keys, large);
    forall i | 0 <= i < |keys|
      ensures Within(RenderEntry(a[i]), RenderEntry(b[i]))
    {
      EntryWithin(keys[i], small[i], large[i]);
    }
    EntriesWithin(a, b);
    WithinAround("{", RenderEntries(a), RenderEntries(b), "}");
  }

  function Part(source: Option<seq<Segment>>, lo: nat, hi: nat): Option<seq<Segment>>
    requires lo <= hi && (source.Some? ==> hi <= |source.value|)
  {
    if source.Some? then Some(source.value[lo..hi]) else None
  }

  lemma IdsWithin(segments: seq<Segment>, lo: nat, hi: nat)
    requires lo <= hi <= |segments|
    ensures Within(Render(Brackets("", Ids(segments[lo..hi]))), Render(Brackets("", Ids(segments))))
  {
    assert Ids(segments[lo..hi]) == Ids(segments)[lo..hi];
    BracketsWithin(Ids(segments), lo, hi);
  }

  lemma LinesWithin(segments: seq<Segment>, key: string, lo: nat, hi: nat)
    requires lo <= hi <= |segments|
    ensures Within(Render(Brackets("", Lines(segments[lo..hi], key))), Render(Brackets("", Lines(segments, key))))
  {
    assert Lines(segments[lo..hi], key) == Lines(segments, key)[lo..hi];
    BracketsWithin(Lines(segments, key), lo, hi);
  }

  lemma CountWithin(m: nat, n: nat)
    requires m <= n
    ensures Within(Render(Digits(Decimal(m))), Render(Digits(Decimal(n))))
  {
    DecimalGrows(m, n);
    DecimalGrows(n, n);
  }

  lemma ValuesWithin(prompt: Prompt, target: seq<Segment>, source: Option<seq<Segment>>, lo: nat, hi: nat)
    requires lo <= hi <= |target| && (source.Some? ==> |source.value| == |target|)
    ensures AllWithin(Values(prompt, target[lo..hi], Part(source, lo, hi)), Values(prompt, target, source))
  {
    var n, m := Digits(Decimal(hi - lo)), Digits(Decimal(|target|));
    var ids, allIds := Brackets("", Ids(target[lo..hi])), Brackets("", Ids(target));
    var lines, allLines := Brackets("", Lines(target[lo..hi], "translation")), Brackets("", Lines(target, "translation"));
    CountWithin(hi - lo, |target|);
    IdsWithin(target, lo, hi);
    LinesWithin(target, "translation", lo, hi);
    AllWithinSnoc([], [], n, m);
    assert [] + [n] == [n] && [] + [m] == [m];
    AllWithinSnoc([n], [m], ids, allIds);
    var i, l := Text(prompt.instruction), Text(prompt.language);
    AllWithinSnoc([n] + [ids], [m] + [allIds], i, i);
    AllWithinSnoc([n] + [ids] + [i], [m] + [allIds] + [i], lines, allLines);
    LastValuesWithin([n] + [ids] + [i] + [lines], [m] + [allIds] + [i] + [allLines], source, lo, hi, l);
  }

  lemma LastValuesWithin(small: seq<Syntax>, large: seq<Syntax>, source: Option<seq<Segment>>, lo: nat, hi: nat,
                         language: Syntax)
    requires AllWithin(small, large) && lo <= hi && (source.Some? ==> hi <= |source.value|)
    ensures AllWithin(small + SourceValue(Part(source, lo, hi)) + [language], large + SourceValue(source) + [language])
  {
    if source.Some? {
      LinesWithin(source.value, "text", lo, hi);
      AllWithinSnoc(small, large, Brackets("", Lines(source.value[lo..hi], "text")), Brackets("", Lines(source.value, "text")));
    } else {
      assert small + [] == small && large + [] == large;
    }
    AllWithinSnoc(small + SourceValue(Part(source, lo, hi)), large + SourceValue(source), language, language);
  }

  lemma MessageGrows(prompt: Prompt, target: seq<Segment>, source: Option<seq<Segment>>, lo: nat, hi: nat)
    requires lo <= hi <= |target| && (source.Some? ==> |source.value| == |target|)
    ensures Within(UserMessage(prompt, target[lo..hi], Part(source, lo, hi)), UserMessage(prompt, target, source))
  {
    var small, large := Values(prompt, target[lo..hi], Part(source, lo, hi)), Values(prompt, target, source);
    ValuesWithin(prompt, target, source, lo, hi);
    FieldsWithin(Keys(source.Some?), small, large);
    WithinAround(prompt.before, Payload(prompt, target[lo..hi], Part(source, lo, hi)),
                 Payload(prompt, target, source), prompt.after);
  }

  lemma {:induction false} SumGrows(cost: Segment -> nat, segments: seq<Segment>, lo: nat, hi: nat)
    requires lo <= hi <= |segments|
    ensures Sum(cost, segments[lo..hi]) <= Sum(cost, segments)
    decreases |segments|
  {
    if segments != [] {
      var init := segments[..|segments| - 1];
      if hi < |segments| {
        SumGrows(cost, init, lo, hi);
        assert init[lo..hi] == segments[lo..hi];
      } else if lo < hi {
        SumGrows(cost, init, lo, hi - 1);
        assert segments[lo..hi][..hi - lo - 1] == segments[lo..hi - 1] == init[lo..hi - 1];
        assert segments[lo..hi][hi - lo - 1] == segments[hi - 1];
      }
    }
  }

  lemma RequestGrows(system: string, small: string, large: string)
    requires Within(small, large)
    ensures RequestTokens(system, small) <= RequestTokens(system, large)
  {
    TokensGrow(small, large);
  }

  /** A part of a range is estimated to cost no more than the range, in the request and in the reply. */
  lemma EstimateGrows(prompt: Prompt, target: seq<Segment>, source: Option<seq<Segment>>, lo: nat, hi: nat)
    requires lo <= hi <= |target| && (source.Some? ==> |source.value| == |target|)
    ensures EstimateTokens(prompt, target[lo..hi], Part(source, lo, hi)).request
            <= EstimateTokens(prompt, target, source).request
    ensures EstimateTokens(prompt, target[lo..hi], Part(source, lo, hi)).response
            <= EstimateTokens(prompt, target, source).response
  {
    MessageGrows(prompt, target, source, lo, hi);
    RequestGrows(prompt.system, UserMessage(prompt, target[lo..hi], Part(source, lo, hi)),
                 UserMessage(prompt, target, source));
    SumGrows(LineTokens(), target, lo, hi);
  }

  /** Estimating a list of entries, with their source lines if there are any. */
  type Costing = (seq<Segment>, Option<seq<Segment>>) -> Estimate

  function Costs(prompt: Prompt): Costing {
    (target: seq<Segment>, source: Option<seq<Segment>>) => EstimateTokens(prompt, target, source)
  }

  predicate NoDearer(costing: Costing, target: seq<Segment>, source: Option<seq<Segment>>, lo: nat, hi: nat)
    requires lo <= hi <= |target| && (source.Some? ==> |source.value| == |target|)
  {
    var part, whole := costing(target[lo..hi], Part(source, lo, hi)), costing(target, source);
    part.request <= whole.request && part.response <= whole.response
  }

  ghost predicate Monotone(costing: Costing) {
    forall target: seq<Segment>, source: Option<seq<Segment>>, lo: nat, hi: nat
      | lo <= hi <= |target| && (source.Some? ==> |source.value| == |target|) :: NoDearer(costing, target, source, lo, hi)
  }

  lemma CostsGrow(prompt: Prompt)
    ensures Monotone(Costs(prompt))
  {
    forall target: seq<Segment>, source: Option<seq<Segment>>, lo: nat, hi: nat
      | lo <= hi <= |target| && (source.Some? ==> |source.value| == |target|)
      ensures NoDearer(Costs(prompt), target, source, lo, hi)
    {
      EstimateGrows(prompt, target, source, lo, hi);
    }
  }

  // ---- What the payload says ----

  function Strs(segments: seq<Segment>): seq<Json> {
    seq(|segments|, i requires 0 <= i < |segments| => Str(segments[i].id))
  }

  function Records(segments: seq<Segment>, key: string): seq<Json> {
    seq(|segments|, i requires 0 <= i < |segments| =>
      Object([Member("id", Str(segments[i].id)), Member(key, Str(segments[i].text))]))
  }

  /** The request as a value: the count, the identifiers, the instruction, the lines, their sources and the language. */
  function Request(prompt: Prompt, target: seq<Segment>, source: Option<seq<Segment>>): Json {
    Object(FirstMembers(prompt, target)
           + (if source.Some? then [Member("source_lines", Array(Records(source.value, "text")))] else [])
           + [Member("target_language", Str(prompt.language))])
  }

  function FirstMembers(prompt: Prompt, target: seq<Segment>): seq<Member> {
    [Member("expected_count", Number(Decimal(|target|)))] + [Member("expected_ids", Array(Strs(target)))]
    + [Member("instruction", Str(prompt.instruction))] + [Member("lines", Array(Records(target, "translation")))]
  }

  function DecimalValue(text: string): nat
    requires forall i | 0 <= i < |text| :: '0' <= text[i] <= '9'
  {
    if text == "" then 0
    else DecimalValue(text[..|text| - 1]) * 10 + (text[|text| - 1] as int - '0' as int)
  }

  lemma DigitIsDigit(n: nat)
    requires n < 10
    ensures '0' <= HexDigit(n) <= '9' && HexDigit(n) as int - '0' as int == n
  {
  }

  /** Decimal texts are digits without superfluous zeros, and stand for their number. */
  lemma {:induction false} DecimalMeans(n: nat)
    ensures var t := Decimal(n);
            && t != "" && (forall i | 0 <= i < |t| :: '0' <= t[i] <= '9')
            && DecimalValue(t) == n && (n > 0 ==> t[0] != '0')
  {
    DigitIsDigit(n % 10);
    if n >= 10 {
      DecimalMeans(n / 10);
      var init := Decimal(n / 10);
      assert Decimal(n) == init + [HexDigit(n % 10)];
      assert Decimal(n)[..|init|] == init;
    } else {
      assert Decimal(n)[..0] == "";
    }
  }

  lemma {:induction false} DigitRunOfDigits(t: string)
    requires forall i | 0 <= i < |t| :: '0' <= t[i] <= '9'
    ensures DigitRun(t) == |t|
  {
    if t != "" {
      DigitRunOfDigits(t[1..]);
    }
  }

  lemma DecimalIsNumber(n: nat)
    ensures IsNumber(Decimal(n))
  {
    DecimalMeans(n);
    var t := Decimal(n);
    DigitRunOfDigits(t);
    assert t[|t|..] == "" && IsFraction("");
    if |t| > 1 {
      assert n > 0;
    }
  }

  lemma CompactText(text: string)
    ensures Compact(Str(text)) == Text(text)
  {
  }

  lemma CompactIds(segments: seq<Segment>)
    ensures Compact(Array(Strs(segments))) == Brackets("", Ids(segments))
  {
    assert TightItems(Strs(segments)) == Ids(segments);
    assert Compact(Array(Strs(segments))) == Brackets("", TightItems(Strs(segments)));
  }

  lemma CompactRecord(segment: Segment, key: string)
    ensures Compact(Object([Member("id", Str(segment.id)), Member(key, Str(segment.text))])) == Line(segment, key)
  {
    var fields := [Member("id", Str(segment.id)), Member(key, Str(segment.text))];
    assert TightEntries(fields) == [TightEntry("id", Text(segment.id)), TightEntry(key, Text(segment.text))];
    assert Compact(Object(fields)) == Braces("", TightEntries(fields));
  }

  lemma CompactRecords(segments: seq<Segment>, key: string)
    ensures Compact(Array(Records(segments, key))) == Brackets("", Lines(segments, key))
  {
    forall i | 0 <= i < |segments|
      ensures Compact(Records(segments, key)[i]) == Line(segments[i], key)
    {
      CompactRecord(segments[i], key);
    }
    assert TightItems(Records(segments, key)) == Lines(segments, key);
    assert Compact(Array(Records(segments, key))) == Brackets("", TightItems(Records(segments, key)));
  }

  lemma TightEntriesSnoc(fields: seq<Member>, field: Member)
    ensures TightEntries(fields + [field]) == TightEntries(fields) + [TightEntry(field.key, Compact(field.value))]
  {
  }

  lemma FieldsSnoc(keys: seq<string>, values: seq<Syntax>, key: string, value: Syntax)
    requires |keys| == |values|
    ensures Fields(keys + [key], values + [value]) == Fields(keys, values) + [TightEntry(key, value)]
  {
  }

  /** A member at a time: if the fields so far agree, so do the fields with one more. */
  lemma OneMore(members: seq<Member>, keys: seq<string>, values: seq<Syntax>, key: string, value: Json)
    requires |keys| == |values| && TightEntries(members) == Fields(keys, values)
    ensures TightEntries(members + [Member(key, value)]) == Fields(keys + [key], values + [Compact(value)])
  {
    TightEntriesSnoc(members, Member(key, value));
    FieldsSnoc(keys, values, key, Compact(value));
  }

  /** The same for two. */
  lemma TwoMore(members: seq<Member>, keys: seq<string>, values: seq<Syntax>, first: Member, second: Member)
    requires |keys| == |values| && TightEntries(members) == Fields(keys, values)
    ensures TightEntries(members + [first] + [second])
            == Fields(keys + [first.key] + [second.key], values + [Compact(first.value)] + [Compact(second.value)])
  {
    OneMore(members, keys, values, first.key, first.value);
    OneMore(members + [first], keys + [first.key], values + [Compact(first.value)], second.key, second.value);
  }

  lemma NoneAtFirst()
    ensures TightEntries([]) == Fields([], [])
  {
  }

  lemma FourFields(a: Member, b: Member, c: Member, d: Member)
    ensures TightEntries([a] + [b] + [c] + [d])
            == Fields([a.key] + [b.key] + [c.key] + [d.key],
                      [Compact(a.value)] + [Compact(b.value)] + [Compact(c.value)] + [Compact(d.value)])
  {
    NoneAtFirst();
    TwoMore([], [], [], a, b);
    assert [] + [a] == [a] && [] + [a.key] == [a.key] && [] + [Compact(a.value)] == [Compact(a.value)];
    TwoMore([a] + [b], [a.key] + [b.key], [Compact(a.value)] + [Compact(b.value)], c, d);
  }

  lemma FirstFieldsMean(prompt: Prompt, target: seq<Segment>)
    ensures TightEntries(FirstMembers(prompt, target)) == Fields(FirstKeys(), FirstValues(prompt, target))
  {
    CompactIds(target);
    CompactText(prompt.instruction);
    CompactRecords(target, "translation");
    FourFields(Member("expected_count", Number(Decimal(|target|))), Member("expected_ids", Array(Strs(target))),
               Member("instruction", Str(prompt.instruction)), Member("lines", Array(Records(target, "translation"))));
  }

  /**
   * The payload is a JSON text that obeys the grammar and means the request: whatever characters the entries, the
   * instruction and the language contain, reading it back gives exactly them.
   */
  lemma PayloadMeans(prompt: Prompt, target: seq<Segment>, source: Option<seq<Segment>>)
    ensures var j := Request(prompt, target, source);
            && Payload(prompt, target, source) == Render(Compact(j))
            && Grammatical(Compact(j)) && Meaning(Compact(j)) == Some(j)
  {
    FirstFieldsMean(prompt, target);
    var m, k, v := FirstMembers(prompt, target), FirstKeys(), FirstValues(prompt, target);
    CompactText(prompt.language);
    if source.Some? {
      CompactRecords(source.value, "text");
      OneMore(m, k, v, "source_lines", Array(Records(source.value, "text")));
      m, k, v := m + [Member("source_lines", Array(Records(source.value, "text")))], k + ["source_lines"],
                 v + [Brackets("", Lines(source.value, "text"))];
    } else {
      assert m + [] == m && k + [] == k && v + [] == v;
    }
    OneMore(m, k, v, "target_language", Str(prompt.language));
    RequestIsCompact(prompt, target, source);
    RequestIsWellFormed(prompt, target, source);
    CompactMeans(Request(prompt, target, source));
  }

  lemma RequestIsCompact(prompt: Prompt, target: seq<Segment>, source: Option<seq<Segment>>)
    ensures var j := Request(prompt, target, source); Compact(j) == Braces("", TightEntries(j.fields))
  {
  }

  predicate AllWellFormed(members: seq<Member>) {
    forall i | 0 <= i < |members| :: WellFormed(members[i].value)
  }

  lemma AllWellFormedSnoc(members: seq<Member>, key: string, value: Json)
    requires AllWellFormed(members) && WellFormed(value)
    ensures AllWellFormed(members + [Member(key, value)])
  {
  }

  lemma FirstMembersAreWellFormed(prompt: Prompt, target: seq<Segment>)
    ensures AllWellFormed(FirstMembers(prompt, target))
  {
    DecimalIsNumber(|target|);
    RecordsAreWellFormed(target, "translation");
    assert WellFormed(Array(Strs(target)));
  }

  lemma RequestIsWellFormed(prompt: Prompt, target: seq<Segment>, source: Option<seq<Segment>>)
    ensures WellFormed(Request(prompt, target, source))
  {
    FirstMembersAreWellFormed(prompt, target);
    var m := FirstMembers(prompt, target);
    if source.Some? {
      RecordsAreWellFormed(source.value, "text");
      AllWellFormedSnoc(m, "source_lines", Array(Records(source.value, "text")));
      m := m + [Member("source_lines", Array(Records(source.value, "text")))];
    } else {
      assert m + [] == m;
    }
    AllWellFormedSnoc(m, "target_language", Str(prompt.language));
    assert AllWellFormed(Request(prompt, target, source).fields);
  }

  lemma RecordsAreWellFormed(segments: seq<Segment>, key: string)
    ensures WellFormed(Array(Records(segments, key)))
  {
    forall i | 0 <= i < |segments|
      ensures WellFormed(Records(segments, key)[i])
    {
      var r := Records(segments, key)[i];
      assert WellFormed(r.fields[0].value) && WellFormed(r.fields[1].value);
    }
  }

  // ---- What the estimate comes to ----

  function AsciiPlaces(text: string): set<nat> {
    set i: nat | i < |text| && text[i] as int < 128
  }

  lemma {:induction false} AsciiCounts(text: string)
    ensures Ascii(text) == |AsciiPlaces(text)|
    decreases |text|
  {
    if text != "" {
      var n := |text| - 1;
      var init := text[..n];
      AsciiCounts(init);
      AsciiConcat(init, [text[n]]);
      assert text == init + [text[n]];
      assert AsciiPlaces(text) == AsciiPlaces(init) + (if text[n] as int < 128 then {n} else {});
    } else {
      assert AsciiPlaces(text) == {};
    }
  }

  /** Four times the tokens of a text: each ASCII character weighs one, each other four. */
  function Weight(text: string): nat {
    Ascii(text) + 4 * Other(text)
  }

  lemma WeightConcat(a: string, b: string)
    ensures Weight(a + b) == Weight(a) + Weight(b)
  {
    AsciiConcat(a, b);
  }

  lemma TokensWeigh(text: string)
    requires |text| < USIZE_MAX
    ensures Weight(text) <= 4 * Tokens(text) <= Weight(text) + 3
    ensures Tokens(text) <= |text|
  {
  }

  function AllTexts(segments: seq<Segment>): string {
    if segments == [] then "" else AllTexts(segments[..|segments| - 1]) + segments[|segments| - 1].text
  }

  lemma LineWeighs(segment: Segment)
    requires 3 * |segment.text| + 14 <= USIZE_MAX
    ensures var k := LineTokens()(segment);
            && 96 + 3 * Weight(segment.text) <= 8 * k <= 96 + 3 * Weight(segment.text) + 13
            && k <= 2 * |segment.text| + 12
  {
    TokensWeigh(segment.text);
  }

  lemma {:induction false} LinesWeigh(segments: seq<Segment>)
    requires 3 * |AllTexts(segments)| + 14 <= USIZE_MAX
    ensures var k, n := Sum(LineTokens(), segments), |segments|;
            && 96 * n + 3 * Weight(AllTexts(segments)) <= 8 * k <= 109 * n + 3 * Weight(AllTexts(segments))
            && k <= 2 * |AllTexts(segments)| + 12 * n
    decreases |segments|
  {
    if segments != [] {
      var init, last := segments[..|segments| - 1], segments[|segments| - 1];
      LinesWeigh(init);
      LineWeighs(last);
      WeightConcat(AllTexts(init), last.text);
    }
  }

  /**
   * The reply is allowed 64 tokens, 12 for each line, and one and a half times the tokens of its text, rounded up
   * twice for each line.
   */
  lemma ReplyWeighs(prompt: Prompt, target: seq<Segment>, source: Option<seq<Segment>>)
    requires 3 * |AllTexts(target)| + 12 * |target| + 64 <= USIZE_MAX
    ensures var k, w := EstimateTokens(prompt, target, source).response, Weight(AllTexts(target));
            512 + 96 * |target| + 3 * w <= 8 * k <= 512 + 109 * |target| + 3 * w
  {
    LinesWeigh(target);
  }

  /** The request is both messages, each rounded up to whole tokens, and six tokens for each. */
  lemma RequestWeighs(prompt: Prompt, target: seq<Segment>, source: Option<seq<Segment>>)
    requires |prompt.system| + 6 <= USIZE_MAX && |UserMessage(prompt, target, source)| + 6 <= USIZE_MAX
    ensures var k := EstimateTokens(prompt, target, source).request;
            var w := Weight(prompt.system) + Weight(prompt.before)
                     + Weight(Render(Compact(Request(prompt, target, source)))) + Weight(prompt.after);
            48 + w <= 4 * k <= 48 + w + 6
  {
    var text := UserMessage(prompt, target, source);
    MessageWeighs(prompt, target, source);
    TokensWeigh(prompt.system);
    TokensWeigh(text);
  }

  lemma MessageWeighs(prompt: Prompt, target: seq<Segment>, source: Option<seq<Segment>>)
    ensures Weight(UserMessage(prompt, target, source))
            == Weight(prompt.before) + Weight(Render(Compact(Request(prompt, target, source)))) + Weight(prompt.after)
  {
    PayloadMeans(prompt, target, source);
    var payload := Payload(prompt, target, source);
    WeightConcat(prompt.before, payload);
    WeightConcat(prompt.before + payload, prompt.after);
  }
}
