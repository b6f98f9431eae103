/** Finding the JSON object in a model's reply. */
module ObjectScanner {
  import opened JsonText
  import opened JsonValues
  import opened Wrappers

  datatype ScanError = MissingObject | Unbalanced | InvalidJson(message: string)

  /** The JSON parser that the selected text is handed to. */
  type Parser = string -> Result<Json, string>

  // ---- The scanner ----

  /** The characters with the Unicode property White_Space. */
  predicate IsSpace(c: char) {
    var n := c as int;
    9 <= n <= 13 || n == 0x20 || n == 0x85 || n == 0xA0 || n == 0x1680 || 0x2000 <= n <= 0x200A
    || n == 0x2028 || n == 0x2029 || n == 0x202F || n == 0x205F || n == 0x3000
  }

  function TrimStart(text: string): string {
    if text != "" && IsSpace(text[0]) then TrimStart(text[1..]) else text
  }

  function TrimEnd(text: string): string {
    if text != "" && IsSpace(text[|text| - 1]) then TrimEnd(text[..|text| - 1]) else text
  }

  function Trim(text: string): string {
    TrimEnd(TrimStart(text))
  }

  /** Depth of braces, and whether the scanner is inside a string and just after a backslash there. */
  datatype State = State(depth: int, inString: bool, escaped: bool)

  const OUTSIDE := State(0, false, false)

  function Step(s: State, c: char): State {
    if s.inString then
      if s.escaped then s.(escaped := false)
      else if c == '\\' then s.(escaped := true)
      else if c == '"' then s.(inString := false)
      else s
    else
      match c
      case '"' => s.(inString := true)
      case '{' => s.(depth := s.depth + 1)
      case '}' => s.(depth := s.depth - 1)
      case _ => s
  }

  /** This character completes the object. */
  predicate Closes(s: State, c: char) {
    !s.inString && c == '}' && s.depth == 1
  }

  /** Where the scanner is after `text`, unless the object closes within it. */
  function Feed(s: State, text: string): Option<State>
    decreases |text|
  {
    if text == "" then Some(s)
    else if Closes(s, text[0]) then None
    else Feed(Step(s, text[0]), text[1..])
  }

  /** `t` is the text of the first object: it opens at a brace and closes at its very end. */
  predicate IsObjectText(t: string) {
    && |t| >= 2 && t[0] == '{'
    && Feed(OUTSIDE, t[..|t| - 1]).Some?
    && Closes(Feed(OUTSIDE, t[..|t| - 1]).value, t[|t| - 1])
  }

  lemma {:induction false} FeedConcat(s: State, a: string, b: string)
    ensures Feed(s, a + b) == (if Feed(s, a).None? then None else Feed(Feed(s, a).value, b))
    decreases |a|
  {
    if a == "" {
      assert a + b == b;
    } else {
      assert (a + b)[1..] == a[1..] + b;
      if !Closes(s, a[0]) {
        FeedConcat(Step(s, a[0]), a[1..], b);
      }
    }
  }

  lemma FeedSnoc(s: State, a: string, c: char)
    requires Feed(s, a).Some? && !Closes(Feed(s, a).value, c)
    ensures Feed(s, a + [c]) == Some(Step(Feed(s, a).value, c))
  {
    FeedConcat(s, a, [c]);
    assert [c][1..] == "";
  }

  /** Position of the first opening brace. */
  function FindBrace(t: string): (r: Option<nat>)
    ensures r.None? <==> '{' !in t
    ensures r.Some? ==> r.value < |t| && t[r.value] == '{' && '{' !in t[..r.value]
  {
    if t == "" then None
    else if t[0] == '{' then Some(0)
    else
      match FindBrace(t[1..])
      case None => None
      case Some(n) =>
        assert t[..n + 1] == [t[0]] + t[1..][..n];
        Some(n + 1)
  }

  /** How many characters it takes to close the object. */
  function Reach(s: State, text: string): (r: Option<nat>)
    ensures r.Some? ==> r.value <= |text|
    decreases |text|
  {
    if text == "" then None
    else if Closes(s, text[0]) then Some(1)
    else
      match Reach(Step(s, text[0]), text[1..])
      case None => None
      case Some(n) => Some(n + 1)
  }

  /** The text handed to the JSON parser: from the first brace to where it closes. */
  function Extract(text: string): Result<string, ScanError> {
    Select(Trim(text))
  }

  function Select(t: string): Result<string, ScanError> {
    match FindBrace(t)
    case None => Err(MissingObject)
    case Some(start) =>
      match Reach(OUTSIDE, t[start..])
      case None => Err(Unbalanced)
      case Some(n) => Ok(t[start..start + n])
  }

  lemma {:induction false} ReachConcat(s: State, a: string, b: string)
    requires Feed(s, a).Some?
    ensures var r := Reach(Feed(s, a).value, b);
            Reach(s, a + b) == if r.None? then None else Some(|a| + r.value)
    decreases |a|
  {
    if a == "" {
      assert a + b == b;
    } else {
      assert (a + b)[1..] == a[1..] + b;
      ReachConcat(Step(s, a[0]), a[1..], b);
    }
  }

  /** The scanning loop, from the first brace on. */
  method ScanObject(rest: string) returns (r: Option<nat>)
    ensures r == Reach(OUTSIDE, rest)
  {
    var s := OUTSIDE;
    for i := 0 to |rest|
      invariant Feed(OUTSIDE, rest[..i]) == Some(s)
    {
      assert rest == rest[..i] + rest[i..];
      ReachConcat(OUTSIDE, rest[..i], rest[i..]);
      if Closes(s, rest[i]) {
        return Some(i + 1);
      }
      assert rest[..i + 1] == rest[..i] + [rest[i]];
      FeedSnoc(OUTSIDE, rest[..i], rest[i]);
      s := Step(s, rest[i]);
    }
    assert rest == rest[..|rest|] + "";
    ReachConcat(OUTSIDE, rest[..|rest|], "");
    r := None;
  }

  /** Success is the parsed selection; all failures but the parser's own are the scanner's. */
  method ExtractJsonObject(text: string, parse: Parser) returns (r: Result<Json, ScanError>)
    ensures r.Ok? <==> Extract(text).Ok? && parse(Extract(text).value).Ok?
    ensures r.Ok? ==> r.value == parse(Extract(text).value).value
    ensures Extract(text).Err? ==> r == Err(Extract(text).error)
    ensures r.Err? && r.error.InvalidJson? ==>
              Extract(text).Ok? && parse(Extract(text).value) == Err(r.error.message)
  {
    var t := Trim(text);
    var found := FindBrace(t);
    if found.None? {
      return Err(MissingObject);
    }
    var start := found.value;
    var n := ScanObject(t[start..]);
    if n.None? {
      return Err(Unbalanced);
    }
    var parsed := parse(t[start..start + n.value]);
    r := if parsed.Ok? then Ok(parsed.value) else Err(InvalidJson(parsed.error));
  }

  /** Scanning closes at the end of the first object text, and only there. */
  lemma {:induction false} ReachIsFirst(s: State, text: string)
    ensures Reach(s, text).None? <==> Feed(s, text).Some?
    ensures Reach(s, text).Some? ==>
              var n := Reach(s, text).value;
              && 0 < n && Feed(s, text[..n - 1]).Some? && Closes(Feed(s, text[..n - 1]).value, text[n - 1])
    decreases |text|
  {
    if text != "" && !Closes(s, text[0]) {
      ReachIsFirst(Step(s, text[0]), text[1..]);
      var r := Reach(Step(s, text[0]), text[1..]);
      if r.Some? {
        assert text[..r.value] == [text[0]] + text[1..][..r.value - 1];
        assert text[..r.value][1..] == text[1..][..r.value - 1];
      }
    }
  }

  /**
   * What is selected is an object text that starts at the first brace of the trimmed reply. Without a brace there
   * is none, and a reply is unbalanced exactly when its first brace never closes.
   */
  lemma ExtractIsFirstObject(text: string)
    ensures Extract(text) == Err(MissingObject) <==> '{' !in Trim(text)
    ensures var found := FindBrace(Trim(text));
            && (Extract(text) == Err(Unbalanced) <==> found.Some? && Feed(OUTSIDE, Trim(text)[found.value..]).Some?)
            && (Extract(text).Ok? ==>
                  && found.Some?
                  && IsObjectText(Extract(text).value)
                  && Extract(text).value <= Trim(text)[found.value..])
  {
    var t, found := Trim(text), FindBrace(Trim(text));
    if found.Some? {
      var rest := t[found.value..];
      ReachIsFirst(OUTSIDE, rest);
      if Reach(OUTSIDE, rest).Some? {
        var n := Reach(OUTSIDE, rest).value;
        assert t[found.value..found.value + n] == rest[..n];
        assert rest[..n][..n - 1] == rest[..n - 1];
        assert rest[..n][0] == '{' && n > 1;
      }
    }
  }

  // ---- Scanning a JSON text ----

  predicate Neutral(text: string) {
    forall i | 0 <= i < |text| :: text[i] != '"' && text[i] != '{' && text[i] != '}'
  }

  predicate InsideObject(s: State) {
    s.depth >= 1 && !s.inString && !s.escaped
  }

  lemma {:induction false} FeedNeutral(s: State, text: string)
    requires InsideObject(s) && Neutral(text)
    ensures Feed(s, text) == Some(s)
    decreases |text|
  {
    if text != "" {
      assert Step(s, text[0]) == s;
      assert forall i | 0 <= i < |text| - 1 :: text[1..][i] == text[i + 1];
      FeedNeutral(s, text[1..]);
    }
  }

  lemma {:induction false} FeedQuiet(s: State, text: string)
    requires s.inString && !s.escaped && forall i | 0 <= i < |text| :: text[i] != '"' && text[i] != '\\'
    ensures Feed(s, text) == Some(s)
    decreases |text|
  {
    if text != "" {
      assert Step(s, text[0]) == s;
      assert forall i | 0 <= i < |text| - 1 :: text[1..][i] == text[i + 1];
      FeedQuiet(s, text[1..]);
    }
  }

  /** A piece of a string leaves the scanner inside the string. */
  lemma FeedPiece(s: State, p: Piece)
    requires s.inString && !s.escaped && IsPiece(p)
    ensures Feed(s, RenderPiece(p)) == Some(s)
  {
    var e := RenderPiece(p);
    if p.Plain? {
      FeedQuiet(s, e);
    } else {
      var t := s.(escaped := true);
      assert Step(s, e[0]) == t && Step(t, e[1]) == s;
      assert e[1..][1..] == e[2..] && e[1..][0] == e[1];
      assert Feed(s, e) == Feed(t, e[1..]) == Feed(s, e[2..]);
      assert p.Unicode? ==> e[2..] == p.hex;
      FeedQuiet(s, e[2..]);
    }
  }

  lemma {:induction false} FeedPieces(s: State, pieces: seq<Piece>)
    requires s.inString && !s.escaped && ArePieces(pieces)
    ensures Feed(s, RenderPieces(pieces)) == Some(s)
    decreases |pieces|
  {
    if pieces != [] {
      FeedPiece(s, pieces[0]);
      FeedPieces(s, pieces[1..]);
      FeedConcat(s, RenderPiece(pieces[0]), RenderPieces(pieces[1..]));
    }
  }

  lemma FeedOne(s: State, c: char)
    requires !Closes(s, c)
    ensures Feed(s, [c]) == Some(Step(s, c))
  {
    assert [c][1..] == "";
  }

  lemma FeedQuoted(s: State, pieces: seq<Piece>)
    requires InsideObject(s) && ArePieces(pieces)
    ensures Feed(s, RenderQuoted(pieces)) == Some(s)
  {
    var inside := s.(inString := true);
    FeedOne(s, '"');
    FeedPieces(inside, pieces);
    FeedOne(inside, '"');
    FeedConcat(s, "\"", RenderPieces(pieces));
    FeedConcat(s, "\"" + RenderPieces(pieces), "\"");
  }

  /** Two texts that each bring the scanner back bring it back together. */
  lemma FeedTwo(s: State, a: string, b: string)
    requires Feed(s, a) == Some(s) && Feed(s, b) == Some(s)
    ensures Feed(s, a + b) == Some(s)
  {
    FeedConcat(s, a, b);
  }

  /** The characters of a number mean nothing to the scanner. */
  lemma NumberIsNeutral(text: string)
    requires IsNumber(text)
    ensures Neutral(text)
  {
    if text[0] == '-' {
      UnsignedIsNeutral(text[1..]);
      assert text == "-" + text[1..];
      NeutralConcat("-", text[1..]);
    } else {
      UnsignedIsNeutral(text);
    }
  }

  lemma UnsignedIsNeutral(t: string)
    requires IsFraction(t[DigitRun(t)..])
    ensures Neutral(t)
  {
    FractionIsNeutral(t[DigitRun(t)..]);
    DigitsAreNeutral(t);
  }

  lemma FractionIsNeutral(text: string)
    requires IsFraction(text)
    ensures Neutral(text)
  {
    if text != "" && text[0] == '.' {
      ExponentIsNeutral(text[1..][DigitRun(text[1..])..]);
      DigitsAreNeutral(text[1..]);
      assert text == "." + text[1..];
      NeutralConcat(".", text[1..]);
    } else {
      ExponentIsNeutral(text);
    }
  }

  lemma ExponentIsNeutral(text: string)
    requires IsExponent(text)
    ensures Neutral(text)
  {
    if text != "" {
      var k := if |text| > 1 && (text[1] == '+' || text[1] == '-') then 2 else 1;
      assert DigitRun(text[k..]) == |text[k..]|;
      DigitsAreNeutral(text[k..]);
      assert text == text[..k] + text[k..];
      NeutralConcat(text[..k], text[k..]);
    }
  }

  /** Digits do not disturb, so what follows them decides. */
  lemma DigitsAreNeutral(t: string)
    requires Neutral(t[DigitRun(t)..])
    ensures Neutral(t)
  {
    var n := DigitRun(t);
    forall i | 0 <= i < |t|
      ensures t[i] != '"' && t[i] != '{' && t[i] != '}'
    {
      if i >= n {
        assert t[i] == t[n..][i - n];
      }
    }
  }

  lemma NeutralConcat(a: string, b: string)
    requires Neutral(a) && Neutral(b)
    ensures Neutral(a + b)
  {
  }

  /** Inside an object, a JSON text of any shape leaves the scanner where it was. */
  lemma {:induction false} FeedText(s: State, j: Syntax)
    requires InsideObject(s) && Grammatical(j)
    ensures Feed(s, Render(j)) == Some(s)
    decreases j, 0
  {
    match j
    case Word(text) => FeedNeutral(s, text);
    case Digits(text) =>
      NumberIsNeutral(text);
      FeedNeutral(s, text);
    case Quoted(pieces) => FeedQuoted(s, pieces);
    case Brackets(blank, items) =>
      var body := if items == [] then blank else RenderItems(items);
      if items == [] { FeedNeutral(s, blank); } else { FeedItems(s, items); }
      FeedNeutral(s, "[");
      FeedTwo(s, "[", body);
      FeedNeutral(s, "]");
      FeedTwo(s, "[" + body, "]");
    case Braces(blank, entries) =>
      FeedBody(s, blank, entries);
      var inside := s.(depth := s.depth + 1);
      FeedOne(inside, '}');
      FeedConcat(s, ObjectBody(blank, entries), "}");
      assert Render(j) == ObjectBody(blank, entries) + "}";
  }

  /** An object text without its closing brace. */
  function ObjectBody(blank: string, entries: seq<Entry>): string {
    "{" + (if entries == [] then blank else RenderEntries(entries))
  }

  /** From outside or inside, the body of an object leaves the scanner one brace deeper. */
  lemma {:induction false} FeedBody(s: State, blank: string, entries: seq<Entry>)
    requires s.depth >= 0 && !s.inString && !s.escaped && IsBlank(blank)
    requires forall i | 0 <= i < |entries| :: GrammaticalEntry(entries[i])
    ensures Feed(s, ObjectBody(blank, entries)) == Some(s.(depth := s.depth + 1))
    decreases entries, 1
  {
    var inside := s.(depth := s.depth + 1);
    FeedOne(s, '{');
    if entries == [] {
      FeedNeutral(inside, blank);
      FeedConcat(s, "{", blank);
    } else {
      FeedEntries(inside, entries);
      FeedConcat(s, "{", RenderEntries(entries));
    }
  }

  lemma {:induction false} FeedItem(s: State, item: Item)
    requires InsideObject(s) && GrammaticalItem(item)
    ensures Feed(s, RenderItem(item)) == Some(s)
    decreases item, 0
  {
    FeedNeutral(s, item.before);
    FeedText(s, item.value);
    FeedTwo(s, item.before, Render(item.value));
    FeedNeutral(s, item.after);
    FeedTwo(s, item.before + Render(item.value), item.after);
  }

  lemma {:induction false} FeedItems(s: State, items: seq<Item>)
    requires InsideObject(s) && items != []
    requires forall i | 0 <= i < |items| :: GrammaticalItem(items[i])
    ensures Feed(s, RenderItems(items)) == Some(s)
    decreases items, 0
  {
    FeedItem(s, items[0]);
    if |items| > 1 {
      FeedItems(s, items[1..]);
      FeedNeutral(s, ",");
      FeedTwo(s, RenderItem(items[0]), ",");
      FeedTwo(s, RenderItem(items[0]) + ",", RenderItems(items[1..]));
    }
  }

  lemma {:induction false} FeedEntry(s: State, entry: Entry)
    requires InsideObject(s) && GrammaticalEntry(entry)
    ensures Feed(s, RenderEntry(entry)) == Some(s)
    decreases entry, 0
  {
    FeedNeutral(s, entry.before);
    FeedQuoted(s, entry.key);
    var a := entry.before + RenderQuoted(entry.key);
    FeedTwo(s, entry.before, RenderQuoted(entry.key));
    FeedNeutral(s, entry.between);
    FeedTwo(s, a, entry.between);
    FeedNeutral(s, ":");
    FeedTwo(s, a + entry.between, ":");
    FeedItem(s, entry.item);
    FeedTwo(s, a + entry.between + ":", RenderItem(entry.item));
  }

  lemma {:induction false} FeedEntries(s: State, entries: seq<Entry>)
    requires InsideObject(s) && entries != []
    requires forall i | 0 <= i < |entries| :: GrammaticalEntry(entries[i])
    ensures Feed(s, RenderEntries(entries)) == Some(s)
    decreases entries, 0
  {
    FeedEntry(s, entries[0]);
    if |entries| > 1 {
      FeedEntries(s, entries[1..]);
      FeedNeutral(s, ",");
      FeedTwo(s, RenderEntry(entries[0]), ",");
      FeedTwo(s, RenderEntry(entries[0]) + ",", RenderEntries(entries[1..]));
    }
  }

  /** The JSON text of an object closes at its end and nowhere before. */
  lemma ObjectClosesItself(j: Syntax)
    requires j.Braces? && Grammatical(j)
    ensures IsObjectText(Render(j))
  {
    var body := ObjectBody(j.blank, j.entries);
    FeedBody(OUTSIDE, j.blank, j.entries);
    assert Render(j) == body + "}";
    assert Render(j)[..|body|] == body;
  }

  // ---- Objects among other text ----

  /** Trimming cuts only into what surrounds a text that starts and ends with a visible character. */
  lemma {:induction false} TrimStartAround(before: string, text: string) returns (k: nat)
    requires text != "" && !IsSpace(text[0])
    ensures k <= |before| && TrimStart(before + text) == before[k..] + text
    decreases |before|
  {
    if before != "" && IsSpace(before[0]) {
      assert (before + text)[1..] == before[1..] + text;
      var rest := TrimStartAround(before[1..], text);
      k := rest + 1;
    } else {
      k := 0;
      assert before == "" ==> before + text == text;
    }
  }

  lemma {:induction false} TrimEndAround(text: string, after: string) returns (k: nat)
    requires text != "" && !IsSpace(text[|text| - 1])
    ensures k <= |after| && TrimEnd(text + after) == text + after[..k]
    decreases |after|
  {
    if after != "" && IsSpace(after[|after| - 1]) {
      assert (text + after)[..|text + after| - 1] == text + after[..|after| - 1];
      k := TrimEndAround(text, after[..|after| - 1]);
      assert after[..|after| - 1][..k] == after[..k];
    } else {
      k := |after|;
      assert after == "" ==> text + after == text;
      assert after[..k] == after;
    }
  }

  lemma TrimAround(before: string, text: string, after: string) returns (i: nat, k: nat)
    requires text != "" && !IsSpace(text[0]) && !IsSpace(text[|text| - 1])
    ensures i <= |before| && k <= |after|
    ensures Trim(before + text + after) == before[i..] + text + after[..k]
  {
    assert before + text + after == before + (text + after);
    i := TrimStartAround(before, text + after);
    assert before[i..] + (text + after) == (before[i..] + text) + after;
    k := TrimEndAround(before[i..] + text, after);
  }

  /** The brace that ends a brace-free beginning is the first one. */
  lemma {:induction false} FindBraceAt(before: string, rest: string)
    requires '{' !in before && rest != "" && rest[0] == '{'
    ensures FindBrace(before + rest) == Some(|before|)
    decreases |before|
  {
    if before == "" {
      assert before + rest == rest;
    } else {
      assert (before + rest)[1..] == before[1..] + rest;
      FindBraceAt(before[1..], rest);
    }
  }

  /** From the object on, scanning stops at its end, whatever follows. */
  lemma ReachObject(text: string, after: string)
    requires IsObjectText(text)
    ensures Reach(OUTSIDE, text + after) == Some(|text|)
  {
    var init, last := text[..|text| - 1], text[|text| - 1];
    assert text + after == init + ([last] + after);
    ReachConcat(OUTSIDE, init, [last] + after);
  }

  lemma Slices(head: string, text: string, after: string)
    ensures var t := head + (text + after);
            t[|head|..] == text + after && t[|head|..|head| + |text|] == text
  {
  }

  lemma ExtractTrimmed(t: string, head: string, text: string, after: string)
    requires t == head + (text + after) && Trim(t) == t && '{' !in head && IsObjectText(text)
    ensures Extract(t) == Ok(text)
  {
    FindBraceAt(head, text + after);
    ReachObject(text, after);
    Slices(head, text, after);
  }

  lemma {:induction false} TrimIsIdempotent(text: string)
    ensures Trim(Trim(text)) == Trim(text)
  {
    TrimStartLeaves(text);
    TrimEndLeaves(TrimStart(text));
  }

  lemma {:induction false} TrimStartLeaves(text: string)
    ensures TrimStart(text) == "" || !IsSpace(TrimStart(text)[0])
  {
    if text != "" && IsSpace(text[0]) {
      TrimStartLeaves(text[1..]);
    }
  }

  lemma {:induction false} TrimEndLeaves(text: string)
    ensures TrimEnd(text) == "" || !IsSpace(TrimEnd(text)[|TrimEnd(text)| - 1])
    ensures TrimEnd(text) <= text
  {
    if text != "" && IsSpace(text[|text| - 1]) {
      TrimEndLeaves(text[..|text| - 1]);
    }
  }

  lemma ExtractTrims(text: string)
    ensures Extract(text) == Extract(Trim(text))
  {
    TrimIsIdempotent(text);
  }

  /** An object text after a brace-free beginning is what the scanner selects, whatever follows it. */
  lemma ExtractFirst(before: string, text: string, after: string)
    requires '{' !in before && IsObjectText(text)
    ensures Extract(before + text + after) == Ok(text)
  {
    var i, k := TrimAround(before, text, after);
    var t := Trim(before + text + after);
    ExtractTrims(before + text + after);
    TrimIsIdempotent(before + text + after);
    assert t == before[i..] + (text + after[..k]);
    ExtractTrimmed(t, before[i..], text, after[..k]);
  }

  /**
   * For every JSON text of an object, whatever its blanks, escapes and nesting, after any text without an opening
   * brace and before any text at all, exactly that object is selected.
   */
  lemma ExtractObject(before: string, j: Syntax, after: string)
    requires '{' !in before && j.Braces? && Grammatical(j)
    ensures Extract(before + Render(j) + after) == Ok(Render(j))
  {
    ObjectClosesItself(j);
    ExtractFirst(before, Render(j), after);
  }

  /** Print, then scan: every object value has a text that means it and that the scanner selects. */
  lemma ExtractPrinted(before: string, j: Json, after: string)
    requires '{' !in before && j.Object? && WellFormed(j)
    ensures Grammatical(Compact(j)) && Meaning(Compact(j)) == Some(j)
    ensures Extract(before + Render(Compact(j)) + after) == Ok(Render(Compact(j)))
  {
    CompactMeans(j);
    ExtractObject(before, Compact(j), after);
  }

  // ---- Where the selection starts ----

  /** Trimming does not move the first brace, counted from the beginning of the untrimmed text. */
  lemma SelectionStarts(text: string)
    ensures FindBrace(text).None? <==> FindBrace(Trim(text)).None?
    ensures Extract(text).Ok? ==> FindBrace(text).Some? && Extract(text).value <= text[FindBrace(text).value..]
  {
    var lead, tail := TrimSplits(text);
    FindBraceWithin(lead, Trim(text), tail);
    if Extract(text).Ok? {
      SelectionIsWithin(text);
      PrefixWithin(lead, Trim(text), tail, FindBrace(Trim(text)).value, Extract(text).value);
    }
  }

  lemma SelectionIsWithin(text: string)
    requires Extract(text).Ok?
    ensures FindBrace(Trim(text)).Some? && Extract(text).value <= Trim(text)[FindBrace(Trim(text)).value..]
  {
    ExtractIsFirstObject(text);
  }

  lemma PrefixWithin(lead: string, t: string, tail: string, n: nat, part: string)
    requires n <= |t| && part <= t[n..]
    ensures part <= (lead + t + tail)[|lead| + n..]
  {
    assert (lead + t + tail)[|lead| + n..] == t[n..] + tail;
  }

  lemma {:induction false} FirstBraceAtMost(t: string, i: nat)
    requires i < |t| && t[i] == '{'
    ensures FindBrace(t).Some? && FindBrace(t).value <= i
  {
    if t[0] != '{' {
      FirstBraceAtMost(t[1..], i - 1);
    }
  }

  predicate Spaces(text: string) {
    forall i | 0 <= i < |text| :: IsSpace(text[i])
  }

  lemma TrimSplits(text: string) returns (lead: string, tail: string)
    ensures Spaces(lead) && Spaces(tail) && text == lead + Trim(text) + tail
  {
    lead := TrimStartSplits(text);
    tail := TrimEndSplits(TrimStart(text));
    assert lead + (Trim(text) + tail) == lead + Trim(text) + tail;
  }

  lemma {:induction false} TrimStartSplits(text: string) returns (lead: string)
    ensures Spaces(lead) && text == lead + TrimStart(text)
  {
    lead := "";
    if text != "" && IsSpace(text[0]) {
      var rest := TrimStartSplits(text[1..]);
      lead := [text[0]] + rest;
    }
  }

  lemma {:induction false} TrimEndSplits(text: string) returns (tail: string)
    ensures Spaces(tail) && text == TrimEnd(text) + tail
  {
    tail := "";
    if text != "" && IsSpace(text[|text| - 1]) {
      var rest := TrimEndSplits(text[..|text| - 1]);
      tail := rest + [text[|text| - 1]];
    }
  }

  lemma SpacesAreNoBraces(text: string)
    requires Spaces(text)
    ensures '{' !in text
  {
  }

  lemma FindBraceWithin(lead: string, t: string, tail: string)
    requires Spaces(lead) && Spaces(tail)
    ensures FindBrace(lead + t + tail)
            == if FindBrace(t).None? then None else Some(|lead| + FindBrace(t).value)
  {
    SpacesAreNoBraces(lead);
    SpacesAreNoBraces(tail);
    assert lead + t + tail == lead + (t + tail);
    FindBraceBehind(lead, t + tail);
    FindBraceBefore(t, tail);
  }

  lemma {:induction false} FindBraceBehind(lead: string, t: string)
    requires '{' !in lead
    ensures FindBrace(lead + t) == if FindBrace(t).None? then None else Some(|lead| + FindBrace(t).value)
    decreases |lead|
  {
    if lead == "" {
      assert lead + t == t;
    } else {
      assert (lead + t)[1..] == lead[1..] + t;
      FindBraceBehind(lead[1..], t);
    }
  }

  lemma {:induction false} FindBraceBefore(t: string, tail: string)
    requires '{' !in tail
    ensures FindBrace(t + tail) == FindBrace(t)
    decreases |t|
  {
    if t == "" {
      assert t + tail == tail;
    } else if t[0] != '{' {
      assert (t + tail)[1..] == t[1..] + tail;
      FindBraceBefore(t[1..], tail);
    }
  }

  /** What comes after the text neither opens nor closes anything. */
  lemma {:induction false} ReachBefore(s: State, t: string, tail: string)
    requires Spaces(tail)
    ensures Reach(s, t + tail) == Reach(s, t)
    decreases |t| + |tail|
  {
    if t != "" {
      assert (t + tail)[1..] == t[1..] + tail;
      if !Closes(s, t[0]) {
        ReachBefore(Step(s, t[0]), t[1..], tail);
      }
    } else if tail != "" {
      assert t + tail == tail == "" + tail && tail[1..] == "" + tail[1..];
      assert !Closes(s, tail[0]);
      ReachBefore(Step(s, tail[0]), "", tail[1..]);
    }
  }

  /** The selection, once the first brace is at the front. */
  function Cut(rest: string): Result<string, ScanError> {
    match Reach(OUTSIDE, rest)
    case None => Err(Unbalanced)
    case Some(n) => Ok(rest[..n])
  }

  lemma SelectCuts(t: string, start: nat)
    requires FindBrace(t) == Some(start)
    ensures Select(t) == Cut(t[start..])
  {
    var rest := t[start..];
    assert forall n | 0 <= n <= |rest| :: t[start..start + n] == rest[..n];
  }

  lemma CutBefore(rest: string, tail: string)
    requires Spaces(tail)
    ensures Cut(rest + tail) == Cut(rest)
  {
    ReachBefore(OUTSIDE, rest, tail);
    assert forall n | 0 <= n <= |rest| :: (rest + tail)[..n] == rest[..n];
  }

  lemma SelectAround(lead: string, t: string, tail: string)
    requires Spaces(lead) && Spaces(tail)
    ensures Select(lead + t + tail) == Select(t)
  {
    FindBraceWithin(lead, t, tail);
    if FindBrace(t).Some? {
      var start := FindBrace(t).value;
      SelectCuts(lead + t + tail, |lead| + start);
      SelectCuts(t, start);
      assert (lead + t + tail)[|lead| + start..] == t[start..] + tail;
      CutBefore(t[start..], tail);
    }
  }

  /** Trimming never matters: the same object, or the same error, comes of the text as it is. */
  lemma TrimmingIsImmaterial(text: string)
    ensures Extract(text) == Select(text)
  {
    var lead, tail := TrimSplits(text);
    SelectAround(lead, Trim(text), tail);
  }

  /** The first brace is the object's own if and only if none comes before it. */
  lemma OpeningBrace(before: string, text: string, after: string)
    requires text != "" && text[0] == '{'
    ensures var all := before + text + after;
            && FindBrace(all).Some? && FindBrace(all).value <= |before|
            && (FindBrace(all).value == |before| <==> '{' !in before)
  {
    var all := before + text + after;
    if '{' in before {
      var i :| 0 <= i < |before| && before[i] == '{';
      FirstBraceAtMost(all, i);
    } else {
      assert all == before + (text + after);
      FindBraceAt(before, text + after);
    }
  }

  /**
   * Whatever surrounds an object text, the selection starts at the object if and only if no opening brace comes
   * before it, and then it is the object; otherwise it starts earlier.
   */
  lemma SelectionStartsAtObject(before: string, text: string, after: string)
    requires IsObjectText(text)
    ensures var all := before + text + after;
            && FindBrace(all).Some? && FindBrace(all).value <= |before|
            && (FindBrace(all).value == |before| <==> '{' !in before)
            && ('{' !in before ==> Extract(all) == Ok(text))
            && (Extract(all).Ok? ==> Extract(all).value <= all[FindBrace(all).value..])
  {
    OpeningBrace(before, text, after);
    SelectionStarts(before + text + after);
    if '{' !in before {
      ExtractFirst(before, text, after);
    }
  }

  lemma NothingToTrim(text: string)
    requires text != "" && !IsSpace(text[0]) && !IsSpace(text[|text| - 1])
    ensures Trim(text) == text
  {
  }

  lemma NeverCloses(t: string)
    requires t != "" && t[0] == '{' && Trim(t) == t && Feed(OUTSIDE, t).Some?
    ensures Extract(t) == Err(Unbalanced)
  {
    assert FindBrace(t) == Some(0) && t[0..] == t;
    ReachIsFirst(OUTSIDE, t);
  }

  /** A stray brace right before an object is taken for its start, and then nothing closes. */
  lemma ExtractAfterBrace(j: Syntax)
    requires j.Braces? && Grammatical(j)
    ensures Extract("{" + Render(j)) == Err(Unbalanced)
  {
    var inside := State(1, false, false);
    FeedText(inside, j);
    FeedOne(OUTSIDE, '{');
    FeedConcat(OUTSIDE, "{", Render(j));
    NothingToTrim("{" + Render(j));
    NeverCloses("{" + Render(j));
  }
}
