/** JSON texts as the grammar of RFC 8259 admits them, and the compact ones that the adapters write. */
module JsonText {
  import opened JsonValues
  import opened Wrappers

  // ---- Syntax trees ----

  /** Section 7: an unescaped character, a two-character escape, or a `\u` escape with four hexadecimal digits. */
  datatype Piece = Plain(c: char) | Short(c: char) | Unicode(hex: string)

  /** Sections 2 to 7. The blanks are kept, so that a tree stands for one exact text. */
  datatype Syntax =
    | Word(text: string)
    | Digits(text: string)
    | Quoted(pieces: seq<Piece>)
    | Brackets(blank: string, items: seq<Item>)
    | Braces(blank: string, entries: seq<Entry>)

  datatype Item = Item(before: string, value: Syntax, after: string)

  datatype Entry = Entry(before: string, key: seq<Piece>, between: string, item: Item)

  // ---- The text of a tree ----

  function RenderPiece(p: Piece): string {
    match p
    case Plain(c) => [c]
    case Short(c) => ['\\', c]
    case Unicode(hex) => "\\u" + hex
  }

  function RenderPieces(pieces: seq<Piece>): string {
    if pieces == [] then "" else RenderPiece(pieces[0]) + RenderPieces(pieces[1..])
  }

  function RenderQuoted(pieces: seq<Piece>): string {
    "\"" + RenderPieces(pieces) + "\""
  }

  function Render(s: Syntax): string
    decreases s
  {
    match s
    case Word(text) => text
    case Digits(text) => text
    case Quoted(pieces) => RenderQuoted(pieces)
    case Brackets(blank, items) => "[" + (if items == [] then blank else RenderItems(items)) + "]"
    case Braces(blank, entries) => "{" + (if entries == [] then blank else RenderEntries(entries)) + "}"
  }

  function RenderItem(item: Item): string
    decreases item
  {
    item.before + Render(item.value) + item.after
  }

  function RenderItems(items: seq<Item>): string
    decreases items
  {
    if items == [] then ""
    else if |items| == 1 then RenderItem(items[0])
    else RenderItem(items[0]) + "," + RenderItems(items[1..])
  }

  function RenderEntry(entry: Entry): string
    decreases entry
  {
    entry.before + RenderQuoted(entry.key) + entry.between + ":" + RenderItem(entry.item)
  }

  function RenderEntries(entries: seq<Entry>): string
    decreases entries
  {
    if entries == [] then ""
    else if |entries| == 1 then RenderEntry(entries[0])
    else RenderEntry(entries[0]) + "," + RenderEntries(entries[1..])
  }

  // ---- What the grammar admits ----

  predicate IsBlank(text: string) {
    forall i | 0 <= i < |text| :: text[i] == ' ' || text[i] == '\t' || text[i] == '\n' || text[i] == '\r'
  }

  predicate IsHex(c: char) {
    '0' <= c <= '9' || 'a' <= c <= 'f' || 'A' <= c <= 'F'
  }

  predicate IsPiece(p: Piece) {
    match p
    case Plain(c) => c as int >= 0x20 && c != '"' && c != '\\'
    case Short(c) => c == '"' || c == '\\' || c == '/' || c == 'b' || c == 'f' || c == 'n' || c == 'r' || c == 't'
    case Unicode(hex) => |hex| == 4 && forall i | 0 <= i < 4 :: IsHex(hex[i])
  }

  predicate ArePieces(pieces: seq<Piece>) {
    forall i | 0 <= i < |pieces| :: IsPiece(pieces[i])
  }

  /** How many decimal digits a text starts with. */
  function DigitRun(text: string): (n: nat)
    ensures n <= |text| && forall i | 0 <= i < n :: '0' <= text[i] <= '9'
  {
    if text == "" || !('0' <= text[0] <= '9') then 0 else 1 + DigitRun(text[1..])
  }

  /** Section 6: an integer without superfluous zeros, then perhaps a fraction, then perhaps an exponent. */
  predicate IsNumber(text: string) {
    var t := if text != "" && text[0] == '-' then text[1..] else text;
    var n := DigitRun(t);
    n > 0 && (n > 1 ==> t[0] != '0') && IsFraction(t[n..])
  }

  predicate IsFraction(text: string) {
    if text != "" && text[0] == '.' then
      var n := DigitRun(text[1..]);
      n > 0 && IsExponent(text[1..][n..])
    else IsExponent(text)
  }

  predicate IsExponent(text: string) {
    text != "" ==>
      && (text[0] == 'e' || text[0] == 'E')
      && var t := if |text| > 1 && (text[1] == '+' || text[1] == '-') then text[2..] else text[1..];
         t != "" && DigitRun(t) == |t|
  }

  predicate Grammatical(s: Syntax)
    decreases s
  {
    match s
    case Word(text) => text == "null" || text == "true" || text == "false"
    case Digits(text) => IsNumber(text)
    case Quoted(pieces) => ArePieces(pieces)
    case Brackets(blank, items) => IsBlank(blank) && forall i | 0 <= i < |items| :: GrammaticalItem(items[i])
    case Braces(blank, entries) => IsBlank(blank) && forall i | 0 <= i < |entries| :: GrammaticalEntry(entries[i])
  }

  predicate GrammaticalItem(item: Item)
    decreases item
  {
    IsBlank(item.before) && Grammatical(item.value) && IsBlank(item.after)
  }

  predicate GrammaticalEntry(entry: Entry)
    decreases entry
  {
    IsBlank(entry.before) && ArePieces(entry.key) && IsBlank(entry.between) && GrammaticalItem(entry.item)
  }

  // ---- Compact texts, as the adapters write them ----

  function HexDigit(n: nat): char
    requires n < 16
  {
    "0123456789abcdef"[n]
  }

  /** Quotes, backslashes and control characters are escaped, everything else is written as it is. */
  function PieceOf(c: char): Piece {
    var n := c as int;
    if c == '"' || c == '\\' then Short(c)
    else if n == 8 then Short('b')
    else if n == 9 then Short('t')
    else if n == 10 then Short('n')
    else if n == 12 then Short('f')
    else if n == 13 then Short('r')
    else if n < 0x20 then Unicode("00" + [HexDigit(n / 16), HexDigit(n % 16)])
    else Plain(c)
  }

  function PiecesOf(text: string): seq<Piece> {
    if text == "" then [] else [PieceOf(text[0])] + PiecesOf(text[1..])
  }

  function Tight(value: Syntax): Item {
    Item("", value, "")
  }

  function TightEntry(key: string, value: Syntax): Entry {
    Entry("", PiecesOf(key), "", Tight(value))
  }

  /** The compact text of a value. */
  function Compact(j: Json): Syntax
    decreases j
  {
    match j
    case Null => Word("null")
    case Bool(value) => Word(if value then "true" else "false")
    case Number(literal) => Digits(literal)
    case Str(text) => Quoted(PiecesOf(text))
    case Array(items) => Brackets("", seq(|items|, i requires 0 <= i < |items| => Tight(Compact(items[i]))))
    case Object(fields) =>
      Braces("", seq(|fields|, i requires 0 <= i < |fields| => TightEntry(fields[i].key, Compact(fields[i].value))))
  }

  /** Number literals are numbers. */
  predicate WellFormed(j: Json)
    decreases j
  {
    match j
    case Number(literal) => IsNumber(literal)
    case Array(items) => forall i | 0 <= i < |items| :: WellFormed(items[i])
    case Object(fields) => forall i | 0 <= i < |fields| :: WellFormed(fields[i].value)
    case _ => true
  }

  lemma {:induction false} PiecesOfAre(text: string)
    ensures ArePieces(PiecesOf(text))
  {
    if text != "" {
      PieceOfIs(text[0]);
      PiecesOfAre(text[1..]);
    }
  }

  lemma PieceOfIs(c: char)
    ensures IsPiece(PieceOf(c))
  {
  }

  /** Every value has a text: its compact form obeys the grammar. */
  lemma {:induction false} CompactIsGrammatical(j: Json)
    requires WellFormed(j)
    ensures Grammatical(Compact(j))
    decreases j
  {
    match j
    case Str(text) => PiecesOfAre(text);
    case Array(items) =>
      forall i | 0 <= i < |items|
        ensures GrammaticalItem(Tight(Compact(items[i])))
      {
        CompactIsGrammatical(items[i]);
      }
    case Object(fields) =>
      forall i | 0 <= i < |fields|
        ensures GrammaticalEntry(TightEntry(fields[i].key, Compact(fields[i].value)))
      {
        PiecesOfAre(fields[i].key);
        CompactIsGrammatical(fields[i].value);
      }
    case _ =>
  }

  // ---- What a text means ----

  function HexValue(c: char): (n: nat)
    requires IsHex(c)
    ensures n < 16
  {
    if c <= '9' then c as int - '0' as int
    else if c <= 'F' then c as int - 'A' as int + 10
    else c as int - 'a' as int + 10
  }

  function CodeUnit(p: Piece): (n: nat)
    requires p.Unicode? && IsPiece(p)
    ensures n < 0x1_0000
  {
    HexValue(p.hex[0]) * 0x1000 + HexValue(p.hex[1]) * 0x100 + HexValue(p.hex[2]) * 0x10 + HexValue(p.hex[3])
  }

  function ShortChar(c: char): char {
    match c
    case 'b' => 8 as char
    case 'f' => 12 as char
    case 'n' => '\n'
    case 'r' => '\r'
    case 't' => '\t'
    case _ => c
  }

  function Prepend(c: char, rest: Option<string>): Option<string> {
    match rest
    case None => None
    case Some(text) => Some([c] + text)
  }

  /** Section 7: two `\u` escapes may name one character as a surrogate pair; a lone surrogate names none. */
  function Unescape(pieces: seq<Piece>): Option<string>
    requires ArePieces(pieces)
    decreases |pieces|
  {
    if pieces == [] then Some("")
    else
      match pieces[0]
      case Plain(c) => Prepend(c, Unescape(pieces[1..]))
      case Short(c) => Prepend(ShortChar(c), Unescape(pieces[1..]))
      case Unicode(_) =>
        var u := CodeUnit(pieces[0]);
        if u < 0xD800 || 0xE000 <= u then Prepend(u as char, Unescape(pieces[1..]))
        else if u < 0xDC00 && |pieces| > 1 && pieces[1].Unicode? && 0xDC00 <= CodeUnit(pieces[1]) < 0xE000 then
          Prepend((0x1_0000 + (u - 0xD800) * 0x400 + (CodeUnit(pieces[1]) - 0xDC00)) as char, Unescape(pieces[2..]))
        else None
  }

  /** The value of a text; members keep their order. */
  function Meaning(s: Syntax): Option<Json>
    requires Grammatical(s)
    decreases s
  {
    match s
    case Word(text) => Some(if text == "null" then Null else Bool(text == "true"))
    case Digits(text) => Some(Number(text))
    case Quoted(pieces) =>
      (match Unescape(pieces)
       case None => None
       case Some(text) => Some(Str(text)))
    case Brackets(_, items) =>
      (match MeaningItems(items)
       case None => None
       case Some(values) => Some(Array(values)))
    case Braces(_, entries) =>
      (match MeaningEntries(entries)
       case None => None
       case Some(members) => Some(Object(members)))
  }

  function MeaningItems(items: seq<Item>): Option<seq<Json>>
    requires forall i | 0 <= i < |items| :: GrammaticalItem(items[i])
    decreases items
  {
    if items == [] then Some([])
    else
      assert GrammaticalItem(items[0]);
      var first, rest := Meaning(items[0].value), MeaningItems(items[1..]);
      if first.None? || rest.None? then None else Some([first.value] + rest.value)
  }

  function MeaningEntries(entries: seq<Entry>): Option<seq<Member>>
    requires forall i | 0 <= i < |entries| :: GrammaticalEntry(entries[i])
    decreases entries
  {
    if entries == [] then Some([])
    else
      assert GrammaticalEntry(entries[0]) && GrammaticalItem(entries[0].item);
      var key, first, rest := Unescape(entries[0].key), Meaning(entries[0].item.value), MeaningEntries(entries[1..]);
      if key.None? || first.None? || rest.None? then None else Some([Member(key.value, first.value)] + rest.value)
  }

  lemma {:induction false} UnescapeOf(text: string)
    ensures ArePieces(PiecesOf(text)) && Unescape(PiecesOf(text)) == Some(text)
    decreases |text|
  {
    if text != "" {
      UnescapeOf(text[1..]);
      UnescapeCons(text[0], PiecesOf(text[1..]), text[1..]);
      assert text == [text[0]] + text[1..];
    }
  }

  lemma UnescapeCons(c: char, pieces: seq<Piece>, text: string)
    requires ArePieces(pieces) && Unescape(pieces) == Some(text)
    ensures ArePieces([PieceOf(c)] + pieces) && Unescape([PieceOf(c)] + pieces) == Some([c] + text)
  {
    UnescapePiece(c);
    assert ([PieceOf(c)] + pieces)[1..] == pieces;
  }

  lemma UnescapePiece(c: char)
    ensures IsPiece(PieceOf(c))
    ensures match PieceOf(c)
            case Plain(d) => d == c
            case Short(d) => ShortChar(d) == c
            case Unicode(_) => CodeUnit(PieceOf(c)) == c as int < 0x20
  {
    PieceOfIs(c);
    if PieceOf(c).Unicode? {
      HexDigits(c as int);
    }
  }

  lemma HexDigits(n: nat)
    requires n < 0x20
    ensures var p := Unicode("00" + [HexDigit(n / 16), HexDigit(n % 16)]); IsPiece(p) && CodeUnit(p) == n
  {
    HexDigitValue(n / 16);
    HexDigitValue(n % 16);
  }

  lemma HexDigitValue(n: nat)
    requires n < 16
    ensures IsHex(HexDigit(n)) && HexValue(HexDigit(n)) == n
  {
  }

  /** The compact text of a value means that value. */
  lemma {:induction false} CompactMeans(j: Json)
    requires WellFormed(j)
    ensures Grammatical(Compact(j)) && Meaning(Compact(j)) == Some(j)
    decreases j, 0
  {
    CompactIsGrammatical(j);
    match j
    case Str(text) => UnescapeOf(text);
    case Array(items) => ItemsMean(items);
    case Object(fields) => EntriesMean(fields);
    case _ =>
  }

  function TightItems(items: seq<Json>): seq<Item> {
    seq(|items|, i requires 0 <= i < |items| => Tight(Compact(items[i])))
  }

  function TightEntries(fields: seq<Member>): seq<Entry> {
    seq(|fields|, i requires 0 <= i < |fields| => TightEntry(fields[i].key, Compact(fields[i].value)))
  }

  lemma {:induction false} ItemsMean(items: seq<Json>)
    requires forall i | 0 <= i < |items| :: WellFormed(items[i])
    ensures forall i | 0 <= i < |items| :: GrammaticalItem(TightItems(items)[i])
    ensures MeaningItems(TightItems(items)) == Some(items)
    decreases items, 0
  {
    if items != [] {
      CompactMeans(items[0]);
      ItemsMean(items[1..]);
      assert TightItems(items)[1..] == TightItems(items[1..]);
      assert forall i | 1 <= i < |items| :: TightItems(items)[i] == TightItems(items[1..])[i - 1];
      assert items == [items[0]] + items[1..];
    }
  }

  lemma EntryMeans(key: string, value: Syntax)
    requires Grammatical(value)
    ensures var e := TightEntry(key, value); GrammaticalEntry(e) && Unescape(e.key) == Some(key) && e.item.value == value
  {
    UnescapeOf(key);
  }

  /** Adding an entry in front adds its member in front. */
  lemma MeaningCons(e: Entry, entries: seq<Entry>)
    requires GrammaticalEntry(e) && ArePieces(e.key) && Grammatical(e.item.value)
    requires forall i | 0 <= i < |entries| :: GrammaticalEntry(entries[i])
    ensures forall i | 0 <= i < |[e] + entries| :: GrammaticalEntry(([e] + entries)[i])
    ensures var key, first, rest := Unescape(e.key), Meaning(e.item.value), MeaningEntries(entries);
            key.Some? && first.Some? && rest.Some? ==>
              MeaningEntries([e] + entries) == Some([Member(key.value, first.value)] + rest.value)
  {
    var all := [e] + entries;
    forall i | 0 <= i < |all|
      ensures GrammaticalEntry(all[i])
    {
      assert i > 0 ==> all[i] == entries[i - 1];
    }
    assert all[1..] == entries;
  }

  lemma {:induction false} EntriesMean(fields: seq<Member>)
    requires forall i | 0 <= i < |fields| :: WellFormed(fields[i].value)
    ensures forall i | 0 <= i < |fields| :: GrammaticalEntry(TightEntries(fields)[i])
    ensures MeaningEntries(TightEntries(fields)) == Some(fields)
    decreases fields, 0
  {
    if fields != [] {
      var first := TightEntry(fields[0].key, Compact(fields[0].value));
      CompactMeans(fields[0].value);
      EntryMeans(fields[0].key, Compact(fields[0].value));
      EntriesMean(fields[1..]);
      MeaningCons(first, TightEntries(fields[1..]));
      assert TightEntries(fields) == [first] + TightEntries(fields[1..]);
      assert fields == [Member(fields[0].key, fields[0].value)] + fields[1..];
    }
  }
}
