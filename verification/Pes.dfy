/** Wrapping DVB subtitle packets as an MPEG packetized elementary stream. */
module Pes {
  import opened Wrappers

  type Byte = n: nat | n < 256

  const MAX_MPEG_PTS := 0x1_FFFF_FFFF
  const U128 := 0x1_0000_0000_0000_0000_0000_0000_0000_0000

  datatype PesError = NoPts | NoData | NegativePts | RescaleOverflow | PtsTooLarge | PacketTooLarge | NoPackets

  // ---- Time stamps ----

  /** `pts` in units of `numerator / denominator` seconds, in units of 1/90000 second. */
  function Rescale(pts: int, numerator: nat, denominator: nat): Result<nat, PesError>
    requires denominator > 0
  {
    if pts < 0 then Err(NegativePts)
    else if pts * numerator >= U128 || pts * numerator * 90_000 >= U128 then Err(RescaleOverflow)
    else
      var scaled := pts * numerator * 90_000 / denominator;
      if scaled > MAX_MPEG_PTS then Err(PtsTooLarge) else Ok(scaled)
  }

  lemma DivideBounds(a: nat, d: nat)
    requires d > 0
    ensures a / d * d <= a < (a / d + 1) * d
  {
  }

  lemma DivideAtMost(a: nat, d: nat, bound: nat)
    requires d > 0
    ensures a / d <= bound <==> a < (bound + 1) * d
  {
    DivideBounds(a, d);
    if a / d <= bound {
      Scale(a / d + 1, bound + 1, d);
    } else {
      Scale(bound + 1, a / d, d);
    }
  }

  lemma Scale(a: nat, b: nat, d: nat)
    requires a <= b
    ensures a * d <= b * d
  {
  }

  /** The exact ticks that `value` periods stand for, before division. */
  function Ticks(pts: nat, numerator: nat): nat {
    pts * numerator * 90_000
  }

  /**
   * A time stamp is accepted if and only if it is not negative, its scaled product fits in 128 bits and the result
   * in 33; the result is then the exact floor.
   */
  lemma RescaleIsFloor(pts: int, numerator: nat, denominator: nat)
    requires numerator > 0 && denominator > 0
    ensures Rescale(pts, numerator, denominator).Ok? <==>
            pts >= 0 && Ticks(pts, numerator) < U128 && Ticks(pts, numerator) < 0x2_0000_0000 * denominator
    ensures Rescale(pts, numerator, denominator).Err? ==>
              Rescale(pts, numerator, denominator).error == if pts < 0 then NegativePts
                                                            else if Ticks(pts, numerator) >= U128 then RescaleOverflow
                                                            else PtsTooLarge
    ensures Rescale(pts, numerator, denominator).Ok? ==>
              var v := Rescale(pts, numerator, denominator).value;
              v <= MAX_MPEG_PTS && v * denominator <= Ticks(pts, numerator) < (v + 1) * denominator
  {
    if pts >= 0 {
      assert 0 <= pts * numerator;
      DivideBounds(Ticks(pts, numerator), denominator);
      DivideAtMost(Ticks(pts, numerator), denominator, MAX_MPEG_PTS);
    }
  }

  /** Later packets never get earlier time stamps. */
  lemma RescaleIsMonotone(a: int, b: int, numerator: nat, denominator: nat)
    requires numerator > 0 && denominator > 0 && a <= b
    requires Rescale(a, numerator, denominator).Ok? && Rescale(b, numerator, denominator).Ok?
    ensures Rescale(a, numerator, denominator).value <= Rescale(b, numerator, denominator).value
  {
    Scale(a, b, numerator);
    var x, y := Ticks(a, numerator), Ticks(b, numerator);
    assert x <= y;
    DivideBounds(x, denominator);
    DivideBounds(y, denominator);
    if x / denominator > y / denominator {
      Scale(y / denominator + 1, x / denominator, denominator);
    }
  }

  /** Time stamps that already count 1/90000 seconds are kept as they are. */
  lemma RescaleKeepsTicks(pts: nat)
    requires pts <= MAX_MPEG_PTS
    ensures Rescale(pts, 1, 90_000) == Ok(pts)
  {
  }

  /** The five bytes of a time stamp; shifts and masks are written as divisions and remainders. */
  function EncodeMpegPts(pts: nat): seq<Byte> {
    [0x21 + 2 * (pts / 0x4000_0000 % 8),
     pts / 0x40_0000 % 256,
     0x01 + 2 * (pts / 0x8000 % 128),
     pts / 0x80 % 256,
     0x01 + 2 * (pts % 128)]
  }

  // ---- Framing ----

  /** One access unit: its time stamp in 90 kHz ticks and its bytes. */
  datatype Unit = Unit(pts: nat, payload: seq<Byte>)

  function Frame(unit: Unit): Result<seq<Byte>, PesError> {
    var length := |unit.payload| + 8;
    if length > 0xFFFF then Err(PacketTooLarge)
    else Ok([0x00, 0x00, 0x01, 0xbd, length / 256, length % 256, 0x80, 0x80, 0x05]
            + EncodeMpegPts(unit.pts) + unit.payload)
  }

  /** A packet as ffprobe reports it. */
  datatype Packet = Packet(pts: Option<int>, data: Option<seq<Byte>>)

  function ToUnit(packet: Packet, numerator: nat, denominator: nat): Result<Unit, PesError>
    requires denominator > 0
  {
    if packet.pts.None? then Err(NoPts)
    else if packet.data.None? then Err(NoData)
    else
      match Rescale(packet.pts.value, numerator, denominator)
      case Err(e) => Err(e)
      case Ok(pts) => Ok(Unit(pts, packet.data.value))
  }

  /** The units of all packets, or the first error. */
  function ToUnits(packets: seq<Packet>, numerator: nat, denominator: nat): Result<seq<Unit>, PesError>
    requires denominator > 0
  {
    if packets == [] then Ok([])
    else
      match ToUnits(packets[..|packets| - 1], numerator, denominator)
      case Err(e) => Err(e)
      case Ok(units) =>
        match ToUnit(packets[|packets| - 1], numerator, denominator)
        case Err(e) => Err(e)
        case Ok(unit) => if Frame(unit).Err? then Err(Frame(unit).error) else Ok(units + [unit])
  }

  predicate Framable(units: seq<Unit>) {
    forall i | 0 <= i < |units| :: Frame(units[i]).Ok?
  }

  function Frames(units: seq<Unit>): seq<seq<Byte>>
    requires Framable(units)
  {
    seq(|units|, i requires 0 <= i < |units| => Frame(units[i]).value)
  }

  function Join(frames: seq<seq<Byte>>): seq<Byte> {
    if frames == [] then [] else frames[0] + Join(frames[1..])
  }

  lemma {:induction false} JoinSnoc(frames: seq<seq<Byte>>, frame: seq<Byte>)
    ensures Join(frames + [frame]) == Join(frames) + frame
  {
    if frames == [] {
      assert [frame][1..] == [];
      assert Join(frames + [frame]) == frame;
    } else {
      assert (frames + [frame])[1..] == frames[1..] + [frame];
      JoinSnoc(frames[1..], frame);
    }
  }

  lemma {:induction false} UnitsFrame(packets: seq<Packet>, numerator: nat, denominator: nat)
    requires denominator > 0 && ToUnits(packets, numerator, denominator).Ok?
    ensures var units := ToUnits(packets, numerator, denominator).value;
            && |units| == |packets|
            && forall i | 0 <= i < |units| ::
                 Frame(units[i]).Ok? && units[i].pts <= MAX_MPEG_PTS
                 && ToUnit(packets[i], numerator, denominator) == Ok(units[i])
  {
    if packets != [] {
      UnitsFrame(packets[..|packets| - 1], numerator, denominator);
    }
  }

  /** An error anywhere is an error of the whole. */
  lemma {:induction false} FirstErrorWins(packets: seq<Packet>, n: nat, numerator: nat, denominator: nat)
    requires denominator > 0 && n <= |packets| && ToUnits(packets[..n], numerator, denominator).Err?
    ensures ToUnits(packets, numerator, denominator) == ToUnits(packets[..n], numerator, denominator)
  {
    if n < |packets| {
      assert packets[..|packets| - 1][..n] == packets[..n];
      FirstErrorWins(packets[..|packets| - 1], n, numerator, denominator);
    } else {
      assert packets[..n] == packets;
    }
  }

  /** The packet loop. */
  method ExtractDvbSubtitle(packets: seq<Packet>, numerator: nat, denominator: nat)
    returns (r: Result<seq<Byte>, PesError>)
    requires denominator > 0
    ensures var units := ToUnits(packets, numerator, denominator);
            if units.Err? then r == Err(units.error)
            else if packets == [] then r == Err(NoPackets)
            else Framable(units.value) && r == Ok(Join(Frames(units.value)))
  {
    var pes: seq<Byte> := [];
    ghost var units: seq<Unit> := [];
    for i := 0 to |packets|
      invariant ToUnits(packets[..i], numerator, denominator) == Ok(units)
      invariant Framable(units) && pes == Join(Frames(units))
      invariant pes == [] <==> i == 0
    {
      assert packets[..i + 1][..i] == packets[..i];
      var unit := ToUnit(packets[i], numerator, denominator);
      var framed := if unit.Err? then Err(unit.error) else Frame(unit.value);
      if framed.Err? {
        FirstErrorWins(packets, i + 1, numerator, denominator);
        return Err(framed.error);
      }
      pes := pes + framed.value;
      assert Frames(units + [unit.value]) == Frames(units) + [framed.value];
      JoinSnoc(Frames(units), framed.value);
      units := units + [unit.value];
    }
    assert packets[..|packets|] == packets;
    if pes == [] {
      return Err(NoPackets);
    }
    r := Ok(pes);
  }

  // ---- A decoder after ISO/IEC 13818-1 ----

  /** Section 2.4.3.7: the 33 bits of a time stamp between its fixed and marker bits. */
  function DecodePts(b: seq<Byte>): Option<nat>
    requires |b| == 5
  {
    if b[0] / 16 == 2 && b[0] % 2 == 1 && b[2] % 2 == 1 && b[4] % 2 == 1 then
      Some((b[0] / 2 % 8) as int * 0x4000_0000 + b[1] as int * 0x40_0000 + (b[2] / 2) as int * 0x8000
           + b[3] as int * 0x80 + (b[4] / 2) as int)
    else None
  }

  /** What a PES packet of private stream 1 carries, its priority, alignment and copyright bits, and its size. */
  datatype Parsed = Parsed(unit: Unit, marks: nat, size: nat)

  /** How long the header fields are that the second flag byte announces after the time stamp. */
  function OptionalBytes(flags: nat): nat {
    (if flags / 32 % 2 == 1 then 6 else 0) + (if flags / 16 % 2 == 1 then 3 else 0)
    + (if flags / 8 % 2 == 1 then 1 else 0) + (if flags / 4 % 2 == 1 then 1 else 0)
    + (if flags / 2 % 2 == 1 then 2 else 0) + (if flags % 2 == 1 then 1 else 0)
  }

  /**
   * Section 2.4.3.6 for an unscrambled packet that has a presentation time stamp and no decoding one: start code
   * prefix, stream identifier, packet length, flags, header length, time stamp, the announced fields, stuffing and
   * the payload.
   */
  function ParsePacket(b: seq<Byte>): (r: Option<Parsed>)
    ensures r.Some? ==> 0 < r.value.size <= |b|
  {
    if |b| < 14 || b[..4] != [0x00, 0x00, 0x01, 0xbd] then None
    else
      var size, header := 6 + b[4] as int * 256 + b[5] as int, 9 + b[8] as int;
      var fields := 14 + OptionalBytes(b[7]);
      if size > |b| || b[6] / 16 != 8 || b[7] / 64 != 2 || fields > header || header > size then None
      else if b[7] % 2 == 0 && exists i | fields <= i < header :: b[i] != 0xff then None
      else
        match DecodePts(b[9..14])
        case None => None
        case Some(pts) => Some(Parsed(Unit(pts, b[header..size]), b[6] % 16, size))
  }

  type PacketParser = seq<Byte> -> Option<Parsed>

  /** A whole stream, packet after packet. */
  function ParseWith(parser: PacketParser, b: seq<Byte>): Option<seq<Unit>>
    decreases |b|
  {
    if b == [] then Some([])
    else
      var p := parser(b);
      if p.None? || p.value.size == 0 || p.value.size > |b| then None
      else
        match ParseWith(parser, b[p.value.size..])
        case None => None
        case Some(rest) => Some([p.value.unit] + rest)
  }

  function Parse(b: seq<Byte>): Option<seq<Unit>> {
    ParseWith(ParsePacket, b)
  }

  lemma PtsRoundTrip(pts: nat)
    requires pts <= MAX_MPEG_PTS
    ensures DecodePts(EncodeMpegPts(pts)) == Some(pts)
  {
    PtsDigits(pts);
  }

  /** A 33-bit number is its top three bits and four groups of 8, 7, 8 and 7 bits. */
  lemma PtsDigits(pts: nat)
    requires pts <= MAX_MPEG_PTS
    ensures pts / 0x4000_0000 % 8 * 0x4000_0000 + pts / 0x40_0000 % 256 * 0x40_0000 + pts / 0x8000 % 128 * 0x8000
            + pts / 0x80 % 256 * 0x80 + pts % 128 == pts
  {
    var a := pts / 0x80;
    var b := a / 256;
    var c := b / 128;
    var d := c / 256;
    assert b == pts / 0x8000 && c == pts / 0x40_0000 && d == pts / 0x4000_0000;
  }

  lemma PacketRoundTrip(unit: Unit, rest: seq<Byte>)
    requires unit.pts <= MAX_MPEG_PTS && Frame(unit).Ok?
    ensures ParsePacket(Frame(unit).value + rest) == Some(Parsed(unit, 0, |Frame(unit).value|))
  {
    var f := Frame(unit).value;
    var b := f + rest;
    PtsRoundTrip(unit.pts);
    assert b[..4] == [0x00, 0x00, 0x01, 0xbd];
    assert b[9..14] == EncodeMpegPts(unit.pts);
    assert b[14..|f|] == unit.payload;
  }

  /** Whatever follows `f`, the parser takes exactly `f` off the front and reads `unit` from it. */
  ghost predicate Yields(parser: PacketParser, f: seq<Byte>, unit: Unit) {
    f != [] && forall rest :: parser(f + rest) == Some(Parsed(unit, 0, |f|))
  }

  lemma PacketYields(unit: Unit)
    requires unit.pts <= MAX_MPEG_PTS && Frame(unit).Ok?
    ensures Yields(ParsePacket, Frame(unit).value, unit)
  {
    forall rest
      ensures ParsePacket(Frame(unit).value + rest) == Some(Parsed(unit, 0, |Frame(unit).value|))
    {
      PacketRoundTrip(unit, rest);
    }
  }

  lemma ParseOne(parser: PacketParser, f: seq<Byte>, unit: Unit, rest: seq<Byte>)
    requires Yields(parser, f, unit)
    ensures var r := ParseWith(parser, rest);
            ParseWith(parser, f + rest) == if r.None? then None else Some([unit] + r.value)
  {
    assert (f + rest)[|f|..] == rest;
  }

  lemma {:induction false} ParseJoined(parser: PacketParser, frames: seq<seq<Byte>>, units: seq<Unit>)
    requires |frames| == |units| && forall i | 0 <= i < |units| :: Yields(parser, frames[i], units[i])
    ensures ParseWith(parser, Join(frames)) == Some(units)
    decreases |frames|
  {
    if frames != [] {
      ParseJoined(parser, frames[1..], units[1..]);
      ParseOne(parser, frames[0], units[0], Join(frames[1..]));
      assert [units[0]] + units[1..] == units;
    }
  }

  lemma ParseFrames(units: seq<Unit>)
    requires Framable(units) && forall i | 0 <= i < |units| :: units[i].pts <= MAX_MPEG_PTS
    ensures Parse(Join(Frames(units))) == Some(units)
  {
    var frames := Frames(units);
    forall i | 0 <= i < |units|
      ensures Yields(ParsePacket, frames[i], units[i])
    {
      PacketYields(units[i]);
    }
    ParseJoined(ParsePacket, frames, units);
  }

  /**
   * Whatever the packet loop writes, the decoder reads back as exactly the packets' payloads, each with the floor
   * of its time stamp.
   */
  lemma ExtractedParses(packets: seq<Packet>, numerator: nat, denominator: nat)
    requires denominator > 0 && ToUnits(packets, numerator, denominator).Ok?
    ensures var units := ToUnits(packets, numerator, denominator).value;
            && Framable(units)
            && |units| == |packets|
            && Parse(Join(Frames(units))) == Some(units)
            && forall i | 0 <= i < |packets| ::
                 && packets[i].data == Some(units[i].payload)
                 && packets[i].pts.Some?
                 && Rescale(packets[i].pts.value, numerator, denominator) == Ok(units[i].pts)
  {
    var units := ToUnits(packets, numerator, denominator).value;
    UnitsFrame(packets, numerator, denominator);
    ParseFrames(units);
  }

  /** Why a packet is refused: no time stamp comes before no data, and both before a time stamp that does not fit. */
  lemma UnitErrors(packet: Packet, numerator: nat, denominator: nat)
    requires denominator > 0
    ensures (ToUnit(packet, numerator, denominator) == Err(NoPts) <==> packet.pts.None?)
            && (ToUnit(packet, numerator, denominator) == Err(NoData) <==> packet.pts.Some? && packet.data.None?)
            && (packet.pts.Some? && packet.data.Some? ==>
                  (ToUnit(packet, numerator, denominator).Ok? <==> Rescale(packet.pts.value, numerator, denominator).Ok?))
  {
  }

  /** Packets all convert if and only if each has a time stamp that rescales and data short enough for one packet. */
  lemma {:induction false} UnitsExist(packets: seq<Packet>, numerator: nat, denominator: nat)
    requires denominator > 0
    ensures ToUnits(packets, numerator, denominator).Ok? <==>
            forall i | 0 <= i < |packets| ::
              && packets[i].pts.Some? && Rescale(packets[i].pts.value, numerator, denominator).Ok?
              && packets[i].data.Some? && |packets[i].data.value| <= 0xFFFF - 8
  {
    if packets != [] {
      var init, last := packets[..|packets| - 1], packets[|packets| - 1];
      assert packets == init + [last];
      UnitsExist(init, numerator, denominator);
    }
  }
}
