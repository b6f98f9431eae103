/** Draining a pipe: capture every byte and deliver complete lines as they arrive. */
module LineReader {
  import opened Wrappers
  import opened Machine
  import opened CaptureBuffer

  const PROGRESS_LINE_LIMIT := 64 * 1024
  const NEWLINE: byte := 10

  /** Lossy decoding followed by trimming, as applied to each delivered line. */
  type Decoder = seq<byte> -> string

  // ---- What a stream's lines are ----

  /** The stream cut at its newlines; the last piece is what follows the last newline. */
  function Pieces(stream: seq<byte>): (ps: seq<seq<byte>>)
    ensures |ps| > 0
  {
    if stream == [] then [[]]
    else
      var ps := Pieces(stream[..|stream| - 1]);
      var b := stream[|stream| - 1];
      if b == NEWLINE then ps + [[]]
      else ps[..|ps| - 1] + [ps[|ps| - 1] + [b]]
  }

  function Join(ps: seq<seq<byte>>): seq<byte>
    requires |ps| > 0
  {
    if |ps| == 1 then ps[0] else Join(ps[..|ps| - 1]) + [NEWLINE] + ps[|ps| - 1]
  }

  predicate NoNewline(piece: seq<byte>) {
    NEWLINE !in piece
  }

  lemma PiecesSnoc(stream: seq<byte>, b: byte)
    ensures var ps := Pieces(stream);
            Pieces(stream + [b]) ==
            if b == NEWLINE then ps + [[]] else ps[..|ps| - 1] + [ps[|ps| - 1] + [b]]
  {
    assert (stream + [b])[..|stream|] == stream;
  }

  lemma ExtendLast(init: seq<seq<byte>>, cut: seq<byte>, b: byte)
    requires Pieces(Join(init + [cut])) == init + [cut] && b != NEWLINE
    ensures Pieces(Join(init + [cut + [b]])) == init + [cut + [b]]
  {
    var ps, qs := init + [cut], init + [cut + [b]];
    assert ps[..|init|] == init && qs[..|init|] == init;
    JoinLast(ps);
    JoinLast(qs);
    assert Join(qs) == Join(ps) + [b];
    PiecesSnoc(Join(ps), b);
  }

  lemma StartLine(init: seq<seq<byte>>)
    requires init != [] && Pieces(Join(init)) == init
    ensures Pieces(Join(init + [[]])) == init + [[]]
  {
    JoinLast(init + [[]]);
    assert (init + [[]])[..|init|] == init;
    assert Join(init + [[]]) == Join(init) + [NEWLINE];
    PiecesSnoc(Join(init), NEWLINE);
  }

  /** The pieces are the only newline-free sequences that join to the stream. */
  lemma {:induction false} PiecesAreTheLines(ps: seq<seq<byte>>)
    requires |ps| > 0 && forall i | 0 <= i < |ps| :: NoNewline(ps[i])
    ensures Pieces(Join(ps)) == ps
    decreases |ps|, |ps[|ps| - 1]|
  {
    var init, last := ps[..|ps| - 1], ps[|ps| - 1];
    assert ps == init + [last];
    if last != [] {
      var cut, b := last[..|last| - 1], last[|last| - 1];
      assert last == cut + [b] && NoNewline(last);
      PiecesAreTheLines(init + [cut]);
      ExtendLast(init, cut, b);
    } else if init != [] {
      PiecesAreTheLines(init);
      StartLine(init);
    }
  }

  lemma JoinLast(ps: seq<seq<byte>>)
    requires |ps| > 0
    ensures Join(ps) == (if |ps| == 1 then [] else Join(ps[..|ps| - 1]) + [NEWLINE]) + ps[|ps| - 1]
  {
  }

  lemma {:induction false} JoinPieces(stream: seq<byte>)
    ensures Join(Pieces(stream)) == stream
  {
    if stream != [] {
      var init, b := stream[..|stream| - 1], stream[|stream| - 1];
      JoinPieces(init);
      var before, after := Pieces(init), Pieces(stream);
      JoinLast(before);
      JoinLast(after);
      assert after[..|after| - 1] == if b == NEWLINE then before else before[..|before| - 1];
      assert Join(after) == init + [b];
    }
  }

  lemma {:induction false} PiecesHaveNoNewline(stream: seq<byte>, i: nat)
    requires i < |Pieces(stream)|
    ensures NoNewline(Pieces(stream)[i])
  {
    if stream != [] {
      var before := Pieces(stream[..|stream| - 1]);
      if i < |before| {
        PiecesHaveNoNewline(stream[..|stream| - 1], i);
      }
    }
  }

  /** Over-long lines are dropped whole. */
  function Kept(decode: Decoder, ps: seq<seq<byte>>): seq<string> {
    if ps == [] then []
    else Kept(decode, ps[..|ps| - 1])
         + if |ps[|ps| - 1]| <= PROGRESS_LINE_LIMIT then [decode(ps[|ps| - 1])] else []
  }

  /** The lines delivered while the stream is still open. */
  function Terminated(decode: Decoder, stream: seq<byte>): seq<string> {
    var ps := Pieces(stream);
    Kept(decode, ps[..|ps| - 1])
  }

  /** The line delivered at end of file: a non-empty final fragment that is not over-long. */
  function Fragment(decode: Decoder, stream: seq<byte>): seq<string> {
    var last := Open(stream);
    if last != [] && |last| <= PROGRESS_LINE_LIMIT then [decode(last)] else []
  }

  function Lines(decode: Decoder, stream: seq<byte>): seq<string> {
    Terminated(decode, stream) + Fragment(decode, stream)
  }

  /** The lines that should come out: every piece of at most 65536 bytes, decoded, in order. */
  function Wanted(decode: Decoder, pieces: seq<seq<byte>>): seq<string> {
    if pieces == [] then []
    else (if |pieces[0]| <= 65_536 then [decode(pieces[0])] else []) + Wanted(decode, pieces[1..])
  }

  lemma {:induction false} WantedSnoc(decode: Decoder, pieces: seq<seq<byte>>, last: seq<byte>)
    ensures Wanted(decode, pieces + [last])
            == Wanted(decode, pieces) + if |last| <= 65_536 then [decode(last)] else []
    decreases |pieces|
  {
    if pieces == [] {
      assert pieces + [last] == [last] && [last][1..] == [];
    } else {
      assert (pieces + [last])[1..] == pieces[1..] + [last];
      WantedSnoc(decode, pieces[1..], last);
    }
  }

  lemma {:induction false} KeptIsWanted(decode: Decoder, ps: seq<seq<byte>>)
    ensures Kept(decode, ps) == Wanted(decode, ps)
    decreases |ps|
  {
    if ps != [] {
      KeptIsWanted(decode, ps[..|ps| - 1]);
      WantedSnoc(decode, ps[..|ps| - 1], ps[|ps| - 1]);
      assert ps == ps[..|ps| - 1] + [ps[|ps| - 1]];
    }
  }

  /** For a stream of newline-separated pieces the lines are the pieces wanted, the last one only if it is not empty. */
  lemma LinesAreWanted(decode: Decoder, ps: seq<seq<byte>>)
    requires |ps| > 0 && forall i | 0 <= i < |ps| :: NEWLINE !in ps[i]
    ensures Lines(decode, Join(ps)) == Wanted(decode, if ps[|ps| - 1] == [] then ps[..|ps| - 1] else ps)
  {
    forall i | 0 <= i < |ps|
      ensures NoNewline(ps[i])
    {
    }
    PiecesAreTheLines(ps);
    LinesOfPieces(decode, Join(ps), ps);
  }

  lemma LinesOfPieces(decode: Decoder, stream: seq<byte>, ps: seq<seq<byte>>)
    requires Pieces(stream) == ps && |ps| > 0
    ensures Lines(decode, stream) == Wanted(decode, if ps[|ps| - 1] == [] then ps[..|ps| - 1] else ps)
  {
    var init, last := ps[..|ps| - 1], ps[|ps| - 1];
    KeptIsWanted(decode, init);
    WantedSnoc(decode, init, last);
    assert ps == init + [last];
  }

  // ---- The reader ----

  /** A read that returns no bytes is end of file, so data is never empty. */
  type Filled = s: seq<byte> | |s| > 0 witness [NEWLINE]

  /** What one read call returns before end of file. */
  datatype Read = Data(bytes: Filled) | Interrupted | Failed

  /** The bytes read before the first failure. */
  function Received(calls: seq<Read>): seq<byte> {
    if calls == [] then []
    else
      var init, last := calls[..|calls| - 1], calls[|calls| - 1];
      if Fails(init) || !last.Data? then Received(init) else Received(init) + last.bytes
  }

  predicate Fails(calls: seq<Read>) {
    exists i | 0 <= i < |calls| :: calls[i].Failed?
  }

  predicate Overflowed(policy: Policy, stream: seq<byte>) {
    policy.failOnOverflow && Min(|stream|, USIZE_MAX) > policy.limit
  }

  /** Feed bytes to the line splitter; at most one line is held, cut at the limit. */
  method FeedBytes(decode: Decoder, bytes: seq<byte>, line: seq<byte>, overlong: bool, ghost stream: seq<byte>)
    returns (newLine: seq<byte>, newOverlong: bool, sent: seq<string>)
    requires Splitting(stream, line, overlong)
    ensures Splitting(stream + bytes, newLine, newOverlong)
    ensures Terminated(decode, stream + bytes) == Terminated(decode, stream) + sent
    ensures |newLine| <= PROGRESS_LINE_LIMIT
  {
    newLine, newOverlong, sent := line, overlong, [];
    ghost var seen := stream;
    for i := 0 to |bytes|
      invariant seen == stream + bytes[..i]
      invariant Splitting(seen, newLine, newOverlong)
      invariant Terminated(decode, seen) == Terminated(decode, stream) + sent
    {
      var more;
      newLine, newOverlong, more := FeedByte(decode, bytes[i], newLine, newOverlong, seen);
      sent := sent + more;
      seen := seen + [bytes[i]];
    }
    assert bytes[..|bytes|] == bytes;
  }

  method FeedByte(decode: Decoder, b: byte, line: seq<byte>, overlong: bool, ghost stream: seq<byte>)
    returns (newLine: seq<byte>, newOverlong: bool, sent: seq<string>)
    requires Splitting(stream, line, overlong)
    ensures Splitting(stream + [b], newLine, newOverlong)
    ensures Terminated(decode, stream + [b]) == Terminated(decode, stream) + sent
  {
    newLine, newOverlong, sent := line, overlong, [];
    PiecesStep(decode, stream, b);
    assert Terminated(decode, stream) + [] == Terminated(decode, stream);
    if b == NEWLINE {
      if !overlong {
        sent := [decode(line)];
      }
      newLine := [];
      newOverlong := false;
    } else if |line| < PROGRESS_LINE_LIMIT {
      newLine := line + [b];
    } else {
      newOverlong := true;
    }
  }

  /** The splitter's state after `stream`: the last piece cut at the limit, and whether it was cut. */
  ghost predicate Splitting(stream: seq<byte>, line: seq<byte>, overlong: bool) {
    var last := Open(stream);
    if |last| <= PROGRESS_LINE_LIMIT then line == last && !overlong
    else line == last[..PROGRESS_LINE_LIMIT] && overlong
  }

  /** What follows the last newline. */
  function Open(stream: seq<byte>): seq<byte> {
    var ps := Pieces(stream);
    ps[|ps| - 1]
  }

  lemma PiecesStep(decode: Decoder, stream: seq<byte>, b: byte)
    ensures Open(stream + [b]) == if b == NEWLINE then [] else Open(stream) + [b]
    ensures Terminated(decode, stream + [b]) ==
            Terminated(decode, stream)
            + if b == NEWLINE && |Open(stream)| <= PROGRESS_LINE_LIMIT then [decode(Open(stream))] else []
  {
    var ps := Pieces(stream);
    PiecesSnoc(stream, b);
    assert Terminated(decode, stream) + [] == Terminated(decode, stream);
    if b == NEWLINE {
      assert (ps + [[]])[..|ps|] == ps;
    } else {
      var qs := Pieces(stream + [b]);
      assert qs[..|qs| - 1] == ps[..|ps| - 1];
    }
  }

  /** Reading on only appends lines, at most one for each byte. */
  lemma {:induction false} TerminatedGrows(decode: Decoder, stream: seq<byte>, bytes: seq<byte>)
    ensures Terminated(decode, stream) <= Terminated(decode, stream + bytes)
    ensures |Terminated(decode, stream + bytes)| <= |Terminated(decode, stream)| + |bytes|
  {
    if bytes == [] {
      assert stream + bytes == stream;
    } else {
      var init, b := bytes[..|bytes| - 1], bytes[|bytes| - 1];
      TerminatedGrows(decode, stream, init);
      PiecesStep(decode, stream + init, b);
      assert stream + bytes == stream + init + [b];
    }
  }

  /**
   * Whatever the cuts between reads, the reader delivers the stream's lines, captures the stream under the
   * policy, and raises the overflow flag exactly when a strict capture ran over.
   */
  method ReadStream(decode: Decoder, calls: seq<Read>, policy: Policy, delivering: bool)
    returns (r: Result<Captured, ()>, sent: seq<string>, overflow: bool)
    ensures r.Err? <==> Fails(calls)
    ensures r.Ok? && (policy.limit < USIZE_MAX || |Received(calls)| <= USIZE_MAX) ==>
              r.value == Capture(policy, Received(calls))
    ensures sent == if !delivering then []
                    else if Fails(calls) then Terminated(decode, Received(calls))
                    else Lines(decode, Received(calls))
    ensures overflow <==> Overflowed(policy, Received(calls))
  {
    var output := new OutputBuffer(policy);
    var line, overlong := [], false;
    overflow, sent := false, [];
    DeliveredNothing(decode, delivering);
    assert calls[..0] == [];
    for i := 0 to |calls|
      invariant fresh(output) && output.Valid() && output.policy == policy && !Fails(calls[..i])
      invariant output.stream == Received(calls[..i])
      invariant overflow <==> Overflowed(policy, output.stream)
      invariant Delivered(decode, delivering, output.stream, line, overlong, sent)
    {
      if calls[i].Failed? {
        FailureEnds(calls, i);
        return Err(()), sent, overflow;
      }
      ReceivedStep(calls, i);
      if calls[i].Data? {
        line, overlong, sent := Deliver(decode, delivering, calls[i].bytes, line, overlong, sent, output.stream);
        var raised := PushChecked(output, calls[i].bytes);
        overflow := overflow || raised;
      }
    }
    assert calls[..|calls|] == calls;
    sent := sent + if delivering then FlushLine(decode, line, overlong, output.stream) else [];
    var captured := output.Finish();
    r := Ok(captured);
  }

  /** Capture bytes and report whether a strict capture has now run over. */
  method PushChecked(output: OutputBuffer, bytes: seq<byte>) returns (raised: bool)
    requires output.Valid()
    modifies output
    ensures output.Valid() && output.stream == old(output.stream) + bytes
    ensures raised <==> Overflowed(output.policy, output.stream)
    ensures Overflowed(output.policy, old(output.stream)) ==> raised
  {
    output.Push(bytes);
    raised := output.policy.failOnOverflow && output.total > output.policy.limit;
  }

  ghost predicate Delivered(decode: Decoder, delivering: bool, stream: seq<byte>, line: seq<byte>, overlong: bool,
                            sent: seq<string>)
  {
    if delivering then Splitting(stream, line, overlong) && sent == Terminated(decode, stream) else sent == []
  }

  lemma DeliveredNothing(decode: Decoder, delivering: bool)
    ensures Delivered(decode, delivering, [], [], false, [])
  {
  }

  method Deliver(decode: Decoder, delivering: bool, bytes: seq<byte>, line: seq<byte>, overlong: bool,
                 sent: seq<string>, ghost stream: seq<byte>)
    returns (newLine: seq<byte>, newOverlong: bool, newSent: seq<string>)
    requires Delivered(decode, delivering, stream, line, overlong, sent)
    ensures Delivered(decode, delivering, stream + bytes, newLine, newOverlong, newSent)
  {
    newLine, newOverlong, newSent := line, overlong, sent;
    if delivering {
      var more;
      newLine, newOverlong, more := FeedBytes(decode, bytes, line, overlong, stream);
      newSent := sent + more;
    }
  }

  function FlushLine(decode: Decoder, line: seq<byte>, overlong: bool, ghost stream: seq<byte>): (sent: seq<string>)
    requires Splitting(stream, line, overlong)
    ensures sent == Fragment(decode, stream)
  {
    if line != [] && !overlong then [decode(line)] else []
  }

  lemma ReceivedStep(calls: seq<Read>, i: nat)
    requires i < |calls| && !Fails(calls[..i]) && !calls[i].Failed?
    ensures !Fails(calls[..i + 1])
    ensures Received(calls[..i + 1]) == Received(calls[..i]) + if calls[i].Data? then calls[i].bytes else []
  {
    assert calls[..i + 1][..i] == calls[..i];
    assert forall j | 0 <= j < i :: calls[..i + 1][j] == calls[..i][j];
    assert Received(calls[..i]) + [] == Received(calls[..i]);
  }

  lemma {:induction false} FailureEnds(calls: seq<Read>, i: nat)
    requires i < |calls| && calls[i].Failed? && !Fails(calls[..i])
    ensures Fails(calls) && Received(calls) == Received(calls[..i])
    decreases |calls|
  {
    if i == |calls| - 1 {
    } else {
      var init := calls[..|calls| - 1];
      assert init[..i] == calls[..i] && init[i].Failed?;
      FailureEnds(init, i);
    }
  }

  /** Cutting the same bytes into reads differently changes nothing that is delivered or captured. */
  lemma CutsDoNotMatter(decode: Decoder, policy: Policy, calls: seq<Read>, others: seq<Read>)
    requires Concat(calls) == Concat(others) && !Fails(calls) && !Fails(others)
    ensures Lines(decode, Received(calls)) == Lines(decode, Received(others))
    ensures Capture(policy, Received(calls)) == Capture(policy, Received(others))
  {
    ReceivedAll(calls);
    ReceivedAll(others);
  }

  function Concat(calls: seq<Read>): seq<byte> {
    if calls == [] then [] else Concat(calls[..|calls| - 1]) + match calls[|calls| - 1] case Data(b) => b case _ => []
  }

  lemma {:induction false} ReceivedAll(calls: seq<Read>)
    requires !Fails(calls)
    ensures Received(calls) == Concat(calls)
  {
    if calls != [] {
      var init := calls[..|calls| - 1];
      assert forall i | 0 <= i < |init| :: init[i] == calls[i];
      ReceivedAll(init);
    }
  }
}
