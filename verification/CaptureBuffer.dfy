/** Capturing a child's output in bounded memory, and showing what was captured. */
module CaptureBuffer {
  import opened Machine

  type byte = b: int | 0 <= b < 256

  datatype Policy = Policy(limit: nat, failOnOverflow: bool) {
    function PrefixLimit(): nat {
      if failOnOverflow then limit else limit / 2
    }

    function TailLimit(): nat {
      limit - PrefixLimit()
    }
  }

  datatype Captured = Captured(bytes: seq<byte>, truncated: bool)

  function Min(a: nat, b: nat): nat {
    if a <= b then a else b
  }

  function Take<T>(s: seq<T>, n: nat): seq<T> {
    s[..Min(n, |s|)]
  }

  function TakeLast<T>(s: seq<T>, n: nat): seq<T> {
    s[|s| - Min(n, |s|)..]
  }

  /** What a policy keeps of a whole stream: everything if it fits, else its first bytes and its last bytes. */
  function Capture(policy: Policy, stream: seq<byte>): Captured {
    if |stream| <= policy.limit then Captured(stream, false)
    else Captured(stream[..policy.PrefixLimit()] + stream[|stream| - policy.TailLimit()..], true)
  }

  lemma TakePush<T>(s: seq<T>, more: seq<T>, n: nat)
    ensures var take := Min(|more|, n - |Take(s, n)|);
            && Take(s + more, n) == Take(s, n) + more[..take]
            && (s + more)[|Take(s + more, n)|..] == s[|Take(s, n)|..] + more[take..]
  {
  }

  /** A suffix of at most `n` elements after `more` has come in. */
  function Rolled<T>(kept: seq<T>, more: seq<T>, n: nat): seq<T>
    requires |kept| <= n
  {
    if |more| >= n then more[|more| - n..]
    else kept[if |kept| + |more| > n then |kept| + |more| - n else 0..] + more
  }

  lemma TakeLastPush<T>(s: seq<T>, more: seq<T>, n: nat)
    ensures TakeLast(s + more, n) == Rolled(TakeLast(s, n), more, n)
  {
  }

  /** What a push does to the kept prefix and suffix is what it does to the stream's. */
  lemma PushKeeps(policy: Policy, stream: seq<byte>, bytes: seq<byte>)
    ensures var prefix := Take(stream, policy.PrefixLimit());
            var take := Min(|bytes|, policy.PrefixLimit() - |prefix|);
            var longer := prefix + bytes[..take];
            && Take(stream + bytes, policy.PrefixLimit()) == longer
            && TakeLast((stream + bytes)[|longer|..], policy.TailLimit())
               == Rolled(TakeLast(stream[|prefix|..], policy.TailLimit()), bytes[take..], policy.TailLimit())
  {
    var prefix := Take(stream, policy.PrefixLimit());
    var take := Min(|bytes|, policy.PrefixLimit() - |prefix|);
    TakePush(stream, bytes, policy.PrefixLimit());
    TakeLastPush(stream[|prefix|..], bytes[take..], policy.TailLimit());
  }

  /** Keeps a prefix and a rolling suffix; `stream` is the ghost record of everything pushed. */
  class OutputBuffer {
    var prefix: seq<byte>
    var tail: seq<byte>
    const policy: Policy
    var total: nat
    ghost var stream: seq<byte>

    ghost predicate Valid()
      reads this
    {
      && prefix == Take(stream, policy.PrefixLimit())
      && tail == TakeLast(stream[|prefix|..], policy.TailLimit())
      && total == Min(|stream|, USIZE_MAX)
    }

    constructor (policy: Policy)
      ensures Valid() && this.policy == policy && stream == []
    {
      this.policy, prefix, tail, total, stream := policy, [], [], 0, [];
      new;
      assert Take(stream, policy.PrefixLimit()) == [];
    }

    /** However the stream is cut into pushes, the buffer depends only on their concatenation. */
    method Push(bytes: seq<byte>)
      requires Valid()
      modifies this
      ensures Valid() && stream == old(stream) + bytes
      ensures |prefix| + |tail| <= policy.limit
    {
      total := Min(total + |bytes|, USIZE_MAX);
      var prefixLimit, tailLimit := policy.PrefixLimit(), policy.TailLimit();
      var take := Min(|bytes|, prefixLimit - |prefix|);
      PushKeeps(policy, stream, bytes);
      stream := stream + bytes;
      prefix := prefix + bytes[..take];
      RollTail(bytes[take..], tailLimit);
    }

    method RollTail(remaining: seq<byte>, tailLimit: nat)
      requires |tail| <= tailLimit
      modifies this`tail
      ensures tail == Rolled(old(tail), remaining, tailLimit)
    {
      if tailLimit == 0 {
        return;
      }
      if |remaining| >= tailLimit {
        tail := remaining[|remaining| - tailLimit..];
      } else {
        var discard := if |tail| + |remaining| > tailLimit then |tail| + |remaining| - tailLimit else 0;
        tail := tail[discard..];
        tail := tail + remaining;
      }
    }

    method Finish() returns (r: Captured)
      requires Valid()
      ensures policy.limit < USIZE_MAX || |stream| <= USIZE_MAX ==> r == Capture(policy, stream)
    {
      r := Captured(prefix + tail, total > policy.limit);
    }
  }

  // ---- Showing a capture ----

  const MARKER := "\n\U{2026} output truncated \U{2026}\n"

  /** `decode` is the lossy UTF-8 decoder. */
  function RenderOutput(decode: seq<byte> -> string, bytes: seq<byte>, truncated: bool): string {
    if !truncated then decode(bytes)
    else decode(bytes[..|bytes| / 2]) + MARKER + decode(bytes[|bytes| / 2..])
  }

  /**
   * A rendered capture of a bounded run shows the whole stream, or its first half-limit bytes, the marker, and
   * its last bytes: the marker stands exactly where bytes were dropped.
   */
  lemma MarkerAtCut(decode: seq<byte> -> string, limit: nat, stream: seq<byte>)
    ensures var c := Capture(Policy(limit, false), stream);
            RenderOutput(decode, c.bytes, c.truncated) ==
            if |stream| <= limit then decode(stream)
            else decode(stream[..limit / 2]) + MARKER + decode(stream[|stream| - (limit - limit / 2)..])
  {
    if |stream| > limit {
      var c := Capture(Policy(limit, false), stream);
      assert c.bytes[..limit / 2] == stream[..limit / 2];
      assert c.bytes[limit / 2..] == stream[|stream| - (limit - limit / 2)..];
    }
  }

  /** A capture keeps the whole stream exactly when it says it is not truncated, and never exceeds its limit. */
  lemma CaptureExact(policy: Policy, stream: seq<byte>)
    ensures var c := Capture(policy, stream);
            && |c.bytes| == Min(|stream|, policy.limit)
            && (!c.truncated <==> |stream| <= policy.limit)
            && (!c.truncated ==> c.bytes == stream)
            && (policy.failOnOverflow ==> c.bytes == Take(stream, policy.limit))
  {
  }
}
