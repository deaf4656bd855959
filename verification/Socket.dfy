/** Non-blocking sockets as scripts: what each `send` call returns is chosen by the environment. */
module Socket {
  import opened Bytes

  datatype SendResult = Sent(n: nat) | Interrupted | WouldBlock | Failed
  datatype Outcome = Drained | Blocked | Broken
  datatype Flush = Flush(sent: bytes, rest: bytes, outcome: Outcome)

  /** How many of `len` bytes a script of send results takes; a script that runs out would block. */
  function Taken(len: nat, net: seq<SendResult>): (r: (nat, Outcome))
    ensures r.0 <= len && (r.1.Drained? <==> r.0 == len)
    decreases |net|
  {
    if len == 0 then (0, Drained)
    else if net == [] then (0, Blocked)
    else match net[0]
      case Interrupted => Taken(len, net[1..])
      case WouldBlock => (0, Blocked)
      case Failed => (0, Broken)
      case Sent(n) =>
        if n == 0 then (0, Broken) else
        var k := Min(n, len);
        var (more, outcome) := Taken(len - k, net[1..]);
        (k + more, outcome)
  }

  /** The first i results all let the loop go on. */
  ghost predicate Steady(net: seq<SendResult>, i: nat)
    requires i <= |net|
  {
    forall j :: 0 <= j < i ==> net[j].Interrupted? || (net[j].Sent? && net[j].n > 0)
  }

  /** How many bytes the socket is ready to take in the first i calls. */
  function Offered(net: seq<SendResult>, i: nat): nat
    requires i <= |net|
  {
    if i == 0 then 0 else Offered(net, i - 1) + if net[i - 1].Sent? then net[i - 1].n else 0
  }

  lemma {:induction false} OfferedTail(net: seq<SendResult>, i: nat)
    requires 0 < i <= |net|
    ensures Offered(net, i) == (if net[0].Sent? then net[0].n else 0) + Offered(net[1..], i - 1)
  {
    if i > 1 { OfferedTail(net, i - 1); }
  }

  /** The loop ends where the socket has taken everything, would block, or fails, whichever comes first: after i calls
      that let it go on. */
  lemma {:induction false} TakenIs(len: nat, net: seq<SendResult>, i: nat)
    requires i <= |net| && Steady(net, i)
    ensures Offered(net, i) >= len ==> Taken(len, net) == (len, Drained)
    ensures Offered(net, i) < len && (i == |net| || net[i].WouldBlock?) ==>
      Taken(len, net) == (Offered(net, i), Blocked)
    ensures Offered(net, i) < len && i < |net| && (net[i].Failed? || net[i] == Sent(0)) ==>
      Taken(len, net) == (Offered(net, i), Broken)
    decreases i
  {
    if i > 0 && len > 0 {
      var k := if net[0].Sent? then Min(net[0].n, len) else 0;
      OfferedTail(net, i);
      TakenIs(len - k, net[1..], i - 1);
    }
  }

  /** What the send loop does to a buffer. */
  function Drain(buf: bytes, net: seq<SendResult>): (f: Flush)
    ensures f.sent + f.rest == buf
    ensures f.outcome.Drained? <==> f.rest == []
  {
    var (k, outcome) := Taken(|buf|, net);
    Flush(buf[..k], buf[k..], outcome)
  }

  /** The send loop of on_writable and on_ctrl_writable: from `pos` on, until the buffer or the socket is exhausted. */
  method SendLoop(buf: bytes, from: nat, net: seq<SendResult>) returns (pos: nat, outcome: Outcome)
    requires from <= |buf|
    ensures from <= pos <= |buf|
    ensures Drain(buf[from..], net) == Flush(buf[from..pos], buf[pos..], outcome)
  {
    pos, outcome := SendUpTo(|buf|, from, net);
    DrainIs(buf, from, pos, net, outcome);
  }

  method SendUpTo(len: nat, from: nat, net: seq<SendResult>) returns (pos: nat, outcome: Outcome)
    requires from <= len
    ensures from <= pos <= len && Taken(len - from, net) == (pos - from, outcome)
  {
    pos := from;
    var i := 0;
    assert net[0..] == net;
    while pos < len && i < |net|
      invariant from <= pos <= len && i <= |net|
      invariant Taken(len - from, net) == (pos - from + Taken(len - pos, net[i..]).0, Taken(len - pos, net[i..]).1)
    {
      assert net[i..][1..] == net[i + 1..];
      match net[i] {
        case Interrupted =>
        case WouldBlock => break;
        case Failed => return pos, Broken;
        case Sent(n) =>
          if n == 0 { return pos, Broken; }
          pos := pos + Min(n, len - pos);
      }
      i := i + 1;
    }
    outcome := if pos < len then Blocked else Drained;
  }

  lemma {:induction false} DrainIs(buf: bytes, from: nat, pos: nat, net: seq<SendResult>, outcome: Outcome)
    requires from <= pos <= |buf| && Taken(|buf| - from, net) == (pos - from, outcome)
    ensures Drain(buf[from..], net) == Flush(buf[from..pos], buf[pos..], outcome)
  {
    assert buf[from..][..pos - from] == buf[from..pos] && buf[from..][pos - from..] == buf[pos..];
  }
}
