/** The growable drain buffer of a streamed response, on its array: chunks are appended behind a consumed prefix that is
    compacted away, capacity doubles, and partial sends consume from the front. */
module DrainBuffer {
  import opened Bytes
  import opened Socket
  import opened Relay

  class Buffer {
    var swbuf: array<byte>
    var swlen: nat
    var swsent: nat
    ghost var pushed: bytes   // every byte ever accepted
    ghost var wire: bytes     // every byte ever sent

    ghost predicate Valid()
      reads this, swbuf
    {
      && swsent <= swlen <= swbuf.Length
      && wire + Unsent() == pushed
      && |Unsent()| <= STREAM_MAX
    }

    ghost function Unsent(): bytes
      requires swsent <= swlen <= swbuf.Length
      reads this, swbuf
    {
      swbuf[swsent..swlen]
    }

    constructor ()
      ensures Valid() && Unsent() == [] && pushed == [] && fresh(swbuf)
    {
      swbuf := new byte[0];
      swlen, swsent, pushed, wire := 0, 0, [], [];
    }

    /** buf_reserve: double from 4096 until `need` fits; the live bytes keep their place. It fails exactly when it must
        grow and there is no memory. */
    method Reserve(need: nat, mem: bool) returns (ok: bool)
      requires Valid()
      modifies this
      ensures ok == (need <= old(swbuf.Length) || mem)
      ensures Valid() && (ok ==> swbuf.Length >= need) && (swbuf == old(swbuf) || fresh(swbuf))
      ensures Unsent() == old(Unsent()) && swlen == old(swlen) && swsent == old(swsent)
      ensures pushed == old(pushed) && wire == old(wire)
    {
      if need <= swbuf.Length { return true; }
      var ncap := if swbuf.Length == 0 then 4096 else swbuf.Length;
      while ncap < need
        invariant ncap > 0 && ncap >= swbuf.Length
        decreases need - ncap
      {
        ncap := ncap * 2;
      }
      if !mem { return false; }
      var bigger := new byte[ncap](i requires i >= 0 reads this, swbuf => if i < swbuf.Length then swbuf[i] else 0);
      assert bigger[swsent..swlen] == swbuf[swsent..swlen];
      swbuf := bigger;
      ok := true;
    }

    /** Move the unsent bytes to the front. */
    method Compact()
      requires Valid()
      modifies this, swbuf
      ensures Valid() && swsent == 0 && swbuf == old(swbuf) && Unsent() == old(Unsent())
      ensures pushed == old(pushed) && wire == old(wire)
    {
      ghost var live := Unsent();
      forall k | 0 <= k < swlen - swsent { swbuf[k] := swbuf[swsent + k]; }
      swlen, swsent := swlen - swsent, 0;
      assert Unsent() == live;
    }

    /** stream_push up to the kick: false when the client is over its 4 MiB, or the buffer must grow and cannot, and
        the client must be dropped. */
    method Push(data: bytes, mem: bool) returns (ok: bool)
      requires Valid()
      modifies this, swbuf
      ensures Valid() && (swbuf == old(swbuf) || fresh(swbuf)) && wire == old(wire)
      ensures ok == (data == [] || (|old(Unsent())| + |data| <= STREAM_MAX
                                    && (mem || |old(Unsent())| + |data| <= old(swbuf.Length))))
      ensures Unsent() == old(Unsent()) + (if ok then data else [])
      ensures pushed == old(pushed) + (if ok then data else [])
    {
      if data == [] { return true; }
      if swsent > 0 { Compact(); }
      if swlen + |data| > STREAM_MAX { return false; }
      ok := Reserve(swlen + |data|, mem);
      if !ok { return; }
      Append(data);
    }

    /** The copy, once there is room. */
    method Append(data: bytes)
      requires Valid() && swlen + |data| <= swbuf.Length && |Unsent()| + |data| <= STREAM_MAX
      modifies `swlen, `pushed, swbuf
      ensures Valid() && Unsent() == old(Unsent()) + data && pushed == old(pushed) + data
    {
      ghost var live := Unsent();
      forall k | 0 <= k < |data| { swbuf[swlen + k] := data[k]; }
      swlen := swlen + |data|;
      assert Unsent() == live + data;
      Assoc(wire, live, data);
      pushed := pushed + data;
    }

    /** The send loop of on_writable on this buffer; a drained buffer is reset. */
    method Drained(net: seq<SendResult>) returns (outcome: Outcome)
      requires Valid()
      modifies this
      ensures Valid() && swbuf == old(swbuf) && pushed == old(pushed)
      ensures var f := Drain(old(Unsent()), net);
        wire == old(wire) + f.sent && Unsent() == f.rest && outcome == f.outcome
    {
      var live := swbuf[swsent..swlen];
      var pos;
      pos, outcome := SendLoop(live, 0, net);
      assert live[0..] == live && live[0..pos] == live[..pos];
      Consume(pos);
      if outcome.Drained? { Reset(); }
    }

    /** pos bytes have gone out. */
    method Consume(pos: nat)
      requires Valid() && pos <= |Unsent()|
      modifies `swsent, `wire
      ensures Valid() && wire == old(wire) + old(Unsent())[..pos] && Unsent() == old(Unsent())[pos..]
    {
      ghost var live := Unsent();
      assert live == live[..pos] + live[pos..];
      Assoc(wire, live[..pos], live[pos..]);
      wire := wire + live[..pos];
      swsent := swsent + pos;
      assert Unsent() == live[pos..];
    }

    /** Fully drained: start over at the front. */
    method Reset()
      requires Valid() && Unsent() == []
      modifies `swlen, `swsent
      ensures Valid() && Unsent() == []
    {
      swlen, swsent := 0, 0;
    }
  }

  // ---- the buffer is the relay's ----

  /** The buffer holds exactly what the relay's record of a streaming connection says is unsent, and has sent what it
      says was sent. */
  ghost predicate Mirrors(b: Buffer, k: Conn)
    reads b, b.swbuf
  {
    b.Valid() && b.Unsent() == k.sw && b.wire == k.sent
  }

  /** The record of c after a step, open or closed. */
  ghost function Record(r: State, c: ConnId): Conn
    requires c in r.conns || c in r.closed
  {
    if c in r.conns then r.conns[c] else r.closed[c].last
  }

  lemma {:induction false} WritableRecord(g: State, c: ConnId, io: Io)
    requires Inv(g) && c in g.conns && !g.conns[c].phase.Reading? && g.conns[c].streaming
    ensures var r, k, f := OnWritable(g, c, io), g.conns[c], Drain(g.conns[c].sw, io.net);
      && (c in r.conns || c in r.closed) && (c in r.conns <==> FlushEnds(k, f, io).None?)
      && Record(r, c).sw == f.rest && Record(r, c).sent == k.sent + f.sent
  {
    assert |Drain(g.conns[c].sw, io.net).sent + Drain(g.conns[c].sw, io.net).rest| == |g.conns[c].sw|;
  }

  /** on_writable of a streaming connection, on its buffer: what is left there, and whether the connection stays, is
      what the relay's state machine says. */
  method Writable(b: Buffer, ended: bool, io: Io, ghost g: State, ghost c: ConnId) returns (open: bool)
    requires Inv(g) && c in g.conns && !g.conns[c].phase.Reading? && g.conns[c].streaming
    requires Mirrors(b, g.conns[c]) && ended == g.conns[c].ended
    modifies b
    ensures var r := OnWritable(g, c, io); (c in r.conns || c in r.closed) && open == (c in r.conns)
    ensures b.swbuf == old(b.swbuf) && Mirrors(b, Record(OnWritable(g, c, io), c))
  {
    WritableRecord(g, c, io);
    var outcome := b.Drained(io.net);
    open := match outcome
      case Blocked => true
      case Broken => false
      case Drained => !ended && io.rearm;
  }

  /** Draining does not look at the memory flag. */
  lemma {:induction false} WritableIo(g: State, c: ConnId, io: Io, io': Io)
    requires Inv(g) && c in g.conns && !g.conns[c].phase.Reading? && io' == io.(mem := io'.mem)
    ensures OnWritable(g, c, io) == OnWritable(g, c, io')
  {
  }

  lemma {:induction false} PushRecord(g: State, c: ConnId, data: bytes, io: Io) returns (h: State)
    requires Inv(g) && c in g.conns && !g.conns[c].phase.Reading? && g.conns[c].streaming
    requires (data != [] ==> |g.conns[c].sw| + |data| <= STREAM_MAX && io.mem) && |g.conns[c].sw| <= STREAM_MAX
    ensures Inv(h) && c in h.conns && h.conns[c] == g.conns[c].(sw := g.conns[c].sw + data)
    ensures Push(g, c, data, io) == if io.arm then OnWritable(h, c, io) else Close(h, c, PollFailed)
  {
    h := Update(g, c, g.conns[c].(sw := g.conns[c].sw + data));
  }

  lemma {:induction false} RefusedRecord(g: State, c: ConnId, data: bytes, io: Io)
    requires Inv(g) && c in g.conns && !g.conns[c].phase.Reading? && data != []
    requires |g.conns[c].sw| + |data| > STREAM_MAX || !io.mem
    ensures var r := Push(g, c, data, io);
      c !in r.conns && c in r.closed && r.closed[c].last == g.conns[c].(inflight := false)
  {
  }

  /** The step's environment as the relay sees it: memory is lacking only where the buffer has to grow. */
  function Grown(io: Io, need: nat, capacity: nat): Io { io.(mem := io.mem || need <= capacity) }

  /** stream_push on the connection's buffer: append, refuse or fail, arm, drain; the buffer and the connection end up
      as the relay's state machine says. */
  method StreamPush(b: Buffer, data: bytes, ended: bool, io: Io, ghost g: State, ghost c: ConnId) returns (open: bool)
    requires Inv(g) && c in g.conns && !g.conns[c].phase.Reading? && g.conns[c].streaming
    requires Mirrors(b, g.conns[c]) && ended == g.conns[c].ended
    modifies b, b.swbuf
    ensures var r := Push(g, c, data, Grown(io, |g.conns[c].sw| + |data|, old(b.swbuf.Length)));
      (c in r.conns || c in r.closed) && open == (c in r.conns) && Mirrors(b, Record(r, c))
  {
    ghost var io' := Grown(io, |g.conns[c].sw| + |data|, b.swbuf.Length);
    var ok := b.Push(data, io.mem);
    if !ok {
      open := false;
      RefusedRecord(g, c, data, io');
    } else {
      open := Kicked(b, ended, io, io', g, c, data);
    }
  }

  /** stream_kick after the data was appended. */
  method Kicked(b: Buffer, ended: bool, io: Io, ghost io': Io, ghost g: State, ghost c: ConnId, ghost data: bytes)
    returns (open: bool)
    requires Inv(g) && c in g.conns && !g.conns[c].phase.Reading? && g.conns[c].streaming && io' == io.(mem := io'.mem)
    requires (data != [] ==> |g.conns[c].sw| + |data| <= STREAM_MAX && io'.mem) && ended == g.conns[c].ended
    requires Mirrors(b, g.conns[c].(sw := g.conns[c].sw + data))
    modifies b
    ensures var r := Push(g, c, data, io');
      (c in r.conns || c in r.closed) && open == (c in r.conns) && Mirrors(b, Record(r, c))
  {
    ghost var h := PushRecord(g, c, data, io');
    if io.arm {
      open := Writable(b, ended, io, h, c);
      WritableIo(h, c, io, io');
    } else {
      open := false;
    }
  }
}
