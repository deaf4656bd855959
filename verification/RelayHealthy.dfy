/** When sockets, memory and poller do their part, responses go through: an answer finishes at once, and a stream from
    BEGIN to END finishes with every byte of its encoding. */
module RelayHealthy {
  import opened Bytes
  import opened Socket
  import opened Framing
  import opened Relay
  import opened RelayRun
  import opened RelayStreams
  import opened RelayHistory
  import opened RelayFates
  import Wire
  import Chunked

  /** Everything succeeds, and the socket takes up to 4 MiB at once. */
  ghost predicate Healthy(io: Io)
  {
    io.mem && io.arm && io.rearm && forall n: nat :: n <= STREAM_MAX ==> Taken(n, io.net).1.Drained?
  }

  /** Such as a socket with that much room. */
  lemma {:induction false} RoomySocket(room: nat)
    requires room >= STREAM_MAX
    ensures Healthy(Io(true, true, [Sent(room)], true))
  {
    var net := [Sent(room)];
    forall n: nat | n <= STREAM_MAX ensures Taken(n, net).1.Drained? {
      assert Offered(net, 1) == Offered(net, 0) + room;
      TakenIs(n, net, 1);
    }
  }

  lemma {:induction false} HealthyDrain(buf: bytes, io: Io)
    requires Healthy(io) && |buf| <= STREAM_MAX
    ensures Drain(buf, io.net) == Flush(buf, [], Drained)
  {
    assert buf[..|buf|] == buf && buf[|buf|..] == [];
  }

  lemma {:induction false} Resolves(g: State, c: ConnId)
    requires Inv(g) && c in g.conns && g.conns[c].inflight
    ensures ConnForId(g, g.conns[c].reqId) == Some(c)
  {
    var s := SlotOf(g.conns[c].reqId);
    assert g.pending[s] == Some(c) && Holds(g, s, c);
    IdParts(g.gen[s], s);
  }

  /** A waiting client that is answered has the whole answer, and its connection finishes. */
  lemma {:induction false} HealthyAnswer(g: State, e: Event, c: ConnId)
    requires StreamInv(g) && c in g.conns && g.conns[c].phase.Waiting? && g.conns[c].inflight
    requires e.CtrlFrame? && e.id == g.conns[c].reqId && e.kind == RESPONSE
    requires e.env.text.Some? && |e.env.text.value| <= STREAM_MAX && Healthy(e.env.io)
    ensures ClosedWith(Step(g, e), c, Finished, e.env.text.value)
  {
    Resolves(g, c);
    ResponseFate(g, e, c);
    HealthyDrain(e.env.text.value, e.env.io);
    assert [] + e.env.text.value == e.env.text.value;
  }

  // ---- streams ----

  /** A stream with nothing waiting. */
  ghost predicate Flowing(g: State, c: ConnId, id: nat)
  {
    c in g.conns && g.conns[c].phase.Streaming? && g.conns[c].inflight && g.conns[c].reqId == id && g.conns[c].sw == []
  }

  lemma {:induction false} HealthyPush(g: State, c: ConnId, data: bytes, io: Io)
    requires Inv(g) && c in g.conns && g.conns[c].phase.Streaming? && g.conns[c].streaming && g.conns[c].sw == []
    requires |data| <= STREAM_MAX && Healthy(io)
    ensures var r, k := Push(g, c, data, io), g.conns[c];
      if k.ended then ClosedWith(r, c, Finished, k.sent + data)
      else c in r.conns && SameBut(r.conns[c], k) && r.conns[c].inflight == k.inflight && r.conns[c].sw == []
  {
    var r, k := Push(g, c, data, io), g.conns[c];
    PushFate(g, c, data, io);
    PushMoves(g, c, data, io);
    HealthyDrain(data, io);
    assert [] + data == data;
    if !k.ended { NothingWaits(r.conns[c], k, data); }
  }

  lemma {:induction false} NothingWaits(x: Conn, k: Conn, data: bytes)
    requires k.streaming && x.streaming && k.sw == [] && Out(x) == Out(k) + data && x.sent == k.sent + data
    ensures x.sw == []
  {
    assert Out(k) == k.sent;
    assert |Out(x)| == |x.sent| + |x.sw|;
  }

  ghost predicate AllFine(parts: seq<(bytes, Io)>) { forall p :: p in parts ==> |p.0| <= STREAM_MAX && Healthy(p.1) }

  lemma {:induction false} HealthyPushAll(g: State, c: ConnId, parts: seq<(bytes, Io)>)
    requires Inv(g) && c in g.conns && g.conns[c].phase.Streaming? && g.conns[c].streaming && g.conns[c].sw == []
    requires !g.conns[c].ended && AllFine(parts)
    ensures var r, k := PushAll(g, c, parts), g.conns[c];
      c in r.conns && SameBut(r.conns[c], k) && r.conns[c].inflight == k.inflight && r.conns[c].sw == []
    decreases |parts|
  {
    if parts != [] {
      assert parts[0] in parts;
      HealthyPush(g, c, parts[0].0, parts[0].1);
      HealthyPushAll(Push(g, c, parts[0].0, parts[0].1), c, parts[1..]);
    }
  }

  ghost predicate Fine(env: Env) { Healthy(env.io) && Healthy(env.io2) && Healthy(env.io3) }

  /** A CHUNK under id with some data, at most 4 MiB of it. */
  ghost predicate ChunkEvent(e: Event, id: nat)
  {
    && e.CtrlFrame? && e.kind == RESPONSE_CHUNK && e.id == id && Fine(e.env)
    && Wire.DecodeChunk(e.payload).Some? && 0 < |Wire.DecodeChunk(e.payload).value| <= STREAM_MAX
  }

  lemma {:induction false} ShortSize(n: nat)
    requires n <= STREAM_MAX
    ensures |Chunked.Hex(n)| <= 8
  {
    HexLength(n, 8);
  }

  lemma {:induction false} HexLength(n: nat, w: nat)
    requires w > 0 && n < Pow16(w)
    ensures |Chunked.Hex(n)| <= w
    decreases w
  {
    if n >= 16 { HexLength(n / 16, w - 1); }
  }

  function Pow16(w: nat): nat { if w == 0 then 1 else 16 * Pow16(w - 1) }

  lemma {:induction false} HealthyChunk(g: State, e: Event, c: ConnId, id: nat)
    requires StreamInv(g) && Flowing(g, c, id) && ChunkEvent(e, id)
    ensures Conforms(g, e) && For(g, e, c) && Flowing(Step(g, e), c, id)
  {
    Resolves(g, c);
    StepIsHandle(g, e, c);
    HealthyDeliver(g, c, e.payload, e.env);
  }

  lemma {:induction false} PiecesFine(k: Conn, d: bytes, env: Env)
    requires |d| <= STREAM_MAX && Fine(env)
    ensures AllFine(Pieces(k, d, env))
  {
    ShortSize(|d|);
  }

  lemma {:induction false} HealthyDeliver(g: State, c: ConnId, payload: bytes, env: Env)
    requires StreamInv(g) && c in g.conns && Flowing(g, c, g.conns[c].reqId) && Fine(env)
    requires Wire.DecodeChunk(payload).Some? && 0 < |Wire.DecodeChunk(payload).value| <= STREAM_MAX
    ensures Flowing(DeliverChunk(g, c, payload, env), c, g.conns[c].reqId)
  {
    var k, d := g.conns[c], Wire.DecodeChunk(payload).value;
    PiecesFine(k, d, env);
    HealthyPushAll(Update(g, c, k.(log := k.log + [d])), c, Pieces(k, d, env));
  }

  /** The data of a CHUNK. */
  function Datum(e: Event): bytes
  {
    if e.CtrlFrame? && Wire.DecodeChunk(e.payload).Some? then Wire.DecodeChunk(e.payload).value else []
  }

  function DataOf(es: seq<Event>): seq<bytes> { seq(|es|, i requires 0 <= i < |es| => Datum(es[i])) }

  ghost predicate ChunkEvents(es: seq<Event>, id: nat) { forall e :: e in es ==> ChunkEvent(e, id) }

  lemma {:induction false} HealthyChunks(g: State, es: seq<Event>, c: ConnId, id: nat)
    requires StreamInv(g) && Flowing(g, c, id) && ChunkEvents(es, id)
    ensures Possible(g, es) && Conforming(g, es) && Flowing(Run(g, es), c, id)
    ensures ChunksFor(g, es, c) == DataOf(es) && !EndsFor(g, es, c)
    decreases |es|
  {
    if es != [] {
      EventsTail(es, id);
      HealthyStep(g, es[0], c, id);
      HealthyChunks(Step(g, es[0]), es[1..], c, id);
    }
  }

  lemma {:induction false} EventsTail(es: seq<Event>, id: nat)
    requires es != [] && ChunkEvents(es, id)
    ensures ChunkEvent(es[0], id) && ChunkEvents(es[1..], id) && DataOf(es) == [Datum(es[0])] + DataOf(es[1..])
  {
    assert es[0] in es;
    forall e | e in es[1..] ensures ChunkEvent(e, id) { assert e in es; }
  }

  lemma {:induction false} HealthyStep(g: State, e: Event, c: ConnId, id: nat)
    requires StreamInv(g) && Flowing(g, c, id) && ChunkEvent(e, id)
    ensures Enabled(g, e) && Conforms(g, e) && StreamInv(Step(g, e)) && Flowing(Step(g, e), c, id)
    ensures ChunkFor(g, e, c) == [Datum(e)] && !EndFor(g, e, c)
  {
    HealthyChunk(g, e, c, id);
    StepKeeps(g, e);
  }

  lemma {:induction false} HealthyBegin(g: State, e: Event, c: ConnId)
    requires StreamInv(g) && c in g.conns && g.conns[c].phase.Waiting? && g.conns[c].inflight
    requires e.CtrlFrame? && e.id == g.conns[c].reqId && e.kind == RESPONSE_BEGIN && Healthy(e.env.io)
    requires Wire.DecodeBegin(e.payload).Some? && e.streamHead.Some? && |e.streamHead.value| <= STREAM_MAX
    ensures Conforms(g, e) && For(g, e, c) && Flowing(Step(g, e), c, e.id)
    ensures JustBegun(Step(g, e).conns[c], Wire.DecodeBegin(e.payload).value, e.streamHead.value)
  {
    Resolves(g, c);
    BeginFate(g, e, c);
    StepIsHandle(g, e, c);
    var head := e.streamHead.value;
    HealthyPush(Update(g, c, Begun(g.conns[c], Wire.DecodeBegin(e.payload).value, head)), c, head, e.env.io);
  }

  lemma {:induction false} HealthyEnd(g: State, e: Event, c: ConnId, id: nat)
    requires StreamInv(g) && Flowing(g, c, id)
    requires e.CtrlFrame? && e.id == id && e.kind == RESPONSE_END && Healthy(e.env.io)
    ensures ClosedWith(Step(g, e), c, Finished, Expected(g.conns[c].(ended := true)))
  {
    Resolves(g, c);
    EndFate(g, e, c);
    EndBytes(g.conns[c], Last(g.conns[c]));
    HealthyFlush(Step(g, e), c, g.conns[c].sent, Last(g.conns[c]), e.env.io);
  }

  function Last(k: Conn): bytes { if k.sse then [] else Chunked.TERMINATOR }

  lemma {:induction false} EndBytes(k: Conn, last: bytes)
    requires k.phase.Streaming? && Faithful(k) && k.inflight && k.sw == [] && last == Last(k)
    ensures k.streaming && !k.ended && k.sent + last == Expected(k.(ended := true))
  {
    assert Out(k) == k.sent + [];
    EndExpects(k.(inflight := false), last);
  }

  lemma {:induction false} HealthyFlush(r: State, c: ConnId, sent: bytes, data: bytes, io: Io)
    requires Pushed(r, c, sent, [], data, true, io) && |data| <= STREAM_MAX && Healthy(io)
    ensures ClosedWith(r, c, Finished, sent + data)
  {
    HealthyDrain(data, io);
    assert [] + data == data;
  }

  /** From BEGIN to END: whatever the chunks, the connection finishes and the client has the head, every chunk as its
      mode frames it, and the terminator of a chunked body. */
  lemma {:induction false} HealthyStream(g: State, b: Event, es: seq<Event>, e: Event, c: ConnId)
    requires StreamInv(g) && c in g.conns && g.conns[c].phase.Waiting? && g.conns[c].inflight
    requires b.CtrlFrame? && b.id == g.conns[c].reqId && b.kind == RESPONSE_BEGIN && Healthy(b.env.io)
    requires Wire.DecodeBegin(b.payload).Some? && b.streamHead.Some? && |b.streamHead.value| <= STREAM_MAX
    requires ChunkEvents(es, b.id)
    requires e.CtrlFrame? && e.id == b.id && e.kind == RESPONSE_END && Healthy(e.env.io)
    ensures var h := Step(g, b);
      && Possible(h, es)
      && ClosedWith(Step(Run(h, es), e), c, Finished,
                    StreamBytes(b.streamHead.value, Wire.DecodeBegin(b.payload).value.flags % 2 == 1, DataOf(es), true))
  {
    var h, begin := Step(g, b), Wire.DecodeBegin(b.payload).value;
    HealthyBegin(g, b, c);
    StepKeeps(g, b);
    HealthyChunks(h, es, c, b.id);
    RunTells(h, es, c);
    RunKeeps(h, es);
    var k := Run(h, es).conns[c];
    HealthyEnd(Run(h, es), e, c, b.id);
    ExpectedIs(h.conns[c], k.(ended := true), begin, b.streamHead.value, DataOf(es), true);
  }
}
