/** The gateway's in-flight table and relay as a state machine: one step per poll event, whatever the sockets do. */
module Relay {
  import opened Bytes
  import opened Socket
  import opened Framing
  import Wire
  import Chunked
  import Ws

  const SLOTS := 4096
  const GENS := 0x10_0000
  const STREAM_MAX := 4 * 1024 * 1024

  type ConnId = nat
  type CtrlId = nat

  datatype Phase = Reading | Waiting | Writing | Streaming | WebSocket

  datatype Why = Finished | TooSlow | NetError | NoMemory | PollFailed | ClientGone | CtrlGone | EndBeforeBegin

  /** A client connection. `w` and `sw` are the unsent bytes of an atomic and of a streamed response; `sent`, `status`,
      `head` and `log` are history: bytes on the wire, status begun, response text or stream head, data items
      relayed. */
  datatype Conn = Conn(
    phase: Phase, inflight: bool, reqId: nat, ctrl: Option<CtrlId>,
    streaming: bool, sse: bool, headSent: bool, ended: bool, isWs: bool, w: bytes, sw: bytes,
    sent: bytes, status: Option<nat>, head: bytes, log: seq<bytes>)

  datatype Gone = Gone(last: Conn, why: Why)

  /** `gen[s]` counts how often slot s was freed; the implementation keeps it modulo 2^32. `closed` is history. */
  datatype State = State(
    pending: seq<Option<ConnId>>, gen: seq<nat>, free: seq<nat>,
    conns: map<ConnId, Conn>, closed: map<ConnId, Gone>, next: ConnId, ctrls: map<CtrlId, seq<Frame>>)

  /** The environment's part of one push or flush: allocation, poller calls and send results. */
  datatype Io = Io(mem: bool, arm: bool, net: seq<SendResult>, rearm: bool)

  /** ... and of one step: the formatted response text (None when the arena is exhausted) and up to three pushes. */
  datatype Env = Env(text: Option<bytes>, io: Io, io2: Io, io3: Io)

  function NewConn(): Conn
  {
    Conn(Reading, false, 0, None, false, false, false, false, false, [], [], [], None, [], [])
  }

  // ---- request ids: 12 bits of slot under 20 bits of generation ----

  function IdFor(gen: nat, slot: nat): nat { gen % GENS * SLOTS + slot }

  function SlotOf(id: nat): nat { id % SLOTS }

  function ConnForId(g: State, id: nat): Option<ConnId>
    requires Shape(g)
  {
    var s := SlotOf(id);
    if g.pending[s].Some? && g.gen[s] % GENS == id / SLOTS then g.pending[s] else None
  }

  // ---- the invariant ----

  ghost predicate Shape(g: State) { |g.pending| == |g.gen| == SLOTS }

  /** The free stack: no duplicates, and exactly the slots that nothing occupies. */
  ghost predicate FreeOk(g: State)
    requires Shape(g)
  {
    && (forall i, j :: 0 <= i < j < |g.free| ==> g.free[i] != g.free[j])
    && (forall i :: 0 <= i < |g.free| ==> g.free[i] < SLOTS && g.pending[g.free[i]].None?)
    && (forall s :: 0 <= s < SLOTS && g.pending[s].None? ==> s in g.free)
  }

  /** Connection c is in flight under the id that names slot s at its current generation. */
  ghost predicate Holds(g: State, s: nat, c: ConnId)
    requires Shape(g) && s < SLOTS
  {
    && c in g.conns && g.conns[c].inflight
    && g.conns[c].reqId == IdFor(g.gen[s], s) && SlotOf(g.conns[c].reqId) == s
  }

  ghost predicate PendingOk(g: State)
    requires Shape(g)
  {
    && (forall s :: 0 <= s < SLOTS && g.pending[s].Some? ==> Holds(g, s, g.pending[s].value))
    && (forall c :: c in g.conns && g.conns[c].inflight ==> g.pending[SlotOf(g.conns[c].reqId)] == Some(c))
  }

  ghost predicate ConnOk(g: State, k: Conn)
  {
    && |k.sw| <= STREAM_MAX
    && k.streaming == k.headSent
    && (k.inflight ==> k.ctrl.Some? && k.ctrl.value in g.ctrls)
    && (k.phase.Reading? ==> k == NewConn())
  }

  ghost predicate Inv(g: State)
  {
    && Shape(g) && FreeOk(g) && PendingOk(g)
    && (forall c :: c in g.conns ==> ConnOk(g, g.conns[c]))
    && (forall c :: c in g.conns ==> c < g.next && c !in g.closed)
    && (forall c :: c in g.closed ==> c < g.next)
  }

  /** gw_slots_init: every slot free, nobody connected. */
  function Init(): (g: State)
    ensures Inv(g)
  {
    var g := State(seq(SLOTS, _ => None), seq(SLOTS, _ => 0), seq(SLOTS, i => i), map[], map[], 0, map[]);
    FreshStack(g);
    g
  }

  lemma {:induction false} FreshStack(g: State)
    requires |g.pending| == |g.gen| == |g.free| == SLOTS
    requires forall s :: 0 <= s < SLOTS ==> g.free[s] == s && g.pending[s].None?
    ensures FreeOk(g)
  {
    forall s | 0 <= s < SLOTS ensures s in g.free { assert g.free[s] == s; }
  }

  // ---- what a step on behalf of one connection may change ----

  /** Nothing but connection c and the slot it holds; controllers only get frames appended. */
  ghost predicate OnlyTouches(g: State, r: State, c: ConnId)
    requires Shape(g) && Shape(r)
  {
    && r.conns - {c} == g.conns - {c} && r.closed - {c} == g.closed - {c} && r.next == g.next
    && (forall s :: 0 <= s < SLOTS && g.pending[s] != Some(c) ==> r.pending[s] == g.pending[s] && r.gen[s] == g.gen[s])
    && r.ctrls.Keys == g.ctrls.Keys
    && (forall ct :: ct in g.ctrls ==> g.ctrls[ct] <= r.ctrls[ct])
  }

  /** Generations only grow, and a slot whose generation has not moved is still held by whoever held it. */
  ghost predicate Advances(g: State, r: State)
    requires Shape(g) && Shape(r)
  {
    forall s :: 0 <= s < SLOTS ==>
      g.gen[s] <= r.gen[s] && (g.pending[s].Some? && r.gen[s] == g.gen[s] ==> r.pending[s] == g.pending[s])
  }

  ghost predicate Good(g: State, r: State, c: ConnId)
  {
    Inv(g) && Inv(r) && OnlyTouches(g, r, c) && Advances(g, r)
  }

  lemma {:induction false} GoodTrans(g: State, h: State, r: State, c: ConnId)
    requires Good(g, h, c) && Good(h, r, c)
    ensures Good(g, r, c)
  {
    forall ct | ct in g.ctrls ensures g.ctrls[ct] <= r.ctrls[ct] {
      assert g.ctrls[ct] <= h.ctrls[ct] <= r.ctrls[ct];
    }
  }

  // ---- primitive updates ----

  /** Overwrite a connection's record without touching its place in the slot table. */
  function Update(g: State, c: ConnId, k: Conn): (r: State)
    requires Inv(g) && c in g.conns && ConnOk(g, k)
    requires k.inflight == g.conns[c].inflight && k.reqId == g.conns[c].reqId && k.ctrl == g.conns[c].ctrl
    ensures Good(g, r, c)
  {
    UpdatePending(g, c, k);
    UpdateTouches(g, c, k);
    g.(conns := g.conns[c := k])
  }

  lemma {:induction false} UpdateTouches(g: State, c: ConnId, k: Conn)
    requires Shape(g) && c in g.conns
    ensures OnlyTouches(g, g.(conns := g.conns[c := k]), c) && Advances(g, g.(conns := g.conns[c := k]))
  {
    assert g.conns[c := k] - {c} == g.conns - {c};
  }

  lemma {:induction false} UpdatePending(g: State, c: ConnId, k: Conn)
    requires Inv(g) && c in g.conns && k.inflight == g.conns[c].inflight && k.reqId == g.conns[c].reqId
    ensures PendingOk(g.(conns := g.conns[c := k]))
  {
    var r := g.(conns := g.conns[c := k]);
    forall s | 0 <= s < SLOTS && r.pending[s].Some? ensures Holds(r, s, r.pending[s].value) {
      assert Holds(g, s, g.pending[s].value);
    }
  }

  function Freed(g: State, c: ConnId): State
    requires Shape(g) && c in g.conns
  {
    var s := SlotOf(g.conns[c].reqId);
    g.(pending := g.pending[s := None], gen := g.gen[s := g.gen[s] + 1], free := g.free + [s],
       conns := g.conns[c := g.conns[c].(inflight := false)])
  }

  lemma {:induction false} FreedFree(g: State, c: ConnId)
    requires Inv(g) && c in g.conns && g.conns[c].inflight
    ensures FreeOk(Freed(g, c))
  {
    var s, r := SlotOf(g.conns[c].reqId), Freed(g, c);
    assert g.pending[s] == Some(c);
    forall t | 0 <= t < SLOTS && r.pending[t].None? ensures t in r.free {
      if t != s { assert t in g.free; }
    }
  }

  lemma {:induction false} FreedPending(g: State, c: ConnId)
    requires Inv(g) && c in g.conns && g.conns[c].inflight
    ensures PendingOk(Freed(g, c))
  {
    var s, r := SlotOf(g.conns[c].reqId), Freed(g, c);
    forall t | 0 <= t < SLOTS && r.pending[t].Some? ensures Holds(r, t, r.pending[t].value) {
      assert Holds(g, t, g.pending[t].value);
    }
  }

  /** gw_free_slot and inflight = false, which the code always does together. */
  function Release(g: State, c: ConnId): (r: State)
    requires Inv(g) && c in g.conns && g.conns[c].inflight
    ensures Good(g, r, c)
    ensures r.conns == g.conns[c := g.conns[c].(inflight := false)] && r.closed == g.closed && r.ctrls == g.ctrls
    ensures r.gen[SlotOf(g.conns[c].reqId)] == g.gen[SlotOf(g.conns[c].reqId)] + 1
    ensures r.pending[SlotOf(g.conns[c].reqId)] == None
  {
    FreedFree(g, c);
    FreedPending(g, c);
    Freed(g, c)
  }

  /** ctrl_queue. */
  function Queue(g: State, c: ConnId, ct: CtrlId, f: Frame): (r: State)
    requires Inv(g) && ct in g.ctrls
    ensures Good(g, r, c)
  {
    g.(ctrls := g.ctrls[ct := g.ctrls[ct] + [f]])
  }

  /** The connection's memory goes away; its record moves to the history. */
  function Discard(g: State, c: ConnId, why: Why): (r: State)
    requires Inv(g) && c in g.conns && !g.conns[c].inflight
    ensures Good(g, r, c)
  {
    g.(conns := g.conns - {c}, closed := g.closed[c := Gone(g.conns[c], why)])
  }

  lemma {:induction false} GoodRefl(g: State, c: ConnId)
    requires Inv(g)
    ensures Good(g, g, c)
  {
  }

  // ---- closing, flushing, pushing, answering ----

  /** conn_close: a WebSocket in flight tells its controller first; an occupied slot is freed. */
  function Close(g: State, c: ConnId, why: Why): (r: State)
    requires Inv(g) && c in g.conns
    ensures Good(g, r, c)
    ensures c !in r.conns && c in r.closed && r.closed[c] == Gone(g.conns[c].(inflight := false), why)
  {
    var k := g.conns[c];
    if !k.inflight then Discard(g, c, why) else
    GoodRefl(g, c);
    var h := if k.isWs then Queue(g, c, k.ctrl.value, Frame(VERSION, WS_CLOSE, k.reqId, Wire.U16(1000))) else g;
    var m := Release(h, c);
    var r := Discard(m, c, why);
    GoodTrans(g, h, m, c);
    GoodTrans(g, m, r, c);
    r
  }

  /** Everything handed to this connection's socket buffers so far: on the wire or waiting. */
  ghost function Out(k: Conn): bytes { k.sent + if k.streaming then k.sw else k.w }

  ghost predicate SameBut(k': Conn, k: Conn)
  {
    k' == k.(sw := k'.sw, w := k'.w, sent := k'.sent, inflight := k'.inflight)
  }

  /** From g to r connection c was given `more` bytes and some went out, in order; if it is gone, what went out is a
      prefix, and all of it when it finished. */
  ghost predicate Moved(g: State, r: State, c: ConnId, more: bytes)
    requires c in g.conns
  {
    var k := g.conns[c];
    if c in r.conns then SameBut(r.conns[c], k) && r.conns[c].inflight == k.inflight && Out(r.conns[c]) == Out(k) + more
    else
      && c in r.closed && SameBut(r.closed[c].last, k) && r.closed[c].last.sent <= Out(k) + more
      && (r.closed[c].why.Finished? ==> r.closed[c].last.sent == Out(k) + more && (k.streaming ==> k.ended))
  }

  /** A connection after a flush of its active buffer. */
  function AfterFlush(k: Conn, f: Flush): Conn
  {
    if k.streaming then k.(sw := f.rest, sent := k.sent + f.sent) else k.(w := f.rest, sent := k.sent + f.sent)
  }

  function Active(k: Conn): bytes { if k.streaming then k.sw else k.w }

  /** Why a flush ends the connection, if it does. */
  function FlushEnds(k: Conn, f: Flush, io: Io): Option<Why>
  {
    match f.outcome
    case Blocked => None
    case Broken => Some(NetError)
    case Drained =>
      if !k.streaming || k.ended then Some(Finished) else if io.rearm then None else Some(PollFailed)
  }

  /** on_writable: send what the socket takes; a finished response closes the connection. */
  function OnWritable(g: State, c: ConnId, io: Io): (r: State)
    requires Inv(g) && c in g.conns && !g.conns[c].phase.Reading?
    ensures Good(g, r, c) && (c in r.conns ==> r.conns[c].phase == g.conns[c].phase)
  {
    var k := g.conns[c];
    var f := Drain(Active(k), io.net);
    assert |f.sent + f.rest| == |Active(k)|;
    var h := Update(g, c, AfterFlush(k, f));
    var ends := FlushEnds(k, f, io);
    if ends.None? then h else
    var r := Close(h, c, ends.value);
    GoodTrans(g, h, r, c);
    r
  }

  lemma {:induction false} FlushKeeps(k: Conn, f: Flush)
    requires f.sent + f.rest == Active(k)
    ensures Out(AfterFlush(k, f)) == Out(k) && AfterFlush(k, f).sent <= Out(k)
    ensures f.rest == [] ==> AfterFlush(k, f).sent == Out(k)
  {
    Assoc(k.sent, f.sent, f.rest);
  }

  lemma {:induction false} WritableMoves(g: State, c: ConnId, io: Io)
    requires Inv(g) && c in g.conns && !g.conns[c].phase.Reading?
    ensures Moved(g, OnWritable(g, c, io), c, [])
  {
    var k := g.conns[c];
    FlushKeeps(k, Drain(Active(k), io.net));
    assert Out(k) + [] == Out(k);
  }

  /** stream_push: append under the 4 MiB cap, or drop a client that cannot keep up; then arm the socket and drain. */
  function Push(g: State, c: ConnId, data: bytes, io: Io): (r: State)
    requires Inv(g) && c in g.conns && !g.conns[c].phase.Reading?
    ensures Good(g, r, c) && (c in r.conns ==> r.conns[c].phase == g.conns[c].phase)
  {
    var k := g.conns[c];
    if data != [] && |k.sw| + |data| > STREAM_MAX then Close(g, c, TooSlow)
    else if data != [] && !io.mem then Close(g, c, NoMemory)
    else
      var h := Update(g, c, k.(sw := k.sw + data));
      Kick(g, h, c, io)
  }

  /** stream_kick and conn_flush: arm the socket and drain. */
  function Kick(ghost g: State, h: State, c: ConnId, io: Io): (r: State)
    requires Good(g, h, c) && c in h.conns && !h.conns[c].phase.Reading?
    ensures Good(g, r, c) && (c in r.conns ==> r.conns[c].phase == h.conns[c].phase)
  {
    var r := if io.arm then OnWritable(h, c, io) else Close(h, c, PollFailed);
    GoodTrans(g, h, r, c);
    r
  }

  lemma {:induction false} KickMoves(g: State, h: State, c: ConnId, io: Io)
    requires Good(g, h, c) && c in h.conns && !h.conns[c].phase.Reading?
    ensures Moved(h, Kick(g, h, c, io), c, [])
  {
    WritableMoves(h, c, io);
  }

  lemma {:induction false} MovedAfterAppend(g: State, h: State, r: State, c: ConnId, data: bytes)
    requires c in g.conns && g.conns[c].streaming
    requires c in h.conns && h.conns[c] == g.conns[c].(sw := g.conns[c].sw + data) && Moved(h, r, c, [])
    ensures Moved(g, r, c, data)
  {
    var k := g.conns[c];
    Assoc(k.sent, k.sw, data);
    assert Out(h.conns[c]) + [] == Out(k) + data;
  }

  lemma {:induction false} MovedByClosing(g: State, r: State, c: ConnId, why: Why, data: bytes)
    requires c in g.conns && c !in r.conns && c in r.closed && !why.Finished?
    requires r.closed[c] == Gone(g.conns[c].(inflight := false), why)
    ensures Moved(g, r, c, data)
  {
    Assoc(g.conns[c].sent, Active(g.conns[c]), data);
  }

  lemma {:induction false} PushMoves(g: State, c: ConnId, data: bytes, io: Io)
    requires Inv(g) && c in g.conns && !g.conns[c].phase.Reading? && g.conns[c].streaming
    ensures Moved(g, Push(g, c, data, io), c, data)
  {
    var k, r := g.conns[c], Push(g, c, data, io);
    if data != [] && |k.sw| + |data| > STREAM_MAX {
      MovedByClosing(g, r, c, TooSlow, data);
    } else if data != [] && !io.mem {
      MovedByClosing(g, r, c, NoMemory, data);
    } else {
      var h := Update(g, c, k.(sw := k.sw + data));
      KickMoves(g, h, c, io);
      MovedAfterAppend(g, h, r, c, data);
    }
  }

  function WithText(k: Conn, status: nat, text: bytes): Conn
  {
    k.(w := text, status := Some(status), head := text, phase := Writing)
  }

  /** conn_respond and conn_flush: one atomic response, or none when it cannot be formatted. */
  function Respond(g: State, c: ConnId, status: nat, env: Env): (r: State)
    requires Inv(g) && c in g.conns
    ensures Good(g, r, c)
  {
    if env.text.None? then Close(g, c, NoMemory) else
    var h := Update(g, c, WithText(g.conns[c], status, env.text.value));
    Kick(g, h, c, env.io)
  }

  lemma {:induction false} RespondMoves(g: State, c: ConnId, status: nat, env: Env)
    requires Inv(g) && c in g.conns && env.text.Some?
    ensures var h := g.(conns := g.conns[c := WithText(g.conns[c], status, env.text.value)]);
      Moved(h, Respond(g, c, status, env), c, [])
  {
    KickMoves(g, Update(g, c, WithText(g.conns[c], status, env.text.value)), c, env.io);
  }

  /** Several pushes in a row, given up when one of them closes the connection. */
  function PushAll(g: State, c: ConnId, parts: seq<(bytes, Io)>): (r: State)
    requires Inv(g) && (c in g.conns ==> !g.conns[c].phase.Reading?)
    ensures Good(g, r, c)
    decreases |parts|
  {
    GoodRefl(g, c);
    if parts == [] || c !in g.conns then g else
    var h := Push(g, c, parts[0].0, parts[0].1);
    var r := PushAll(h, c, parts[1..]);
    GoodTrans(g, h, r, c);
    r
  }

  // ---- frames from a controller ----

  /** RESPONSE: the slot is done; the client gets the answer, or a 502 when it does not decode. */
  function Deliver(g: State, c: ConnId, payload: bytes, env: Env): (r: State)
    requires Inv(g) && c in g.conns && g.conns[c].inflight
    ensures Good(g, r, c)
  {
    var m := Release(g, c);
    var resp := Wire.DecodeResponseEx(payload);
    var r := Respond(m, c, if resp.None? then 502 else resp.value.0.status, env);
    GoodTrans(g, m, r, c);
    r
  }

  function Begun(k: Conn, b: Wire.Begin, head: bytes): Conn
  {
    k.(streaming := true, sse := b.flags % 2 == 1, headSent := true, phase := Streaming, status := Some(b.status),
       head := head, log := [])
  }

  /** RESPONSE_BEGIN: the connection becomes a stream and its head is queued. */
  function DeliverBegin(g: State, c: ConnId, payload: bytes, head: Option<bytes>, env: Env): (r: State)
    requires Inv(g) && c in g.conns && g.conns[c].inflight
    ensures Good(g, r, c)
  {
    var b := Wire.DecodeBegin(payload);
    if b.None? then
      var m := Release(g, c);
      var r := Respond(m, c, 502, env);
      GoodTrans(g, m, r, c);
      r
    else if head.None? then Close(g, c, NoMemory)
    else
      var h := Update(g, c, Begun(g.conns[c], b.value, head.value));
      var r := Push(h, c, head.value, env.io);
      GoodTrans(g, h, r, c);
      r
  }

  /** How one data item goes into the drain buffer: raw, or as size line, data and CRLF. */
  function Pieces(k: Conn, data: bytes, env: Env): seq<(bytes, Io)>
  {
    if k.sse then [(data, env.io)]
    else [(Chunked.Hex(|data|) + Chunked.CRLF, env.io), (data, env.io2), (Chunked.CRLF, env.io3)]
  }

  /** RESPONSE_CHUNK: dropped unless a stream has begun. */
  function DeliverChunk(g: State, c: ConnId, payload: bytes, env: Env): (r: State)
    requires Inv(g) && c in g.conns && g.conns[c].inflight
    ensures Good(g, r, c)
  {
    var k, data := g.conns[c], Wire.DecodeChunk(payload);
    GoodRefl(g, c);
    if !k.streaming || data.None? || data.value == [] then g else
    var h := Update(g, c, k.(log := k.log + [data.value]));
    var r := PushAll(h, c, Pieces(k, data.value, env));
    GoodTrans(g, h, r, c);
    r
  }

  /** RESPONSE_END: the slot is done; the stream closes once drained, a connection without BEGIN at once. */
  function DeliverEnd(g: State, c: ConnId, env: Env): (r: State)
    requires Inv(g) && c in g.conns && g.conns[c].inflight
    ensures Good(g, r, c)
  {
    var m := Release(g, c);
    var r := if m.conns[c].streaming then EndStream(m, c, env) else Close(m, c, EndBeforeBegin);
    GoodTrans(g, m, r, c);
    r
  }

  function EndStream(g: State, c: ConnId, env: Env): (r: State)
    requires Inv(g) && c in g.conns && !g.conns[c].phase.Reading?
    ensures Good(g, r, c)
  {
    var h := Update(g, c, g.conns[c].(ended := true));
    var r := Push(h, c, if g.conns[c].sse then [] else Chunked.TERMINATOR, env.io);
    GoodTrans(g, h, r, c);
    r
  }

  /** WS_MSG: relayed as one frame to an upgraded client. */
  function WsDeliver(g: State, c: ConnId, payload: bytes, env: Env): (r: State)
    requires Inv(g) && c in g.conns && g.conns[c].inflight
    ensures Good(g, r, c)
  {
    var k, msg := g.conns[c], Wire.DecodeWsMsg(payload);
    GoodRefl(g, c);
    if !k.isWs || msg.None? then g else
    WsPush(g, c, Ws.Encode(if msg.value.0 == Ws.BIN then Ws.BIN else Ws.TEXT, msg.value.1), env.io)
  }

  function WsPush(g: State, c: ConnId, frame: bytes, io: Io): (r: State)
    requires Inv(g) && c in g.conns && !g.conns[c].phase.Reading?
    ensures Good(g, r, c)
  {
    var h := Update(g, c, g.conns[c].(log := g.conns[c].log + [frame]));
    var r := Push(h, c, frame, io);
    GoodTrans(g, h, r, c);
    r
  }

  /** WS_CLOSE: the slot is done; a close frame goes out and the connection closes once it has drained. */
  function WsDeliverClose(g: State, c: ConnId, env: Env): (r: State)
    requires Inv(g) && c in g.conns && g.conns[c].inflight
    ensures Good(g, r, c)
  {
    var m := Release(g, c);
    var h := Update(m, c, m.conns[c].(ended := true));
    var r := WsPush(h, c, Ws.Encode(Ws.CLOSE, []), env.io);
    GoodTrans(m, h, r, c);
    GoodTrans(g, m, r, c);
    r
  }

  /** The handler of one kind of frame. */
  function Handle(g: State, c: ConnId, kind: byte, payload: bytes, head: Option<bytes>, env: Env): (r: State)
    requires Inv(g) && c in g.conns && g.conns[c].inflight
    ensures Good(g, r, c)
  {
    GoodRefl(g, c);
    if kind == RESPONSE then Deliver(g, c, payload, env)
    else if kind == RESPONSE_BEGIN then DeliverBegin(g, c, payload, head, env)
    else if kind == RESPONSE_CHUNK then DeliverChunk(g, c, payload, env)
    else if kind == RESPONSE_END then DeliverEnd(g, c, env)
    else if kind == WS_MSG then WsDeliver(g, c, payload, env)
    else if kind == WS_CLOSE then WsDeliverClose(g, c, env)
    else g
  }

  /** The connection an id resolves to is in flight. */
  lemma {:induction false} ResolvedInFlight(g: State, id: nat)
    requires Inv(g) && ConnForId(g, id).Some?
    ensures var c := ConnForId(g, id).value; c in g.conns && g.conns[c].inflight
  {
    assert Holds(g, SlotOf(id), ConnForId(g, id).value);
  }

  /** One frame from a controller, resolved by its id alone; a frame whose id resolves to nothing is dropped. */
  function FromCtrl(g: State, kind: byte, id: nat, payload: bytes, head: Option<bytes>, env: Env): (r: State)
    requires Inv(g)
    ensures match ConnForId(g, id) case None => r == g case Some(c) => Good(g, r, c)
  {
    match ConnForId(g, id)
    case None => g
    case Some(c) =>
      ResolvedInFlight(g, id);
      Handle(g, c, kind, payload, head, env)
  }
}
