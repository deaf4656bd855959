/** What controllers are asked: over every run a controller's queue is exactly the requests, WebSocket messages and
    close notices addressed to it, in order, each under the id of a connection in flight on it. */
module RelayQueue {
  import opened Bytes
  import opened Socket
  import opened Framing
  import opened Relay
  import opened RelayRun
  import opened RelayHistory
  import Incremental
  import RelayOutbox
  import Chunked
  import Wire
  import Ws

  // ---- what an event owes a controller ----

  /** The id of the next request: the top of the free stack at its current generation. */
  function NextId(g: State): nat
    requires Shape(g) && g.free != [] && g.free[|g.free| - 1] < SLOTS
  {
    g.gen[g.free[|g.free| - 1]] % 0x10_0000 * 4096 + g.free[|g.free| - 1]
  }

  /** A request is taken: it has a target, it could be encoded and queued, and a slot was free. */
  ghost predicate Accepted(g: State, target: Option<CtrlId>, payload: Option<bytes>, queued: bool)
  {
    target.Some? && payload.Some? && queued && g.free != []
  }

  /** The frame with which an event asks controller ct something. */
  ghost function AskedBy(g: State, e: Event, ct: CtrlId): seq<Frame>
    requires Inv(g)
  {
    match e
    case Forwarded(c, t, p, queued, _) =>
      if Accepted(g, t, p, queued) && t == Some(ct) then [Frame(2, REQUEST, NextId(g), p.value)] else []
    case WsUpgrade(c, t, p, queued, _, _) =>
      if Accepted(g, t, p, queued) && t == Some(ct) then [Frame(2, WS_OPEN, NextId(g), p.value)] else []
    case WsFrameIn(c, ToController(op, data), _) =>
      if c in g.conns && g.conns[c].inflight && g.conns[c].ctrl == Some(ct)
      then [Frame(2, WS_MSG, g.conns[c].reqId, Wire.PutWsMsg(op, data))] else []
    case _ => []
  }

  /** A frame with which the controller itself ends a request. */
  ghost predicate EndsRequest(e: Event)
  {
    e.CtrlFrame? && (|| e.kind in {RESPONSE, RESPONSE_END, WS_CLOSE}
                     || (e.kind == RESPONSE_BEGIN && Wire.DecodeBegin(e.payload).None?))
  }

  /** The controller and the id a WebSocket is in flight under. */
  ghost function InFlightOn(g: State, c: Option<ConnId>): Option<(CtrlId, nat)>
  {
    if c.Some? && c.value in g.conns && g.conns[c.value].inflight && g.conns[c.value].isWs
       && g.conns[c.value].ctrl.Some?
    then Some((g.conns[c.value].ctrl.value, g.conns[c.value].reqId)) else None
  }

  /** The same for the connection an event is about, which may be a new WebSocket. */
  ghost function OnSocket(g: State, e: Event): Option<(CtrlId, nat)>
    requires Inv(g)
  {
    if !e.WsUpgrade? then InFlightOn(g, Whose(g, e))
    else if Accepted(g, e.target, e.request, e.queued) then Some((e.target.value, NextId(g))) else None
  }

  ghost predicate Left(r: State, c: Option<ConnId>) { c.Some? && c.value !in r.conns }

  /** The notice that a WebSocket is gone, unless the controller ended it itself: status 1000. */
  ghost function NoticeBy(g: State, e: Event, r: State, ct: CtrlId): seq<Frame>
    requires Inv(g)
  {
    if OnSocket(g, e).Some? && OnSocket(g, e).value.0 == ct && Left(r, Whose(g, e)) && !EndsRequest(e)
    then [Frame(2, WS_CLOSE, OnSocket(g, e).value.1, [3, 232])] else []
  }

  ghost function Owed(g: State, e: Event, r: State, ct: CtrlId): seq<Frame>
    requires Inv(g)
  {
    AskedBy(g, e, ct) + NoticeBy(g, e, r, ct)
  }

  // ---- one step ----

  function Notice(k: Conn): Frame { Frame(2, WS_CLOSE, k.reqId, [3, 232]) }

  /** The queues after a step on behalf of c that frees its slot only by closing: a WebSocket in flight that is gone has
      left a notice. */
  ghost predicate Parted(g: State, r: State, c: ConnId)
    requires c in g.conns
  {
    var k := g.conns[c];
    if c in r.conns || !k.inflight || !k.isWs then r.ctrls == g.ctrls
    else && k.ctrl.Some? && k.ctrl.value in g.ctrls
         && r.ctrls == g.ctrls[k.ctrl.value := g.ctrls[k.ctrl.value] + [Notice(k)]]
  }

  /** k' has the place in the slot table and the kind that k has. */
  ghost predicate SamePlace(k': Conn, k: Conn)
  {
    k'.inflight == k.inflight && k'.isWs == k.isWs && k'.reqId == k.reqId && k'.ctrl == k.ctrl
  }

  lemma {:induction false} PartedAfter(g: State, h: State, r: State, c: ConnId)
    requires c in g.conns && c in h.conns && SamePlace(h.conns[c], g.conns[c]) && h.ctrls == g.ctrls && Parted(h, r, c)
    ensures Parted(g, r, c)
  {
  }

  lemma {:induction false} CloseParts(g: State, c: ConnId, why: Why)
    requires Inv(g) && c in g.conns
    ensures Parted(g, Close(g, c, why), c)
  {
    assert Wire.U16(1000) == [3, 232];
  }

  lemma {:induction false} WritableParts(g: State, c: ConnId, io: Io)
    requires Inv(g) && c in g.conns && !g.conns[c].phase.Reading?
    ensures Parted(g, OnWritable(g, c, io), c)
  {
    var k := g.conns[c];
    var f := Drain(Active(k), io.net);
    assert |f.sent + f.rest| == |Active(k)|;
    var h := Update(g, c, AfterFlush(k, f));
    var ends := FlushEnds(k, f, io);
    if ends.Some? {
      CloseParts(h, c, ends.value);
      PartedAfter(g, h, Close(h, c, ends.value), c);
    }
  }

  lemma {:induction false} KickParts(g: State, h: State, c: ConnId, io: Io)
    requires Good(g, h, c) && c in h.conns && !h.conns[c].phase.Reading?
    ensures Parted(h, Kick(g, h, c, io), c)
  {
    if io.arm { WritableParts(h, c, io); } else { CloseParts(h, c, PollFailed); }
  }

  lemma {:induction false} PushParts(g: State, c: ConnId, data: bytes, io: Io)
    requires Inv(g) && c in g.conns && !g.conns[c].phase.Reading?
    ensures Parted(g, Push(g, c, data, io), c)
  {
    var k, r := g.conns[c], Push(g, c, data, io);
    if data != [] && |k.sw| + |data| > STREAM_MAX {
      CloseParts(g, c, TooSlow);
    } else if data != [] && !io.mem {
      CloseParts(g, c, NoMemory);
    } else {
      var h := Update(g, c, k.(sw := k.sw + data));
      KickParts(g, h, c, io);
      PartedAfter(g, h, r, c);
    }
  }

  lemma {:induction false} RespondParts(g: State, c: ConnId, status: nat, env: Env)
    requires Inv(g) && c in g.conns
    ensures Parted(g, Respond(g, c, status, env), c)
  {
    if env.text.None? {
      CloseParts(g, c, NoMemory);
    } else {
      var h := Update(g, c, WithText(g.conns[c], status, env.text.value));
      KickParts(g, h, c, env.io);
      PartedAfter(g, h, Respond(g, c, status, env), c);
    }
  }

  /** Pushes keep the place of a connection that stays. */
  lemma {:induction false} PushStays(g: State, c: ConnId, data: bytes, io: Io)
    requires Inv(g) && c in g.conns && !g.conns[c].phase.Reading?
    ensures var r := Push(g, c, data, io); c in r.conns ==> SamePlace(r.conns[c], g.conns[c])
  {
    var k := g.conns[c];
    if !(data != [] && |k.sw| + |data| > STREAM_MAX) && !(data != [] && !io.mem) {
      KickStays(g, Update(g, c, k.(sw := k.sw + data)), c, io);
    }
  }

  lemma {:induction false} KickStays(g: State, h: State, c: ConnId, io: Io)
    requires Good(g, h, c) && c in h.conns && !h.conns[c].phase.Reading?
    ensures var r := Kick(g, h, c, io); c in r.conns ==> SamePlace(r.conns[c], h.conns[c])
  {
    KickMoves(g, h, c, io);
  }

  lemma {:induction false} PushAllParts(g: State, c: ConnId, parts: seq<(bytes, Io)>)
    requires Inv(g) && c in g.conns && !g.conns[c].phase.Reading?
    ensures Parted(g, PushAll(g, c, parts), c)
    decreases |parts|
  {
    if parts != [] {
      var h := Push(g, c, parts[0].0, parts[0].1);
      PushParts(g, c, parts[0].0, parts[0].1);
      PushStays(g, c, parts[0].0, parts[0].1);
      if c in h.conns {
        PushAllParts(h, c, parts[1..]);
        PartedAfter(g, h, PushAll(h, c, parts[1..]), c);
      }
    }
  }

  lemma {:induction false} WsPushParts(g: State, c: ConnId, frame: bytes, io: Io)
    requires Inv(g) && c in g.conns && !g.conns[c].phase.Reading?
    ensures Parted(g, WsPush(g, c, frame, io), c)
  {
    var h := Update(g, c, g.conns[c].(log := g.conns[c].log + [frame]));
    PushParts(h, c, frame, io);
    PartedAfter(g, h, Push(h, c, frame, io), c);
  }

  // ---- frames from a controller ----

  /** What the handler of a frame for c does to the queues. */
  ghost predicate Handled(g: State, r: State, c: ConnId, ends: bool)
    requires c in g.conns
  {
    if ends then r.ctrls == g.ctrls else Parted(g, r, c)
  }

  lemma {:induction false} DeliverHandled(g: State, c: ConnId, payload: bytes, env: Env)
    requires Inv(g) && c in g.conns && g.conns[c].inflight
    ensures Deliver(g, c, payload, env).ctrls == g.ctrls
  {
    var resp := Wire.DecodeResponseEx(payload);
    RespondParts(Release(g, c), c, if resp.None? then 502 else resp.value.0.status, env);
  }

  lemma {:induction false} BeginHandled(g: State, c: ConnId, payload: bytes, head: Option<bytes>, env: Env)
    requires Inv(g) && c in g.conns && g.conns[c].inflight
    ensures Handled(g, DeliverBegin(g, c, payload, head, env), c, Wire.DecodeBegin(payload).None?)
  {
    var b := Wire.DecodeBegin(payload);
    if b.None? {
      RespondParts(Release(g, c), c, 502, env);
    } else if head.None? {
      CloseParts(g, c, NoMemory);
    } else {
      var h := Update(g, c, Begun(g.conns[c], b.value, head.value));
      PushParts(h, c, head.value, env.io);
      PartedAfter(g, h, Push(h, c, head.value, env.io), c);
    }
  }

  lemma {:induction false} ChunkHandled(g: State, c: ConnId, payload: bytes, env: Env)
    requires Inv(g) && c in g.conns && g.conns[c].inflight
    ensures Parted(g, DeliverChunk(g, c, payload, env), c)
  {
    var k, data := g.conns[c], Wire.DecodeChunk(payload);
    if k.streaming && data.Some? && data.value != [] {
      var h := Update(g, c, k.(log := k.log + [data.value]));
      PushAllParts(h, c, Pieces(k, data.value, env));
      PartedAfter(g, h, PushAll(h, c, Pieces(k, data.value, env)), c);
    }
  }

  lemma {:induction false} EndHandled(g: State, c: ConnId, env: Env)
    requires Inv(g) && c in g.conns && g.conns[c].inflight
    ensures DeliverEnd(g, c, env).ctrls == g.ctrls
  {
    var m := Release(g, c);
    var k := m.conns[c];
    if k.streaming {
      PushParts(Update(m, c, k.(ended := true)), c, if k.sse then [] else Chunked.TERMINATOR, env.io);
    } else {
      CloseParts(m, c, EndBeforeBegin);
    }
  }

  lemma {:induction false} WsMsgHandled(g: State, c: ConnId, payload: bytes, env: Env)
    requires Inv(g) && c in g.conns && g.conns[c].inflight
    ensures Parted(g, WsDeliver(g, c, payload, env), c)
  {
    var msg := Wire.DecodeWsMsg(payload);
    if g.conns[c].isWs && msg.Some? {
      WsPushParts(g, c, Ws.Encode(if msg.value.0 == Ws.BIN then Ws.BIN else Ws.TEXT, msg.value.1), env.io);
    }
  }

  lemma {:induction false} WsCloseHandled(g: State, c: ConnId, env: Env)
    requires Inv(g) && c in g.conns && g.conns[c].inflight
    ensures WsDeliverClose(g, c, env).ctrls == g.ctrls
  {
    var m := Release(g, c);
    WsPushParts(Update(m, c, m.conns[c].(ended := true)), c, Ws.Encode(Ws.CLOSE, []), env.io);
  }

  lemma {:induction false} FrameHandled(g: State, e: Event, c: ConnId)
    requires Inv(g) && For(g, e, c) && c in g.conns && g.conns[c].inflight
    ensures Handled(g, Step(g, e), c, EndsRequest(e))
  {
    StepIsHandle(g, e, c);
    if e.kind == RESPONSE { DeliverHandled(g, c, e.payload, e.env); }
    else if e.kind == RESPONSE_BEGIN { BeginHandled(g, c, e.payload, e.streamHead, e.env); }
    else if e.kind == RESPONSE_CHUNK { ChunkHandled(g, c, e.payload, e.env); }
    else if e.kind == RESPONSE_END { EndHandled(g, c, e.env); }
    else if e.kind == WS_MSG { WsMsgHandled(g, c, e.payload, e.env); }
    else if e.kind == WS_CLOSE { WsCloseHandled(g, c, e.env); }
  }

  // ---- every event ----

  lemma {:induction false} IdIs(g: State)
    requires Inv(g) && g.free != []
    ensures var s := g.free[|g.free| - 1]; s < SLOTS && NextId(g) == IdFor(g.gen[s], s)
  {
  }

  /** Binding queues one frame under the new id, for its controller only. */
  lemma {:induction false} BindQueues(g: State, c: ConnId, k: Conn, ct: CtrlId, kind: byte, payload: bytes)
    requires Inv(g) && c in g.conns && !g.conns[c].inflight && ct in g.ctrls && g.free != []
    requires !k.phase.Reading? && |k.sw| <= STREAM_MAX && k.streaming == k.headSent
    ensures var r := Bind(g, c, k, ct, kind, payload);
      && r.ctrls == g.ctrls[ct := g.ctrls[ct] + [Frame(2, kind, NextId(g), payload)]]
      && r.conns[c] == k.(inflight := true, reqId := NextId(g), ctrl := Some(ct))
  {
    IdIs(g);
  }

  /** The queues of r are those of g, with these frames behind ct's. */
  ghost predicate Queued(g: State, r: State, ct: CtrlId, fs: seq<Frame>)
  {
    (ct in g.ctrls && ct in r.ctrls) ==> r.ctrls[ct] == g.ctrls[ct] + fs
  }

  lemma {:induction false} QueuedNothing(g: State, r: State, ct: CtrlId)
    requires ct in g.ctrls ==> (ct in r.ctrls ==> r.ctrls[ct] == g.ctrls[ct])
    ensures Queued(g, r, ct, [] + [])
  {
    if ct in g.ctrls { assert g.ctrls[ct] + ([] + []) == g.ctrls[ct]; }
  }

  lemma {:induction false} ForwardQueues(g: State, e: Event, ct: CtrlId)
    requires Inv(g) && Enabled(g, e) && e.Forwarded?
    ensures Queued(g, Step(g, e), ct, AskedBy(g, e, ct) + [])
  {
    var c := e.c;
    var none: seq<Frame> := [];
    if Accepted(g, e.target, e.request, e.queued) {
      BindQueues(g, c, g.conns[c].(phase := Waiting), e.target.value, REQUEST, e.request.value);
      assert [Frame(2, REQUEST, NextId(g), e.request.value)] + none == [Frame(2, REQUEST, NextId(g), e.request.value)];
    } else if e.target.None? {
      RespondParts(g, c, 503, e.env);
    } else if e.request.None? {
      RespondParts(g, c, 500, e.env);
    } else if g.free == [] {
      RespondParts(g, c, 503, e.env);
    } else {
      RespondParts(Burn(g), c, 503, e.env);
    }
    if ct in g.ctrls { assert g.ctrls[ct] + (none + none) == g.ctrls[ct]; }
  }

  /** A step on behalf of c that asks nothing. */
  lemma {:induction false} PartedQueues(g: State, e: Event, r: State, c: ConnId, ct: CtrlId)
    requires Inv(g) && c in g.conns && Whose(g, e) == Some(c) && !e.WsUpgrade? && AskedBy(g, e, ct) == []
    requires Handled(g, r, c, EndsRequest(e))
    ensures Queued(g, r, ct, Owed(g, e, r, ct))
  {
    var none: seq<Frame> := [];
    assert none + NoticeBy(g, e, r, ct) == NoticeBy(g, e, r, ct);
    if ct in g.ctrls { assert g.ctrls[ct] + none == g.ctrls[ct]; }
  }

  lemma {:induction false} UpgradeQueues(g: State, e: Event, ct: CtrlId)
    requires Inv(g) && Enabled(g, e) && e.WsUpgrade?
    ensures Queued(g, Step(g, e), ct, Owed(g, e, Step(g, e), ct))
  {
    if Accepted(g, e.target, e.request, e.queued) {
      OpenQueues(g, e, ct);
    } else {
      ForwardQueues(g, Forwarded(e.c, e.target, e.request, false, e.env), ct);
    }
  }

  lemma {:induction false} OpenQueues(g: State, e: Event, ct: CtrlId)
    requires Inv(g) && Enabled(g, e) && e.WsUpgrade? && Accepted(g, e.target, e.request, e.queued)
    ensures Queued(g, Step(g, e), ct, Owed(g, e, Step(g, e), ct))
  {
    var h := OpenIs(g, e);
    PushParts(h, e.c, e.head, e.env.io);
    Opened(g, h, Push(h, e.c, e.head, e.env.io), e, ct);
  }

  lemma {:induction false} OpenIs(g: State, e: Event) returns (h: State)
    requires Inv(g) && Enabled(g, e) && e.WsUpgrade? && Accepted(g, e.target, e.request, e.queued)
    ensures h.ctrls == g.ctrls[e.target.value := g.ctrls[e.target.value] + AskedBy(g, e, e.target.value)]
    ensures Inv(h) && e.c in h.conns && h.conns[e.c].inflight && h.conns[e.c].isWs && h.conns[e.c].reqId == NextId(g)
    ensures h.conns[e.c].ctrl == e.target && !h.conns[e.c].phase.Reading?
    ensures Step(g, e) == Push(h, e.c, e.head, e.env.io)
  {
    var k := Upgraded(g.conns[e.c], e.head);
    h := Bind(g, e.c, k, e.target.value, WS_OPEN, e.request.value);
    BindQueues(g, e.c, k, e.target.value, WS_OPEN, e.request.value);
  }

  lemma {:induction false} Opened(g: State, h: State, r: State, e: Event, ct: CtrlId)
    requires Inv(g) && e.WsUpgrade? && Accepted(g, e.target, e.request, e.queued) && e.target.value in g.ctrls
    requires h.ctrls == g.ctrls[e.target.value := g.ctrls[e.target.value] + AskedBy(g, e, e.target.value)]
    requires e.c in h.conns && h.conns[e.c].inflight && h.conns[e.c].isWs && h.conns[e.c].reqId == NextId(g)
    requires h.conns[e.c].ctrl == e.target && Parted(h, r, e.c)
    ensures Queued(g, r, ct, Owed(g, e, r, ct))
  {
    var none: seq<Frame> := [];
    if ct in g.ctrls {
      assert g.ctrls[ct] + none == g.ctrls[ct];
      assert h.ctrls[ct] + none == h.ctrls[ct];
      AskedThenGone(g, h, r, ct, AskedBy(g, e, ct), NoticeBy(g, e, r, ct));
    }
  }

  lemma {:induction false} AskedThenGone(g: State, h: State, r: State, ct: CtrlId, a: seq<Frame>, b: seq<Frame>)
    requires ct in g.ctrls && ct in h.ctrls && h.ctrls[ct] == g.ctrls[ct] + a
    requires ct in r.ctrls && r.ctrls[ct] == h.ctrls[ct] + b
    ensures Queued(g, r, ct, a + b)
  {
    Assoc(g.ctrls[ct], a, b);
  }

  lemma {:induction false} WsInQueues(g: State, e: Event, ct: CtrlId)
    requires Inv(g) && Enabled(g, e) && e.WsFrameIn?
    ensures Queued(g, Step(g, e), ct, Owed(g, e, Step(g, e), ct))
  {
    var c, r := e.c, Step(g, e);
    if e.action.ToController? {
      var asked, none: seq<Frame> := AskedBy(g, e, ct), [];
      assert asked + none == asked;
      if ct in g.ctrls { assert g.ctrls[ct] + none == g.ctrls[ct]; }
    } else {
      if e.action.PongBack? { WsPushParts(g, c, Ws.Encode(Ws.PONG, e.action.data), e.env.io); }
      PartedQueues(g, e, r, c, ct);
    }
  }

  lemma {:induction false} FrameQueues(g: State, e: Event, ct: CtrlId)
    requires Inv(g) && e.CtrlFrame?
    ensures Queued(g, Step(g, e), ct, Owed(g, e, Step(g, e), ct))
  {
    match ConnForId(g, e.id)
    case None => QueuedNothing(g, Step(g, e), ct);
    case Some(c) =>
      ResolvedInFlight(g, e.id);
      FrameHandled(g, e, c);
      PartedQueues(g, e, Step(g, e), c, ct);
  }

  lemma {:induction false} SweepSlotQueues(g: State, ct: CtrlId, s: nat, env: Env)
    requires Inv(g) && s < SLOTS
    ensures SweepSlot(g, ct, s, env).ctrls == g.ctrls
  {
    if g.pending[s].Some? {
      var c := g.pending[s].value;
      assert Holds(g, s, c);
      if g.conns[c].ctrl == Some(ct) {
        var m := Release(g, c);
        if m.conns[c].headSent { CloseParts(m, c, CtrlGone); } else { RespondParts(m, c, 502, env); }
      }
    }
  }

  lemma {:induction false} SweepQueues(g: State, ct: CtrlId, envs: seq<Env>, n: nat)
    requires Inv(g) && n <= SLOTS == |envs|
    ensures Sweep(g, ct, envs, n).ctrls == g.ctrls
    decreases n
  {
    if n > 0 {
      SweepQueues(g, ct, envs, n - 1);
      SweepOneQueues(g, ct, envs, n);
    }
  }

  lemma {:induction false} SweepOneQueues(g: State, ct: CtrlId, envs: seq<Env>, n: nat)
    requires Inv(g) && 0 < n <= SLOTS == |envs|
    ensures Sweep(g, ct, envs, n).ctrls == Sweep(g, ct, envs, n - 1).ctrls
  {
    SweepSlotQueues(Sweep(g, ct, envs, n - 1), ct, n - 1, envs[n - 1]);
    SweepStep(g, ct, envs, n);
  }

  lemma {:induction false} OwnQueues(g: State, e: Event, c: ConnId, ct: CtrlId)
    requires Inv(g) && Enabled(g, e) && Whose(g, e) == Some(c) && (e.Answer? || e.Writable? || e.Hangup?)
    ensures Queued(g, Step(g, e), ct, Owed(g, e, Step(g, e), ct))
  {
    if e.Answer? { RespondParts(g, c, e.status, e.env); }
    else if e.Writable? { WritableParts(g, c, e.io); }
    else { CloseParts(g, c, ClientGone); }
    PartedQueues(g, e, Step(g, e), c, ct);
  }

  /** Every event appends to a controller's queue exactly what it owes it. */
  lemma {:induction false} StepQueues(g: State, e: Event, ct: CtrlId)
    requires Inv(g) && Enabled(g, e)
    ensures Queued(g, Step(g, e), ct, Owed(g, e, Step(g, e), ct))
  {
    match e
    case Accept => NewcomerQueues(g, e, ct);
    case Spawn(_) => NewcomerQueues(g, e, ct);
    case Answer(c, _, _) => OwnQueues(g, e, c, ct);
    case Writable(c, _) => OwnQueues(g, e, c, ct);
    case Hangup(c) => OwnQueues(g, e, c, ct);
    case Forwarded(c, _, _, _, _) => ForwardOwes(g, e, ct);
    case WsUpgrade(_, _, _, _, _, _) => UpgradeQueues(g, e, ct);
    case WsFrameIn(_, _, _) => WsInQueues(g, e, ct);
    case CtrlFrame(_, _, _, _, _) => FrameQueues(g, e, ct);
    case CtrlDied(_, _) => DeathQueues(g, e, ct);
  }

  lemma {:induction false} NewcomerQueues(g: State, e: Event, ct: CtrlId)
    requires Inv(g) && Enabled(g, e) && (e.Accept? || e.Spawn?)
    ensures Queued(g, Step(g, e), ct, Owed(g, e, Step(g, e), ct))
  {
    QueuedNothing(g, Step(g, e), ct);
  }

  lemma {:induction false} DeathQueues(g: State, e: Event, ct: CtrlId)
    requires Inv(g) && Enabled(g, e) && e.CtrlDied?
    ensures Queued(g, Step(g, e), ct, Owed(g, e, Step(g, e), ct))
  {
    DiedQueues(g, e.ct, e.envs);
    QueuedNothing(g, Died(g, e.ct, e.envs), ct);
  }

  lemma {:induction false} DiedQueues(g: State, ct: CtrlId, envs: seq<Env>)
    requires Inv(g) && |envs| == SLOTS
    ensures Died(g, ct, envs).ctrls == g.ctrls - {ct}
  {
    SweepQueues(g, ct, envs, |envs|);
    NobodyWaits(g, ct, envs);
  }

  lemma {:induction false} ForwardOwes(g: State, e: Event, ct: CtrlId)
    requires Inv(g) && Enabled(g, e) && e.Forwarded?
    ensures Queued(g, Step(g, e), ct, Owed(g, e, Step(g, e), ct))
  {
    ForwardQueues(g, e, ct);
    assert NoticeBy(g, e, Step(g, e), ct) == [];
  }

  // ---- under whose id ----

  /** Connection c is in flight on ct under id. */
  ghost predicate FlyingOn(g: State, c: ConnId, ct: CtrlId, id: nat)
  {
    c in g.conns && g.conns[c].inflight && g.conns[c].ctrl == Some(ct) && g.conns[c].reqId == id
  }

  /** A frame that is owed carries the id of a connection that is in flight on that controller: the one the event is
      about, before the event or, for a new request, after it. */
  lemma {:induction false} OwedUnder(g: State, e: Event, ct: CtrlId, f: Frame)
    requires Inv(g) && Enabled(g, e) && f in Owed(g, e, Step(g, e), ct)
    ensures match Whose(g, e)
      case None => false
      case Some(c) => FlyingOn(g, c, ct, f.id) || (c in Step(g, e).conns ==> FlyingOn(Step(g, e), c, ct, f.id))
  {
    if e.Forwarded? || e.WsUpgrade? {
      if Accepted(g, e.target, e.request, e.queued) { AskedFlies(g, e); }
    }
  }

  lemma {:induction false} AskedFlies(g: State, e: Event)
    requires Inv(g) && Enabled(g, e) && (e.Forwarded? || e.WsUpgrade?) && Accepted(g, e.target, e.request, e.queued)
    ensures e.c in Step(g, e).conns ==> FlyingOn(Step(g, e), e.c, e.target.value, NextId(g))
  {
    if e.Forwarded? {
      BindQueues(g, e.c, g.conns[e.c].(phase := Waiting), e.target.value, REQUEST, e.request.value);
    } else {
      var k := Upgraded(g.conns[e.c], e.head);
      BindQueues(g, e.c, k, e.target.value, WS_OPEN, e.request.value);
      PushStays(Bind(g, e.c, k, e.target.value, WS_OPEN, e.request.value), e.c, e.head, e.env.io);
    }
  }

  // ---- runs ----

  /** Controller ct is up all along. */
  ghost predicate Serving(g: State, es: seq<Event>, ct: CtrlId)
    requires Inv(g) && Possible(g, es)
    decreases |es|
  {
    ct in g.ctrls && (es == [] || Serving(Step(g, es[0]), es[1..], ct))
  }

  ghost function OwedOver(g: State, es: seq<Event>, ct: CtrlId): seq<Frame>
    requires Inv(g) && Possible(g, es)
    decreases |es|
  {
    if es == [] then [] else Owed(g, es[0], Step(g, es[0]), ct) + OwedOver(Step(g, es[0]), es[1..], ct)
  }

  /** Over every run, as long as a controller is up, its queue is what it was and exactly what the events owed it
      since, in order. */
  lemma {:induction false} RunQueues(g: State, es: seq<Event>, ct: CtrlId)
    requires Inv(g) && Possible(g, es) && Serving(g, es, ct)
    ensures ct in Run(g, es).ctrls && Run(g, es).ctrls[ct] == g.ctrls[ct] + OwedOver(g, es, ct)
    decreases |es|
  {
    if es == [] {
      assert g.ctrls[ct] + [] == g.ctrls[ct];
    } else {
      var h := Step(g, es[0]);
      StepQueues(g, es[0], ct);
      RunQueues(h, es[1..], ct);
      Assoc(g.ctrls[ct], Owed(g, es[0], h, ct), OwedOver(h, es[1..], ct));
    }
  }

  /** So under any partial-send schedule the SDK of a controller reads exactly what it has been owed since it came up: a
      prefix of it, and all of it once the buffer has drained. */
  lemma {:induction false} ControllerReads(g: State, es: seq<Event>, ct: CtrlId, out: bytes, unsent: bytes)
    requires Inv(g) && ct in g.ctrls && g.ctrls[ct] == [] && RelayOutbox.Outbox(g)
    requires Possible(g, es) && Serving(g, es, ct) && forall e :: e in es ==> RelayOutbox.Sized(e)
    requires ct in Run(g, es).ctrls && out + unsent == Incremental.PutAll(PutFrame, Run(g, es).ctrls[ct])
    ensures Incremental.ParseAll(SdkFrame, out).items <= OwedOver(g, es, ct)
    ensures unsent == [] ==> Incremental.ParseAll(SdkFrame, out) == Incremental.Parsed(OwedOver(g, es, ct), [], false)
  {
    RunQueues(g, es, ct);
    RelayOutbox.RunOut(g, es);
    var queued := Run(g, es).ctrls[ct];
    assert [] + OwedOver(g, es, ct) == OwedOver(g, es, ct);
    assert RelayOutbox.AllDeliverable(queued);
    QueuedFramesArrive(queued, out, unsent);
  }
}
