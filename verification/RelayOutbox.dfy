/** What the relay queues for its controllers: over every run all of it fits the SDK's reader, so it all arrives. */
module RelayOutbox {
  import opened Bytes
  import opened Framing
  import opened Relay
  import opened RelayRun
  import opened Socket
  import Incremental
  import Chunked
  import Wire
  import Ws

  /** The buffer requests are encoded into. */
  const ENCODE_CAP := Ws.CONN_RBUF + 1024

  ghost predicate Deliverable(f: Frame) { Sendable(f) && |f.payload| <= SDK_MAX_PAYLOAD }

  ghost predicate AllDeliverable(fs: seq<Frame>) { forall i :: 0 <= i < |fs| ==> Deliverable(fs[i]) }

  ghost predicate Outbox(g: State) { forall ct :: ct in g.ctrls ==> AllDeliverable(g.ctrls[ct]) }

  ghost predicate Keeps(g: State, r: State) { Outbox(g) ==> Outbox(r) }

  /** What the gateway's own buffers allow: requests are encoded into 65 KiB, and a client's WebSocket frame was read
      into 64 KiB. */
  ghost predicate Sized(e: Event)
  {
    match e
    case Forwarded(_, _, request, _, _) => request.Some? ==> |request.value| <= ENCODE_CAP
    case WsUpgrade(_, _, request, _, _, _) => request.Some? ==> |request.value| <= ENCODE_CAP
    case WsFrameIn(_, action, _) => SizedAction(action)
    case _ => true
  }

  ghost predicate SizedAction(a: Ws.Action)
  {
    (a.ToController? ==> |a.data| <= Ws.CONN_RBUF) && (a.PongBack? ==> |a.data| <= 125)
  }

  /** The reader of a client's frames hands over nothing larger. */
  lemma {:induction false} ReaderIsSized(b: bytes)
    requires |b| <= Ws.CONN_RBUF && Ws.RelayNext(b).Item?
    ensures SizedAction(Ws.RelayNext(b).value)
  {
  }

  // ---- closing ----

  lemma {:induction false} IdInRange(g: State, c: ConnId)
    requires Inv(g) && c in g.conns && g.conns[c].inflight
    ensures g.conns[c].reqId < 0x1_0000_0000
  {
    var s := SlotOf(g.conns[c].reqId);
    assert g.pending[s] == Some(c) && Holds(g, s, c);
    IdParts(g.gen[s], s);
  }

  lemma {:induction false} QueueOut(g: State, c: ConnId, ct: CtrlId, f: Frame)
    requires Inv(g) && ct in g.ctrls && Deliverable(f)
    ensures Keeps(g, Queue(g, c, ct, f))
  {
  }

  lemma {:induction false} CloseOut(g: State, c: ConnId, why: Why)
    requires Inv(g) && c in g.conns
    ensures Keeps(g, Close(g, c, why))
  {
    var k := g.conns[c];
    if k.inflight && k.isWs {
      IdInRange(g, c);
      QueueOut(g, c, k.ctrl.value, Frame(VERSION, WS_CLOSE, k.reqId, Wire.U16(1000)));
    }
  }

  // ---- flushing, pushing, answering ----

  lemma {:induction false} WritableOut(g: State, c: ConnId, io: Io)
    requires Inv(g) && c in g.conns && !g.conns[c].phase.Reading?
    ensures Keeps(g, OnWritable(g, c, io))
  {
    var k := g.conns[c];
    var f := Drain(Active(k), io.net);
    assert |f.sent + f.rest| == |Active(k)|;
    var ends := FlushEnds(k, f, io);
    if ends.Some? { CloseOut(Update(g, c, AfterFlush(k, f)), c, ends.value); }
  }

  lemma {:induction false} KickOut(g: State, h: State, c: ConnId, io: Io)
    requires Good(g, h, c) && c in h.conns && !h.conns[c].phase.Reading? && h.ctrls == g.ctrls
    ensures Keeps(g, Kick(g, h, c, io))
  {
    if io.arm { WritableOut(h, c, io); } else { CloseOut(h, c, PollFailed); }
  }

  lemma {:induction false} PushOut(g: State, c: ConnId, data: bytes, io: Io)
    requires Inv(g) && c in g.conns && !g.conns[c].phase.Reading?
    ensures Keeps(g, Push(g, c, data, io))
  {
    var k := g.conns[c];
    if data != [] && |k.sw| + |data| > STREAM_MAX {
      CloseOut(g, c, TooSlow);
    } else if data != [] && !io.mem {
      CloseOut(g, c, NoMemory);
    } else {
      KickOut(g, Update(g, c, k.(sw := k.sw + data)), c, io);
    }
  }

  lemma {:induction false} RespondOut(g: State, c: ConnId, status: nat, env: Env)
    requires Inv(g) && c in g.conns
    ensures Keeps(g, Respond(g, c, status, env))
  {
    if env.text.None? {
      CloseOut(g, c, NoMemory);
    } else {
      KickOut(g, Update(g, c, WithText(g.conns[c], status, env.text.value)), c, env.io);
    }
  }

  lemma {:induction false} PushAllOut(g: State, c: ConnId, parts: seq<(bytes, Io)>)
    requires Inv(g) && (c in g.conns ==> !g.conns[c].phase.Reading?)
    ensures Keeps(g, PushAll(g, c, parts))
    decreases |parts|
  {
    if parts != [] && c in g.conns {
      PushOut(g, c, parts[0].0, parts[0].1);
      PushAllOut(Push(g, c, parts[0].0, parts[0].1), c, parts[1..]);
    }
  }

  lemma {:induction false} WsPushOut(g: State, c: ConnId, frame: bytes, io: Io)
    requires Inv(g) && c in g.conns && !g.conns[c].phase.Reading?
    ensures Keeps(g, WsPush(g, c, frame, io))
  {
    PushOut(Update(g, c, g.conns[c].(log := g.conns[c].log + [frame])), c, frame, io);
  }

  // ---- frames from a controller ----

  lemma {:induction false} DeliverOut(g: State, c: ConnId, payload: bytes, env: Env)
    requires Inv(g) && c in g.conns && g.conns[c].inflight
    ensures Keeps(g, Deliver(g, c, payload, env))
  {
    var resp := Wire.DecodeResponseEx(payload);
    RespondOut(Release(g, c), c, if resp.None? then 502 else resp.value.0.status, env);
  }

  lemma {:induction false} BeginOut(g: State, c: ConnId, payload: bytes, head: Option<bytes>, env: Env)
    requires Inv(g) && c in g.conns && g.conns[c].inflight
    ensures Keeps(g, DeliverBegin(g, c, payload, head, env))
  {
    var b := Wire.DecodeBegin(payload);
    if b.None? {
      RespondOut(Release(g, c), c, 502, env);
    } else if head.None? {
      CloseOut(g, c, NoMemory);
    } else {
      PushOut(Update(g, c, Begun(g.conns[c], b.value, head.value)), c, head.value, env.io);
    }
  }

  lemma {:induction false} ChunkOut(g: State, c: ConnId, payload: bytes, env: Env)
    requires Inv(g) && c in g.conns && g.conns[c].inflight
    ensures Keeps(g, DeliverChunk(g, c, payload, env))
  {
    var k, data := g.conns[c], Wire.DecodeChunk(payload);
    if k.streaming && data.Some? && data.value != [] {
      PushAllOut(Update(g, c, k.(log := k.log + [data.value])), c, Pieces(k, data.value, env));
    }
  }

  lemma {:induction false} EndOut(g: State, c: ConnId, env: Env)
    requires Inv(g) && c in g.conns && g.conns[c].inflight
    ensures Keeps(g, DeliverEnd(g, c, env))
  {
    var m := Release(g, c);
    var k := m.conns[c];
    if k.streaming {
      PushOut(Update(m, c, k.(ended := true)), c, if k.sse then [] else Chunked.TERMINATOR, env.io);
    } else {
      CloseOut(m, c, EndBeforeBegin);
    }
  }

  lemma {:induction false} WsMsgOut(g: State, c: ConnId, payload: bytes, env: Env)
    requires Inv(g) && c in g.conns && g.conns[c].inflight
    ensures Keeps(g, WsDeliver(g, c, payload, env))
  {
    var msg := Wire.DecodeWsMsg(payload);
    if g.conns[c].isWs && msg.Some? {
      WsPushOut(g, c, Ws.Encode(if msg.value.0 == Ws.BIN then Ws.BIN else Ws.TEXT, msg.value.1), env.io);
    }
  }

  lemma {:induction false} WsCloseOut(g: State, c: ConnId, env: Env)
    requires Inv(g) && c in g.conns && g.conns[c].inflight
    ensures Keeps(g, WsDeliverClose(g, c, env))
  {
    var m := Release(g, c);
    WsPushOut(Update(m, c, m.conns[c].(ended := true)), c, Ws.Encode(Ws.CLOSE, []), env.io);
  }

  lemma {:induction false} HandleOut(g: State, c: ConnId, kind: byte, payload: bytes, head: Option<bytes>, env: Env)
    requires Inv(g) && c in g.conns && g.conns[c].inflight
    ensures Keeps(g, Handle(g, c, kind, payload, head, env))
  {
    if kind == RESPONSE { DeliverOut(g, c, payload, env); }
    else if kind == RESPONSE_BEGIN { BeginOut(g, c, payload, head, env); }
    else if kind == RESPONSE_CHUNK { ChunkOut(g, c, payload, env); }
    else if kind == RESPONSE_END { EndOut(g, c, env); }
    else if kind == WS_MSG { WsMsgOut(g, c, payload, env); }
    else if kind == WS_CLOSE { WsCloseOut(g, c, env); }
  }

  lemma {:induction false} FromCtrlOut(g: State, kind: byte, id: nat, payload: bytes, head: Option<bytes>, env: Env)
    requires Inv(g)
    ensures Keeps(g, FromCtrl(g, kind, id, payload, head, env))
  {
    if ConnForId(g, id).Some? {
      ResolvedInFlight(g, id);
      HandleOut(g, ConnForId(g, id).value, kind, payload, head, env);
    }
  }

  // ---- the other events ----

  lemma {:induction false} BindOut(g: State, c: ConnId, k: Conn, ct: CtrlId, kind: byte, payload: bytes)
    requires Inv(g) && c in g.conns && !g.conns[c].inflight && ct in g.ctrls && g.free != []
    requires !k.phase.Reading? && |k.sw| <= STREAM_MAX && k.streaming == k.headSent && |payload| <= ENCODE_CAP
    ensures Keeps(g, Bind(g, c, k, ct, kind, payload))
  {
    var s := g.free[|g.free| - 1];
    IdParts(g.gen[s], s);
    assert Deliverable(Frame(VERSION, kind, IdFor(g.gen[s], s), payload));
  }

  lemma {:induction false} ForwardOut(g: State, c: ConnId, target: Option<CtrlId>, payload: Option<bytes>, queued: bool,
                                      env: Env)
    requires Inv(g) && c in g.conns && g.conns[c].phase.Reading? && (target.Some? ==> target.value in g.ctrls)
    requires payload.Some? ==> |payload.value| <= ENCODE_CAP
    ensures Keeps(g, Forward(g, c, target, payload, queued, env))
  {
    if target.None? { RespondOut(g, c, 503, env); }
    else if payload.None? { RespondOut(g, c, 500, env); }
    else if g.free == [] { RespondOut(g, c, 503, env); }
    else if !queued { RespondOut(Burn(g), c, 503, env); }
    else { BindOut(g, c, g.conns[c].(phase := Waiting), target.value, REQUEST, payload.value); }
  }

  lemma {:induction false} UpgradeOut(g: State, c: ConnId, target: Option<CtrlId>, payload: Option<bytes>, queued: bool,
                                      head: bytes, env: Env)
    requires Inv(g) && c in g.conns && g.conns[c].phase.Reading? && (target.Some? ==> target.value in g.ctrls)
    requires payload.Some? ==> |payload.value| <= ENCODE_CAP
    ensures Keeps(g, Upgrade(g, c, target, payload, queued, head, env))
  {
    if target.None? || payload.None? || g.free == [] || !queued {
      ForwardOut(g, c, target, payload, false, env);
    } else {
      var k := Upgraded(g.conns[c], head);
      BindOut(g, c, k, target.value, WS_OPEN, payload.value);
      PushOut(Bind(g, c, k, target.value, WS_OPEN, payload.value), c, head, env.io);
    }
  }

  lemma {:induction false} FromWsOut(g: State, c: ConnId, action: Ws.Action, env: Env)
    requires Inv(g) && c in g.conns && !g.conns[c].phase.Reading? && SizedAction(action)
    ensures Keeps(g, FromWs(g, c, action, env))
  {
    match action
    case PongBack(data) => WsPushOut(g, c, Ws.Encode(Ws.PONG, data), env.io);
    case ToController(op, data) =>
      var k := g.conns[c];
      if k.inflight {
        IdInRange(g, c);
        QueueOut(g, c, k.ctrl.value, Frame(VERSION, WS_MSG, k.reqId, Wire.PutWsMsg(op, data)));
      }
    case Ignored =>
  }

  lemma {:induction false} SweepSlotOut(g: State, ct: CtrlId, s: nat, env: Env)
    requires Inv(g) && s < SLOTS
    ensures Keeps(g, SweepSlot(g, ct, s, env))
  {
    if g.pending[s].Some? {
      var c := g.pending[s].value;
      assert Holds(g, s, c);
      if g.conns[c].ctrl == Some(ct) {
        var m := Release(g, c);
        if m.conns[c].headSent { CloseOut(m, c, CtrlGone); } else { RespondOut(m, c, 502, env); }
      }
    }
  }

  lemma {:induction false} SweepOut(g: State, ct: CtrlId, envs: seq<Env>, n: nat)
    requires Inv(g) && n <= SLOTS == |envs|
    ensures Keeps(g, Sweep(g, ct, envs, n))
    decreases n
  {
    if n > 0 {
      SweepOut(g, ct, envs, n - 1);
      SweepOneOut(g, ct, envs, n);
    }
  }

  lemma {:induction false} SweepOneOut(g: State, ct: CtrlId, envs: seq<Env>, n: nat)
    requires Inv(g) && 0 < n <= SLOTS == |envs|
    ensures Keeps(Sweep(g, ct, envs, n - 1), Sweep(g, ct, envs, n))
  {
    SweepSlotOut(Sweep(g, ct, envs, n - 1), ct, n - 1, envs[n - 1]);
    SweepStep(g, ct, envs, n);
  }

  lemma {:induction false} StepOut(g: State, e: Event)
    requires Inv(g) && Enabled(g, e) && Sized(e)
    ensures Keeps(g, Step(g, e))
  {
    match e
    case Accept =>
    case Spawn(ct) =>
    case Answer(c, status, env) => RespondOut(g, c, status, env);
    case Forwarded(c, t, payload, queued, env) => ForwardOut(g, c, t, payload, queued, env);
    case WsUpgrade(c, t, payload, queued, head, env) => UpgradeOut(g, c, t, payload, queued, head, env);
    case CtrlFrame(kind, id, payload, head, env) => FromCtrlOut(g, kind, id, payload, head, env);
    case WsFrameIn(c, action, env) => FromWsOut(g, c, action, env);
    case Writable(c, io) => WritableOut(g, c, io);
    case Hangup(c) => CloseOut(g, c, ClientGone);
    case CtrlDied(ct, envs) => SweepOut(g, ct, envs, |envs|);
  }

  // ---- runs ----

  /** Over every run, whatever controllers, clients and sockets do, every frame queued for a controller is one that the
      SDK's reader takes. */
  lemma {:induction false} RunOut(g: State, es: seq<Event>)
    requires Inv(g) && Possible(g, es) && forall e :: e in es ==> Sized(e)
    ensures Keeps(g, Run(g, es))
    decreases |es|
  {
    if es != [] {
      assert es[0] in es;
      StepOut(g, es[0]);
      RunOut(Step(g, es[0]), es[1..]);
    }
  }

  /** So under any partial-send schedule the SDK has read a prefix of what the run queued for its controller, and all of
      it once the buffer has drained. */
  lemma {:induction false} QueuedByRunArrives(es: seq<Event>, ct: CtrlId, out: bytes, unsent: bytes)
    requires Possible(Init(), es) && (forall e :: e in es ==> Sized(e)) && ct in Run(Init(), es).ctrls
    requires out + unsent == Incremental.PutAll(PutFrame, Run(Init(), es).ctrls[ct])
    ensures var queued := Run(Init(), es).ctrls[ct];
      && Incremental.ParseAll(SdkFrame, out).items <= queued
      && (unsent == [] ==> Incremental.ParseAll(SdkFrame, out) == Incremental.Parsed(queued, [], false))
  {
    RunOut(Init(), es);
    var queued := Run(Init(), es).ctrls[ct];
    assert AllDeliverable(queued);
    QueuedFramesArrive(queued, out, unsent);
  }
}
