/** When a connection stays, closes, and with what: every outcome of a flush, a push and an answer, what each event does
    to the connection it is about, and that responses which can finish do. */
module RelayFates {
  import opened Bytes
  import opened Socket
  import opened Framing
  import opened Relay
  import opened RelayRun
  import opened RelayTheorems
  import opened RelayStreams
  import opened RelayHistory
  import Wire
  import Chunked
  import Ws

  /** Connection c was closed for this reason, having been sent exactly these bytes. */
  ghost predicate ClosedWith(r: State, c: ConnId, why: Why, sent: bytes)
  {
    c !in r.conns && c in r.closed && r.closed[c].why == why && r.closed[c].last.sent == sent
  }

  ghost predicate OpenWith(r: State, c: ConnId, sent: bytes) { c in r.conns && r.conns[c].sent == sent }

  /** No more bytes will come for this connection. */
  predicate Complete(k: Conn) { !k.streaming || k.ended }

  /** What becomes of a connection that has been sent `sent`, with `buf` waiting, when its socket takes what `net` says:
      complete and drained it closes as finished; drained it otherwise stays if the poller lets it wait for more; it
      stays while the socket blocks; a broken socket closes it. */
  ghost predicate Flushed(r: State, c: ConnId, sent: bytes, buf: bytes, complete: bool, io: Io)
  {
    var f := Drain(buf, io.net);
    match f.outcome
    case Broken => ClosedWith(r, c, NetError, sent + f.sent)
    case Blocked => OpenWith(r, c, sent + f.sent)
    case Drained =>
      if complete then ClosedWith(r, c, Finished, sent + buf)
      else if io.rearm then OpenWith(r, c, sent + buf)
      else ClosedWith(r, c, PollFailed, sent + buf)
  }

  lemma {:induction false} WritableFate(g: State, c: ConnId, io: Io)
    requires Inv(g) && c in g.conns && !g.conns[c].phase.Reading?
    ensures Flushed(OnWritable(g, c, io), c, g.conns[c].sent, Active(g.conns[c]), Complete(g.conns[c]), io)
  {
    var k := g.conns[c];
    var f := Drain(Active(k), io.net);
    var h := WritableIs(g, c, io);
    if FlushEnds(k, f, io).Some? { CloseIs(h, c, FlushEnds(k, f, io).value); }
    FlushedIf(OnWritable(g, c, io), c, k, f, io);
  }

  lemma {:induction false} CloseIs(g: State, c: ConnId, why: Why)
    requires Inv(g) && c in g.conns
    ensures ClosedWith(Close(g, c, why), c, why, g.conns[c].sent)
  {
  }

  lemma {:induction false} WritableIs(g: State, c: ConnId, io: Io) returns (h: State)
    requires Inv(g) && c in g.conns && !g.conns[c].phase.Reading?
    ensures var k, f := g.conns[c], Drain(Active(g.conns[c]), io.net);
      && Inv(h) && c in h.conns && h.conns[c].sent == k.sent + f.sent
      && OnWritable(g, c, io) == if FlushEnds(k, f, io).None? then h else Close(h, c, FlushEnds(k, f, io).value)
  {
    var k, f := g.conns[c], Drain(Active(g.conns[c]), io.net);
    assert |f.sent + f.rest| == |Active(k)|;
    h := Update(g, c, AfterFlush(k, f));
  }

  lemma {:induction false} FlushedIf(r: State, c: ConnId, k: Conn, f: Flush, io: Io)
    requires f == Drain(Active(k), io.net)
    requires if FlushEnds(k, f, io).None? then OpenWith(r, c, k.sent + f.sent)
             else ClosedWith(r, c, FlushEnds(k, f, io).value, k.sent + f.sent)
    ensures Flushed(r, c, k.sent, Active(k), Complete(k), io)
  {
    assert f.rest == [] ==> f.sent + f.rest == f.sent;
  }

  /** A push of `data` behind what waits: refused over 4 MiB or without memory, lost if the socket cannot be armed, and
      otherwise flushed with the rest. */
  ghost predicate Pushed(r: State, c: ConnId, sent: bytes, waiting: bytes, data: bytes, complete: bool, io: Io)
  {
    if data != [] && |waiting| + |data| > 4 * 1024 * 1024 then ClosedWith(r, c, TooSlow, sent)
    else if data != [] && !io.mem then ClosedWith(r, c, NoMemory, sent)
    else if !io.arm then ClosedWith(r, c, PollFailed, sent)
    else Flushed(r, c, sent, waiting + data, complete, io)
  }

  lemma {:induction false} PushFate(g: State, c: ConnId, data: bytes, io: Io)
    requires Inv(g) && c in g.conns && !g.conns[c].phase.Reading? && g.conns[c].streaming
    ensures var k := g.conns[c]; Pushed(Push(g, c, data, io), c, k.sent, k.sw, data, k.ended, io)
  {
    var k, r := g.conns[c], Push(g, c, data, io);
    if data != [] && |k.sw| + |data| > STREAM_MAX {
      CloseIs(g, c, TooSlow);
    } else if data != [] && !io.mem {
      CloseIs(g, c, NoMemory);
    } else {
      var h := Update(g, c, k.(sw := k.sw + data));
      KickFate(g, h, c, io);
    }
  }

  lemma {:induction false} KickFate(g: State, h: State, c: ConnId, io: Io)
    requires Good(g, h, c) && c in h.conns && !h.conns[c].phase.Reading?
    ensures var r, k := Kick(g, h, c, io), h.conns[c];
      if io.arm then Flushed(r, c, k.sent, Active(k), Complete(k), io) else ClosedWith(r, c, PollFailed, k.sent)
  {
    if io.arm { WritableFate(h, c, io); } else { CloseIs(h, c, PollFailed); }
  }

  // ---- atomic answers ----

  /** The client is answered with this status and exactly this text, in whatever pieces its socket takes it. */
  ghost predicate Answered(r: State, c: ConnId, sent: bytes, status: nat, env: Env)
  {
    match env.text
    case None => ClosedWith(r, c, NoMemory, sent)
    case Some(text) =>
      && (if env.io.arm then Flushed(r, c, sent, text, true, env.io) else ClosedWith(r, c, PollFailed, sent))
      && (c in r.conns ==> Says(r.conns[c], status, text) && r.conns[c].sent + r.conns[c].w == sent + text)
      && (c !in r.conns ==> c in r.closed && Says(r.closed[c].last, status, text))
  }

  ghost predicate Says(k: Conn, status: nat, text: bytes)
  {
    k.phase.Writing? && k.status == Some(status) && k.head == text
  }

  lemma {:induction false} AnswerFate(g: State, c: ConnId, status: nat, env: Env)
    requires Inv(g) && c in g.conns && !g.conns[c].streaming
    ensures Answered(Respond(g, c, status, env), c, g.conns[c].sent, status, env)
  {
    if env.text.None? {
      CloseIs(g, c, NoMemory);
    } else {
      var h := Update(g, c, WithText(g.conns[c], status, env.text.value));
      KickFate(g, h, c, env.io);
      KickMoves(g, h, c, env.io);
      SaysIf(h, Respond(g, c, status, env), c, status, env.text.value);
    }
  }

  lemma {:induction false} SaysIf(h: State, r: State, c: ConnId, status: nat, text: bytes)
    requires c in h.conns && Says(h.conns[c], status, text) && h.conns[c].w == text && !h.conns[c].streaming
    requires Moved(h, r, c, [])
    ensures c in r.conns ==> Says(r.conns[c], status, text) && r.conns[c].sent + r.conns[c].w == h.conns[c].sent + text
    ensures c !in r.conns ==> c in r.closed && Says(r.closed[c].last, status, text)
  {
    assert Out(h.conns[c]) + [] == h.conns[c].sent + text;
  }

  // ---- what every event does to the connection it is about ----

  /** The status with which a request is turned away, if it is. */
  function Refusal(g: State, target: Option<CtrlId>, payload: Option<bytes>, queued: bool): Option<nat>
  {
    if target.None? then Some(503) else if payload.None? then Some(500)
    else if g.free == [] || !queued then Some(503) else None
  }

  /** The connection waits for this controller, under an id that resolves to it. */
  ghost predicate Parked(r: State, c: ConnId, ct: CtrlId, phase: Phase)
    requires Shape(r)
  {
    && c in r.conns && r.conns[c].phase == phase && r.conns[c].inflight && r.conns[c].ctrl == Some(ct)
    && ConnForId(r, r.conns[c].reqId) == Some(c)
  }

  /** The request is over: its connection, if open, is no longer in flight. */
  ghost predicate Over(r: State, c: ConnId) { c in r.conns ==> !r.conns[c].inflight }

  lemma {:induction false} AnswerEvent(g: State, c: ConnId, status: nat, env: Env)
    requires StreamInv(g) && c in g.conns && g.conns[c].phase.Reading?
    ensures Answered(Step(g, Answer(c, status, env)), c, [], status, env)
  {
    AnswerFate(g, c, status, env);
  }

  lemma {:induction false} BindParks(g: State, c: ConnId, k: Conn, ct: CtrlId, kind: byte, payload: bytes)
    requires Inv(g) && c in g.conns && !g.conns[c].inflight && ct in g.ctrls && g.free != []
    requires !k.phase.Reading? && |k.sw| <= STREAM_MAX && k.streaming == k.headSent
    ensures var r := Bind(g, c, k, ct, kind, payload); Parked(r, c, ct, k.phase) && r.conns[c].sent == k.sent
  {
    var s, r := g.free[|g.free| - 1], Bind(g, c, k, ct, kind, payload);
    IdParts(g.gen[s], s);
    IdResolves(r, g.gen[s], s);
  }

  /** A request is refused with its status, or its connection waits for the controller. */
  lemma {:induction false} ForwardFate(g: State, c: ConnId, target: Option<CtrlId>, payload: Option<bytes>,
                                       queued: bool, env: Env)
    requires StreamInv(g) && c in g.conns && g.conns[c].phase.Reading? && (target.Some? ==> target.value in g.ctrls)
    ensures var r := Forward(g, c, target, payload, queued, env);
      match Refusal(g, target, payload, queued)
      case Some(status) => Answered(r, c, [], status, env)
      case None => Parked(r, c, target.value, Waiting) && r.conns[c].sent == []
  {
    if target.None? { AnswerFate(g, c, 503, env); }
    else if payload.None? { AnswerFate(g, c, 500, env); }
    else if g.free == [] { AnswerFate(g, c, 503, env); }
    else if !queued { AnswerFate(Burn(g), c, 503, env); }
    else { BindParks(g, c, g.conns[c].(phase := Waiting), target.value, REQUEST, payload.value); }
  }

  /** A slot that was taken for a request that could not be queued is free again, under the next generation. */
  lemma {:induction false} RefusedSlot(g: State, c: ConnId, ct: CtrlId, payload: bytes, env: Env)
    requires StreamInv(g) && c in g.conns && g.conns[c].phase.Reading? && ct in g.ctrls && g.free != []
    ensures var r, s := Forward(g, c, Some(ct), Some(payload), false, env), g.free[|g.free| - 1];
      && s < SLOTS && r.pending[s] == None && r.gen[s] == g.gen[s] + 1
      && (forall t :: 0 <= t < SLOTS && t != s ==> r.pending[t] == g.pending[t] && r.gen[t] == g.gen[t])
  {
    SlotsKept(Burn(g), Respond(Burn(g), c, 503, env), c);
    BurnIs(g);
  }

  lemma {:induction false} BurnIs(g: State)
    requires Inv(g) && g.free != []
    ensures var s := g.free[|g.free| - 1];
      && s < SLOTS && g.pending[s] == None && Burn(g).pending == g.pending
      && Burn(g).gen == g.gen[s := g.gen[s] + 1]
  {
  }

  /** A step on behalf of a connection that is not in flight touches no slot. */
  lemma {:induction false} SlotsKept(g: State, r: State, c: ConnId)
    requires Good(g, r, c) && c in g.conns && !g.conns[c].inflight
    ensures forall t :: 0 <= t < SLOTS ==> r.pending[t] == g.pending[t] && r.gen[t] == g.gen[t]
  {
    forall t | 0 <= t < SLOTS ensures g.pending[t] != Some(c) {
      assert g.pending[t].Some? ==> Holds(g, t, g.pending[t].value);
    }
  }

  /** The record of a connection that has just been upgraded. */
  ghost predicate JustUpgraded(k: Conn, head: bytes)
  {
    k.isWs && k.streaming && !k.ended && k.log == [] && k.head == head && k.status == Some(101)
  }

  /** A WebSocket upgrade is refused like any request, or the connection waits for the controller and is sent its
      head. */
  lemma {:induction false} UpgradeFate(g: State, c: ConnId, target: Option<CtrlId>, payload: Option<bytes>,
                                       queued: bool, head: bytes, env: Env)
    requires StreamInv(g) && c in g.conns && g.conns[c].phase.Reading? && (target.Some? ==> target.value in g.ctrls)
    ensures var r := Upgrade(g, c, target, payload, queued, head, env);
      match Refusal(g, target, payload, queued)
      case Some(status) => Answered(r, c, [], status, env)
      case None =>
        && Pushed(r, c, [], [], head, false, env.io)
        && (c in r.conns ==> Parked(r, c, target.value, WebSocket) && JustUpgraded(r.conns[c], head))
  {
    var r := Upgrade(g, c, target, payload, queued, head, env);
    if Refusal(g, target, payload, queued).Some? {
      ForwardFate(g, c, target, payload, false, env);
    } else {
      var k := Upgraded(g.conns[c], head);
      var h := Bind(g, c, k, target.value, WS_OPEN, payload.value);
      BindParks(g, c, k, target.value, WS_OPEN, payload.value);
      PushFate(h, c, head, env.io);
      PushMoves(h, c, head, env.io);
      StillParked(h, r, c, target.value, WebSocket, head);
    }
  }

  lemma {:induction false} StillParked(h: State, r: State, c: ConnId, ct: CtrlId, phase: Phase, more: bytes)
    requires Inv(h) && Inv(r) && Parked(h, c, ct, phase) && Moved(h, r, c, more)
    ensures c in r.conns ==> Parked(r, c, ct, phase) && SameBut(r.conns[c], h.conns[c])
  {
    if c in r.conns {
      var id := r.conns[c].reqId;
      var s := SlotOf(id);
      assert r.pending[s] == Some(c) && Holds(r, s, c);
      IdParts(r.gen[s], s);
    }
  }

  /** RESPONSE: the request is over and the client is answered with the response's status, or a 502. */
  lemma {:induction false} ResponseFate(g: State, e: Event, c: ConnId)
    requires StreamInv(g) && Conforms(g, e) && For(g, e, c) && e.kind == RESPONSE
    ensures var r, resp := Step(g, e), Wire.DecodeResponseEx(e.payload);
      Over(r, c) && Answered(r, c, [], if resp.Some? then resp.value.0.status else 502, e.env)
  {
    ResolvedInFlight(g, e.id);
    StepIsHandle(g, e, c);
    CtrlFrameKeeps(g, e);
    var resp := Wire.DecodeResponseEx(e.payload);
    AnswerFate(Release(g, c), c, if resp.None? then 502 else resp.value.0.status, e.env);
  }

  /** BEGIN: a 502 if it does not decode, closed if its head cannot be formatted, and otherwise the head goes out
      and the client streams, chunked or raw as the flags say. */
  lemma {:induction false} BeginFate(g: State, e: Event, c: ConnId)
    requires StreamInv(g) && Conforms(g, e) && For(g, e, c) && e.kind == RESPONSE_BEGIN
    ensures var r, b := Step(g, e), Wire.DecodeBegin(e.payload);
      if b.None? then Over(r, c) && Answered(r, c, [], 502, e.env)
      else if e.streamHead.None? then ClosedWith(r, c, NoMemory, [])
      else && Pushed(r, c, [], [], e.streamHead.value, false, e.env.io)
           && (c in r.conns ==> JustBegun(r.conns[c], b.value, e.streamHead.value) && r.conns[c].inflight
                                && r.conns[c].status == Some(b.value.status))
  {
    ResolvedInFlight(g, e.id);
    StepIsHandle(g, e, c);
    var b := Wire.DecodeBegin(e.payload);
    if b.None? {
      AnswerFate(Release(g, c), c, 502, e.env);
      CtrlFrameKeeps(g, e);
    } else if e.streamHead.None? {
      CloseIs(g, c, NoMemory);
    } else {
      var head := e.streamHead.value;
      var h := Update(g, c, Begun(g.conns[c], b.value, head));
      PushFate(h, c, head, e.env.io);
      PushMoves(h, c, head, e.env.io);
      assert h.conns[c].sent == [] && h.conns[c].sw == [];
    }
  }

  /** END: without a BEGIN the connection closes; otherwise what is left, with the terminator of a chunked body,
      goes out and the connection is complete. */
  lemma {:induction false} EndFate(g: State, e: Event, c: ConnId)
    requires StreamInv(g) && Conforms(g, e) && For(g, e, c) && e.kind == RESPONSE_END
    ensures var r, k := Step(g, e), g.conns[c];
      && Over(r, c)
      && if k.streaming
         then Pushed(r, c, k.sent, k.sw, if k.sse then [] else Chunked.TERMINATOR, true, e.env.io)
         else ClosedWith(r, c, EndBeforeBegin, k.sent)
  {
    ResolvedInFlight(g, e.id);
    StepIsHandle(g, e, c);
    var m := Release(g, c);
    var k := m.conns[c];
    if k.streaming {
      PushFate(Update(m, c, k.(ended := true)), c, if k.sse then [] else Chunked.TERMINATOR, e.env.io);
      EndTells(g, c, e.env);
      CtrlFrameKeeps(g, e);
    } else {
      CloseIs(m, c, EndBeforeBegin);
    }
  }

  /** Frames that are dropped: of an unknown kind, chunks without a BEGIN, without data or that do not decode, and
      WebSocket messages to another client or that do not decode. */
  ghost predicate Idle(k: Conn, e: Event)
    requires e.CtrlFrame?
  {
    || e.kind !in {RESPONSE, RESPONSE_BEGIN, RESPONSE_CHUNK, RESPONSE_END, WS_MSG, WS_CLOSE}
    || (e.kind == RESPONSE_CHUNK && (!k.streaming || Wire.DecodeChunk(e.payload) in {None, Some([])}))
    || (e.kind == WS_MSG && (!k.isWs || Wire.DecodeWsMsg(e.payload).None?))
  }

  lemma {:induction false} IdleFrames(g: State, e: Event, c: ConnId)
    requires Inv(g) && For(g, e, c) && c in g.conns && Idle(g.conns[c], e)
    ensures Step(g, e) == g
  {
    ResolvedInFlight(g, e.id);
    StepIsHandle(g, e, c);
  }

  /** The client hung up: its connection is closed, and the slot it held is free under the next generation. */
  lemma {:induction false} HangupFate(g: State, c: ConnId)
    requires Inv(g) && c in g.conns
    ensures var r, k := Step(g, Hangup(c)), g.conns[c];
      && ClosedWith(r, c, ClientGone, k.sent)
      && (k.inflight ==> r.pending[SlotOf(k.reqId)] == None && r.gen[SlotOf(k.reqId)] > g.gen[SlotOf(k.reqId)])
  {
    var r, k := Step(g, Hangup(c)), g.conns[c];
    CloseIs(g, c, ClientGone);
    if k.inflight {
      var s := SlotOf(k.reqId);
      assert g.pending[s] == Some(c);
      assert Good(g, r, c);
      SlotEmptied(g, r, c, s);
    }
  }

  lemma {:induction false} SlotEmptied(g: State, r: State, c: ConnId, s: nat)
    requires Good(g, r, c) && s < SLOTS && g.pending[s] == Some(c) && c !in r.conns
    ensures r.gen[s] > g.gen[s] && r.pending[s] == None
  {
    if r.pending[s].Some? { HolderBefore(g, r, c, s, r.pending[s].value); }
  }

  /** A step on behalf of c gives no slot to anyone else. */
  lemma {:induction false} HolderBefore(g: State, r: State, c: ConnId, s: nat, d: ConnId)
    requires Good(g, r, c) && s < SLOTS && r.pending[s] == Some(d)
    ensures d != c ==> g.pending[s] == Some(d)
    ensures d in r.conns
  {
    assert Holds(r, s, d);
    if d != c {
      OthersAgree(g, r, c, d);
      assert g.pending[SlotOf(g.conns[d].reqId)] == Some(d);
    }
  }

  /** A new client is read from, a new controller has nothing queued; nobody else is affected. */
  lemma {:induction false} NewcomerFate(g: State, ct: CtrlId)
    requires Inv(g) && ct !in g.ctrls
    ensures var r := Step(g, Accept);
      && g.next !in g.conns && g.next in r.conns && r.conns[g.next].phase.Reading? && !r.conns[g.next].inflight
      && r.conns[g.next].sent == [] && (forall d :: d in g.conns ==> d in r.conns && r.conns[d] == g.conns[d])
    ensures var r := Step(g, Spawn(ct));
      && ct in r.ctrls && r.ctrls[ct] == [] && r.conns == g.conns
      && (forall x :: x in g.ctrls ==> x in r.ctrls && r.ctrls[x] == g.ctrls[x])
  {
  }

  /** A controller died: a client that waited for it and had been sent nothing gets a 502 with exactly its text; one
      whose response had begun is cut off where it stood; the others do not notice. */
  lemma {:induction false} DeathFate(g: State, ct: CtrlId, envs: seq<Env>, c: ConnId)
    requires StreamInv(g) && |envs| == SLOTS && c in g.conns
    ensures var r, k := Died(g, ct, envs), g.conns[c];
      if !(k.inflight && k.ctrl == Some(ct)) then c in r.conns && r.conns[c] == k
      else if !k.phase.Waiting? then ClosedWith(r, c, CtrlGone, k.sent)
      else
        match envs[SlotOf(k.reqId)].text
        case None => ClosedWith(r, c, NoMemory, [])
        case Some(text) => Over502(r, c, text)
  {
    ControllerDeath(g, ct, envs);
    var k := g.conns[c];
    if k.inflight && k.ctrl == Some(ct) && k.phase.Waiting? && envs[SlotOf(k.reqId)].text.Some? {
      TextIs(Died(g, ct, envs), c, k.(inflight := false), envs[SlotOf(k.reqId)].text.value);
    }
  }

  ghost predicate Over502(r: State, c: ConnId, text: bytes)
  {
    if c in r.conns then Says(r.conns[c], 502, text) && r.conns[c].sent + r.conns[c].w == text
    else && c in r.closed && Says(r.closed[c].last, 502, text) && r.closed[c].last.sent <= text
         && (r.closed[c].why.Finished? ==> r.closed[c].last.sent == text)
  }

  lemma {:induction false} TextIs(r: State, c: ConnId, k: Conn, text: bytes)
    requires AnsweredWith(WithText(k, 502, text), r, c) && !k.streaming && k.sent == []
    ensures Over502(r, c, text)
  {
    assert [] + text == text;
  }

  // ---- finishing, over runs ----

  /** The request is over and no more bytes will come: only draining is left. */
  ghost predicate Draining(k: Conn)
  {
    !k.inflight && (k.phase.Writing? || ((k.phase.Streaming? || k.phase.WebSocket?) && k.streaming && k.ended))
  }

  lemma {:induction false} DrainingStays(g: State, e: Event, c: ConnId)
    requires StreamInv(g) && Enabled(g, e) && c in g.conns && Draining(g.conns[c])
    ensures c in Step(g, e).conns ==> Draining(Step(g, e).conns[c])
    ensures c !in Step(g, e).conns ==> c in Step(g, e).closed
  {
    if e.CtrlDied? {
      ControllerDeath(g, e.ct, e.envs);
    } else {
      if e.CtrlFrame? && ConnForId(g, e.id).Some? { ResolvedInFlight(g, e.id); }
      if Whose(g, e) != Some(c) {
        StepAgrees(g, e, c);
      } else if e.Writable? {
        WritableMoves(g, c, e.io);
      } else if e.WsFrameIn? && e.action.PongBack? {
        var h := Update(g, c, g.conns[c].(log := g.conns[c].log + [Ws.Encode(Ws.PONG, e.action.data)]));
        PushMoves(h, c, Ws.Encode(Ws.PONG, e.action.data), e.env.io);
      }
    }
  }

  lemma {:induction false} DrainingOver(g: State, es: seq<Event>, c: ConnId)
    requires StreamInv(g) && Possible(g, es) && Conforming(g, es) && c in g.conns && Draining(g.conns[c])
    ensures c in Run(g, es).conns ==> Draining(Run(g, es).conns[c])
    decreases |es|
  {
    if es != [] {
      var h := Step(g, es[0]);
      DrainingStays(g, es[0], c);
      StepKeeps(g, es[0]);
      if c in h.conns { DrainingOver(h, es[1..], c); } else { RunClosed(h, es[1..], c, h.closed[c]); }
    }
  }

  lemma {:induction false} FinishNow(h: State, c: ConnId, io: Io)
    requires StreamInv(h) && c in h.conns && Draining(h.conns[c]) && Drain(Active(h.conns[c]), io.net).rest == []
    ensures Enabled(h, Writable(c, io)) && ClosedWith(Step(h, Writable(c, io)), c, Finished, Expected(h.conns[c]))
  {
    WritableFate(h, c, io);
  }

  /** Over every run: once a response is complete, a connection still open closes as finished, with every byte sent, as
      soon as its socket takes what is left. */
  lemma {:induction false} FinishesOver(g: State, es: seq<Event>, c: ConnId, io: Io)
    requires StreamInv(g) && Possible(g, es) && Conforming(g, es) && c in g.conns && Draining(g.conns[c])
    requires c in Run(g, es).conns && Drain(Active(Run(g, es).conns[c]), io.net).rest == []
    ensures var h := Run(g, es);
      Enabled(h, Writable(c, io)) && ClosedWith(Step(h, Writable(c, io)), c, Finished, Expected(h.conns[c]))
  {
    DrainingOver(g, es, c);
    RunKeeps(g, es);
    FinishNow(Run(g, es), c, io);
  }
}
