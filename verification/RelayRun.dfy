/** Client-side events, controller death, and whole runs of the relay. */
module RelayRun {
  import opened Bytes
  import opened Framing
  import opened Relay
  import Wire
  import Ws

  ghost predicate Onward(g: State, r: State) { Inv(g) && Inv(r) && Advances(g, r) }

  // ---- allocation ----

  lemma {:induction false} IdParts(gen: nat, slot: nat)
    requires slot < SLOTS
    ensures SlotOf(IdFor(gen, slot)) == slot && IdFor(gen, slot) / SLOTS == gen % GENS
    ensures IdFor(gen, slot) < 0x1_0000_0000
  {
  }

  /** gw_alloc_id, ctrl_queue and the connection's entry into the in-flight table. */
  function Bind(g: State, c: ConnId, k: Conn, ct: CtrlId, kind: byte, payload: bytes): (r: State)
    requires Inv(g) && c in g.conns && !g.conns[c].inflight && ct in g.ctrls && g.free != []
    requires !k.phase.Reading? && |k.sw| <= STREAM_MAX && k.streaming == k.headSent
    ensures Onward(g, r) && c in r.conns && r.conns[c].phase == k.phase
  {
    var s := g.free[|g.free| - 1];
    var id := IdFor(g.gen[s], s);
    IdParts(g.gen[s], s);
    BindFree(g, c);
    BindPending(g, c, k, ct, kind, payload);
    Bound(g, c, k, ct, kind, payload)
  }

  function Bound(g: State, c: ConnId, k: Conn, ct: CtrlId, kind: byte, payload: bytes): State
    requires Inv(g) && g.free != [] && ct in g.ctrls
  {
    var s := g.free[|g.free| - 1];
    var id := IdFor(g.gen[s], s);
    g.(pending := g.pending[s := Some(c)], free := g.free[..|g.free| - 1],
       conns := g.conns[c := k.(inflight := true, reqId := id, ctrl := Some(ct))],
       ctrls := g.ctrls[ct := g.ctrls[ct] + [Frame(VERSION, kind, id, payload)]])
  }

  lemma {:induction false} BindFree(g: State, c: ConnId)
    requires Inv(g) && g.free != []
    ensures var s := g.free[|g.free| - 1];
      FreeOk(g.(pending := g.pending[s := Some(c)], free := g.free[..|g.free| - 1]))
  {
    var s := g.free[|g.free| - 1];
    var p := g.pending[s := Some(c)];
    forall t | 0 <= t < SLOTS && p[t].None? ensures t in g.free[..|g.free| - 1] {
      assert g.pending[t].None? && t in g.free && t != s;
    }
  }

  lemma {:induction false} BindPending(g: State, c: ConnId, k: Conn, ct: CtrlId, kind: byte, payload: bytes)
    requires Inv(g) && c in g.conns && !g.conns[c].inflight && ct in g.ctrls && g.free != []
    ensures PendingOk(Bound(g, c, k, ct, kind, payload))
  {
    var s, r := g.free[|g.free| - 1], Bound(g, c, k, ct, kind, payload);
    IdParts(g.gen[s], s);
    forall t | 0 <= t < SLOTS && r.pending[t].Some? ensures Holds(r, t, r.pending[t].value) {
      if t != s { assert Holds(g, t, g.pending[t].value); }
    }
  }

  /** A slot taken and given back because the frame could not be queued: its generation moves on. */
  function Burn(g: State): (r: State)
    requires Inv(g) && g.free != []
    ensures Onward(g, r) && r.conns == g.conns
  {
    var s := g.free[|g.free| - 1];
    g.(gen := g.gen[s := g.gen[s] + 1])
  }

  // ---- client events ----

  /** gw_forward: every refusal is one local answer; success parks the connection on its controller. */
  function Forward(g: State, c: ConnId, target: Option<CtrlId>, payload: Option<bytes>, queued: bool,
                   env: Env): (r: State)
    requires Inv(g) && c in g.conns && g.conns[c].phase.Reading? && (target.Some? ==> target.value in g.ctrls)
    ensures Onward(g, r)
  {
    if target.None? then Respond(g, c, 503, env)
    else if payload.None? then Respond(g, c, 500, env)
    else if g.free == [] then Respond(g, c, 503, env)
    else if !queued then
      var m := Burn(g);
      Respond(m, c, 503, env)
    else Bind(g, c, g.conns[c].(phase := Waiting), target.value, REQUEST, payload.value)
  }

  function Upgraded(k: Conn, head: bytes): Conn
  {
    k.(phase := WebSocket, isWs := true, streaming := true, headSent := true, head := head, status := Some(101))
  }

  /** gw_ws_upgrade, after the handshake key was accepted. */
  function Upgrade(g: State, c: ConnId, target: Option<CtrlId>, payload: Option<bytes>, queued: bool,
                   head: bytes, env: Env): (r: State)
    requires Inv(g) && c in g.conns && g.conns[c].phase.Reading? && (target.Some? ==> target.value in g.ctrls)
    ensures Onward(g, r)
  {
    if target.None? || payload.None? || g.free == [] || !queued then
      Forward(g, c, target, payload, false, env)
    else
      var h := Bind(g, c, Upgraded(g.conns[c], head), target.value, WS_OPEN, payload.value);
      var r := Push(h, c, head, env.io);
      OnwardGood(g, h, r, c);
      r
  }

  lemma {:induction false} OnwardGood(g: State, h: State, r: State, c: ConnId)
    requires Onward(g, h) && Good(h, r, c)
    ensures Onward(g, r)
  {
  }

  /** What the relay does with one frame a WebSocket client sent. */
  function FromWs(g: State, c: ConnId, action: Ws.Action, env: Env): (r: State)
    requires Inv(g) && c in g.conns && !g.conns[c].phase.Reading?
    ensures Good(g, r, c)
  {
    GoodRefl(g, c);
    var k := g.conns[c];
    match action
    case PongBack(data) => WsPush(g, c, Ws.Encode(Ws.PONG, data), env.io)
    case ToController(op, data) =>
      if k.inflight then Queue(g, c, k.ctrl.value, Frame(VERSION, WS_MSG, k.reqId, Wire.PutWsMsg(op, data))) else g
    case Ignored => g
  }

  // ---- controller death ----

  ghost predicate WaitsOn(g: State, s: nat, ct: CtrlId)
    requires Inv(g) && s < SLOTS
  {
    g.pending[s].Some? && g.conns[g.pending[s].value].ctrl == Some(ct)
  }

  /** One turn of controller_died's sweep. */
  function SweepSlot(g: State, ct: CtrlId, s: nat, env: Env): (r: State)
    requires Inv(g) && s < SLOTS
    ensures g.pending[s].None? ==> r == g
    ensures g.pending[s].Some? ==> Good(g, r, g.pending[s].value)
    ensures Inv(r) && Onward(g, r)
  {
    if g.pending[s].None? then g else
    var c := g.pending[s].value;
    assert Holds(g, s, c);
    GoodRefl(g, c);
    if g.conns[c].ctrl != Some(ct) then g else
    var m := Release(g, c);
    var r := if m.conns[c].headSent then Close(m, c, CtrlGone) else Respond(m, c, 502, env);
    GoodTrans(g, m, r, c);
    r
  }

  /** controller_died's loop over the first n slots. */
  function Sweep(g: State, ct: CtrlId, envs: seq<Env>, n: nat): (r: State)
    requires Inv(g) && n <= SLOTS == |envs|
    ensures Onward(g, r)
    decreases n
  {
    if n == 0 then g else SweepSlot(Sweep(g, ct, envs, n - 1), ct, n - 1, envs[n - 1])
  }

  lemma {:induction false} SweepStep(g: State, ct: CtrlId, envs: seq<Env>, n: nat)
    requires Inv(g) && 0 < n <= SLOTS == |envs|
    ensures Sweep(g, ct, envs, n) == SweepSlot(Sweep(g, ct, envs, n - 1), ct, n - 1, envs[n - 1])
  {
  }

  /** What becomes of a connection that was waiting on the dead controller: a response already begun is cut off as it
      stands, any other gets one 502. */
  ghost predicate Fate(k: Conn, r: State, c: ConnId, env: Env)
  {
    var k' := k.(inflight := false);
    if k.headSent then c !in r.conns && c in r.closed && r.closed[c] == Gone(k', CtrlGone)
    else if env.text.None? then c !in r.conns && c in r.closed && r.closed[c] == Gone(k', NoMemory)
    else AnsweredWith(WithText(k', 502, env.text.value), r, c)
  }

  /** The connection's record is k up to flushed bytes, open or finished. */
  ghost predicate AnsweredWith(k: Conn, r: State, c: ConnId)
  {
    if c in r.conns then SameBut(r.conns[c], k) && Out(r.conns[c]) == Out(k)
    else c in r.closed && SameBut(r.closed[c].last, k) && r.closed[c].last.sent <= Out(k)
         && (r.closed[c].why.Finished? ==> r.closed[c].last.sent == Out(k))
  }

  ghost predicate Waiter(k: Conn, ct: CtrlId, n: nat) { k.inflight && k.ctrl == Some(ct) && SlotOf(k.reqId) < n }

  /** The whole effect of sweeping the first n slots on connection c. */
  ghost predicate Swept(g: State, r: State, ct: CtrlId, envs: seq<Env>, n: nat, c: ConnId)
    requires c in g.conns && n <= SLOTS == |envs|
  {
    var k := g.conns[c];
    if Waiter(k, ct, n) then Fate(k, r, c, envs[SlotOf(k.reqId)])
    else c in r.conns && r.conns[c] == k
  }

  lemma {:induction false} SweepSlotFate(g: State, ct: CtrlId, s: nat, env: Env)
    requires Inv(g) && s < SLOTS && g.pending[s].Some? && g.conns[g.pending[s].value].ctrl == Some(ct)
    ensures var c := g.pending[s].value; c in g.conns && Fate(g.conns[c], SweepSlot(g, ct, s, env), c, env)
    ensures SweepSlot(g, ct, s, env).pending[s] == None && SweepSlot(g, ct, s, env).gen[s] == g.gen[s] + 1
  {
    var c := g.pending[s].value;
    assert Holds(g, s, c);
    var m := Release(g, c);
    var r := SweepSlot(g, ct, s, env);
    if !g.conns[c].headSent && env.text.Some? {
      RespondMoves(m, c, 502, env);
      var k := WithText(m.conns[c], 502, env.text.value);
      assert Out(k) + [] == Out(k);
    }
    assert Good(m, r, c);
    assert m.pending[s] == None;
  }

  /** r and h agree on connection d. */
  ghost predicate Agree(h: State, r: State, d: ConnId)
  {
    && (d in r.conns <==> d in h.conns) && (d in h.conns ==> r.conns[d] == h.conns[d])
    && (d in r.closed <==> d in h.closed) && (d in h.closed ==> r.closed[d] == h.closed[d])
  }

  lemma {:induction false} OthersAgree(h: State, r: State, c: ConnId, d: ConnId)
    requires Good(h, r, c) && d != c
    ensures Agree(h, r, d)
  {
    assert d in r.conns <==> d in r.conns - {c};
    assert d in h.conns <==> d in h.conns - {c};
    assert d in r.closed <==> d in r.closed - {c};
    assert d in h.closed <==> d in h.closed - {c};
    assert d in h.conns ==> (h.conns - {c})[d] == h.conns[d] && (r.conns - {c})[d] == r.conns[d];
    assert d in h.closed ==> (h.closed - {c})[d] == h.closed[d] && (r.closed - {c})[d] == r.closed[d];
  }

  ghost predicate SlotsSwept(g: State, r: State, ct: CtrlId, n: nat)
    requires Inv(g) && Inv(r)
  {
    forall s :: 0 <= s < SLOTS ==>
      if s < n && WaitsOn(g, s, ct) then r.pending[s] == None && r.gen[s] == g.gen[s] + 1
      else r.pending[s] == g.pending[s] && r.gen[s] == g.gen[s]
  }

  ghost predicate AllSwept(g: State, r: State, ct: CtrlId, envs: seq<Env>, n: nat)
    requires n <= SLOTS == |envs|
  {
    forall c :: c in g.conns ==> Swept(g, r, ct, envs, n, c)
  }

  lemma {:induction false} SweepNextIdle(g: State, h: State, ct: CtrlId, envs: seq<Env>, n: nat)
    requires Inv(g) && Inv(h) && n < SLOTS == |envs| && !WaitsOn(g, n, ct)
    requires SlotsSwept(g, h, ct, n) && AllSwept(g, h, ct, envs, n)
    ensures SweepSlot(h, ct, n, envs[n]) == h
    ensures SlotsSwept(g, h, ct, n + 1) && AllSwept(g, h, ct, envs, n + 1)
  {
    if g.pending[n].Some? {
      assert Holds(g, n, g.pending[n].value);
      assert Swept(g, h, ct, envs, n, g.pending[n].value);
    }
    forall d | d in g.conns ensures Swept(g, h, ct, envs, n + 1, d) {
      assert Swept(g, h, ct, envs, n, d);
    }
  }

  lemma {:induction false} SweepNextSlots(g: State, h: State, r: State, ct: CtrlId, n: nat, c: ConnId)
    requires Inv(g) && Good(h, r, c) && n < SLOTS && h.pending[n] == Some(c) && WaitsOn(g, n, ct)
    requires r.pending[n] == None && r.gen[n] == h.gen[n] + 1 && SlotsSwept(g, h, ct, n)
    ensures SlotsSwept(g, r, ct, n + 1)
  {
    assert Holds(h, n, c);
    forall s | 0 <= s < SLOTS && s != n ensures r.pending[s] == h.pending[s] && r.gen[s] == h.gen[s] {
      assert h.pending[s].Some? ==> Holds(h, s, h.pending[s].value);
    }
  }

  lemma {:induction false} SweptAgree(g: State, h: State, r: State, ct: CtrlId, envs: seq<Env>, n: nat, d: ConnId)
    requires n < SLOTS == |envs| && d in g.conns && Swept(g, h, ct, envs, n, d) && Agree(h, r, d)
    requires g.conns[d].inflight ==> SlotOf(g.conns[d].reqId) != n
    ensures Swept(g, r, ct, envs, n + 1, d)
  {
  }

  lemma {:induction false} SweepNextConns(g: State, h: State, r: State, ct: CtrlId, envs: seq<Env>, n: nat, c: ConnId)
    requires Inv(g) && Good(h, r, c) && n < SLOTS == |envs| && g.pending[n] == Some(c) && WaitsOn(g, n, ct)
    requires Fate(g.conns[c], r, c, envs[n]) && AllSwept(g, h, ct, envs, n)
    ensures AllSwept(g, r, ct, envs, n + 1)
  {
    assert Holds(g, n, c);
    forall d | d in g.conns ensures Swept(g, r, ct, envs, n + 1, d) {
      if d != c {
        OthersAgree(h, r, c, d);
        SweptAgree(g, h, r, ct, envs, n, d);
      }
    }
  }

  ghost predicate SweptUpTo(g: State, r: State, ct: CtrlId, envs: seq<Env>, n: nat)
    requires n <= SLOTS == |envs|
  {
    Inv(g) && Inv(r) && SlotsSwept(g, r, ct, n) && AllSwept(g, r, ct, envs, n)
  }

  /** Sweeping one more slot. */
  lemma {:induction false} SweepNext(g: State, h: State, r: State, ct: CtrlId, envs: seq<Env>, n: nat)
    requires n < SLOTS == |envs| && SweptUpTo(g, h, ct, envs, n) && r == SweepSlot(h, ct, n, envs[n])
    ensures SweptUpTo(g, r, ct, envs, n + 1)
  {
    if WaitsOn(g, n, ct) {
      var c := g.pending[n].value;
      assert Holds(g, n, c);
      assert Swept(g, h, ct, envs, n, c);
      SweepSlotFate(h, ct, n, envs[n]);
      SweepNextSlots(g, h, r, ct, n, c);
      SweepNextConns(g, h, r, ct, envs, n, c);
    } else {
      SweepNextIdle(g, h, ct, envs, n);
    }
  }

  lemma {:induction false} SweepNone(g: State, ct: CtrlId, envs: seq<Env>)
    requires Inv(g) && |envs| == SLOTS
    ensures SweptUpTo(g, g, ct, envs, 0)
  {
  }

  /** The sweep over the first n slots does exactly its work on each of them and nothing elsewhere. */
  lemma {:induction false} SweepEffect(g: State, ct: CtrlId, envs: seq<Env>, n: nat)
    requires Inv(g) && n <= SLOTS == |envs|
    ensures SweptUpTo(g, Sweep(g, ct, envs, n), ct, envs, n)
    decreases n
  {
    if n == 0 {
      SweepNone(g, ct, envs);
    } else {
      SweepEffect(g, ct, envs, n - 1);
      SweepNext(g, Sweep(g, ct, envs, n - 1), Sweep(g, ct, envs, n), ct, envs, n - 1);
    }
  }

  /** After the sweep nobody in flight waits on the dead controller. */
  lemma {:induction false} NobodyWaits(g: State, ct: CtrlId, envs: seq<Env>)
    requires Inv(g) && |envs| == SLOTS
    ensures Unwaited(Sweep(g, ct, envs, |envs|), ct)
  {
    var r := Sweep(g, ct, envs, |envs|);
    SweepEffect(g, ct, envs, |envs|);
    forall c | c in r.conns && r.conns[c].inflight ensures r.conns[c].ctrl != Some(ct) {
      NotWaiting(g, r, ct, envs, c);
    }
  }

  lemma {:induction false} NotWaiting(g: State, r: State, ct: CtrlId, envs: seq<Env>, c: ConnId)
    requires Inv(g) && Inv(r) && |envs| == SLOTS && SlotsSwept(g, r, ct, SLOTS) && AllSwept(g, r, ct, envs, SLOTS)
    requires c in r.conns && r.conns[c].inflight
    ensures r.conns[c].ctrl != Some(ct)
  {
    var s := SlotOf(r.conns[c].reqId);
    assert r.pending[s] == Some(c) == g.pending[s];
    assert Holds(g, s, c);
    assert Swept(g, r, ct, envs, SLOTS, c);
  }

  ghost predicate Unwaited(g: State, ct: CtrlId)
  {
    forall c :: c in g.conns && g.conns[c].inflight ==> g.conns[c].ctrl != Some(ct)
  }

  function DropCtrl(g: State, ct: CtrlId): (r: State)
    requires Inv(g) && Unwaited(g, ct)
    ensures Inv(r) && r.pending == g.pending && r.gen == g.gen
  {
    g.(ctrls := g.ctrls - {ct})
  }

  /** controller_died. */
  function Died(g: State, ct: CtrlId, envs: seq<Env>): (r: State)
    requires Inv(g) && |envs| == SLOTS
    ensures Onward(g, r)
  {
    var h := Sweep(g, ct, envs, |envs|);
    NobodyWaits(g, ct, envs);
    DropOnward(g, h, ct);
    DropCtrl(h, ct)
  }

  lemma {:induction false} DropOnward(g: State, h: State, ct: CtrlId)
    requires Onward(g, h) && Unwaited(h, ct)
    ensures Onward(g, DropCtrl(h, ct))
  {
  }

  // ---- steps and runs ----

  datatype Event =
    | Accept
    | Spawn(ct: CtrlId)
    | Answer(c: ConnId, status: nat, env: Env)
    | Forwarded(c: ConnId, target: Option<CtrlId>, request: Option<bytes>, queued: bool, env: Env)
    | WsUpgrade(c: ConnId, target: Option<CtrlId>, request: Option<bytes>, queued: bool, head: bytes, env: Env)
    | CtrlFrame(kind: byte, id: nat, payload: bytes, streamHead: Option<bytes>, env: Env)
    | WsFrameIn(c: ConnId, action: Ws.Action, env: Env)
    | Writable(c: ConnId, io: Io)
    | Hangup(c: ConnId)
    | CtrlDied(ct: CtrlId, envs: seq<Env>)

  /** When the event loop can deliver an event: handlers run on live connections in the phase that polls for it. */
  ghost predicate Enabled(g: State, e: Event)
  {
    match e
    case Accept => true
    case Spawn(ct) => ct !in g.ctrls
    case Answer(c, _, _) => c in g.conns && g.conns[c].phase.Reading?
    case Forwarded(c, t, _, _, _) => c in g.conns && g.conns[c].phase.Reading? && (t.Some? ==> t.value in g.ctrls)
    case WsUpgrade(c, t, _, _, _, _) => c in g.conns && g.conns[c].phase.Reading? && (t.Some? ==> t.value in g.ctrls)
    case CtrlFrame(_, _, _, _, _) => true
    case WsFrameIn(c, _, _) => c in g.conns && g.conns[c].phase.WebSocket?
    case Writable(c, _) => c in g.conns && !g.conns[c].phase.Reading? && !g.conns[c].phase.Waiting?
    case Hangup(c) => c in g.conns
    case CtrlDied(ct, envs) => ct in g.ctrls && |envs| == SLOTS
  }

  /** One poll event. */
  function Step(g: State, e: Event): (r: State)
    requires Inv(g) && Enabled(g, e)
    ensures Onward(g, r)
  {
    match e
    case Accept => g.(conns := g.conns[g.next := NewConn()], next := g.next + 1)
    case Spawn(ct) => g.(ctrls := g.ctrls[ct := []])
    case Answer(c, status, env) => Respond(g, c, status, env)
    case Forwarded(c, t, payload, queued, env) => Forward(g, c, t, payload, queued, env)
    case WsUpgrade(c, t, payload, queued, head, env) => Upgrade(g, c, t, payload, queued, head, env)
    case CtrlFrame(kind, id, payload, head, env) => FromCtrl(g, kind, id, payload, head, env)
    case WsFrameIn(c, action, env) => FromWs(g, c, action, env)
    case Writable(c, io) => OnWritable(g, c, io)
    case Hangup(c) => Close(g, c, ClientGone)
    case CtrlDied(ct, envs) => Died(g, ct, envs)
  }

  ghost predicate Possible(g: State, es: seq<Event>)
    requires Inv(g)
    decreases |es|
  {
    es == [] || (Enabled(g, es[0]) && Possible(Step(g, es[0]), es[1..]))
  }

  ghost function Run(g: State, es: seq<Event>): (r: State)
    requires Inv(g) && Possible(g, es)
    ensures Onward(g, r)
    decreases |es|
  {
    if es == [] then g else
    var h := Step(g, es[0]);
    var r := Run(h, es[1..]);
    OnwardTrans(g, h, r);
    r
  }

  lemma {:induction false} OnwardTrans(g: State, h: State, r: State)
    requires Onward(g, h) && Onward(h, r)
    ensures Onward(g, r)
  {
  }
}
