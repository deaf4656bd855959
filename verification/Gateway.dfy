/** The gateway as the code keeps it: arrays of slots updated in place, 32-bit generations that wrap, connection records
    reached through the table. Every handler does to that memory what the relay's state machine says. */
module Gateway {
  import opened Bytes
  import opened Socket
  import opened Framing
  import opened Relay
  import opened RelayRun
  import opened RelayTheorems
  import Wire
  import Chunked
  import Ws

  const WRAP := 0x1_0000_0000

  lemma {:induction false} WrapKeepsLowBits(n: nat)
    ensures n % WRAP % GENS == n % GENS
  {
    assert n == n / WRAP * 4096 * GENS + n % WRAP;
  }

  lemma {:induction false} WrapNext(n: nat)
    ensures (n % WRAP + 1) % WRAP == (n + 1) % WRAP
  {
  }

  class Table {
    const pending: array<Option<ConnId>>
    const gen: array<nat>
    const freeSlots: array<nat>
    var freeTop: nat
    var conns: map<ConnId, Conn>
    var next: ConnId
    var ctrls: map<CtrlId, seq<Frame>>
    ghost var closed: map<ConnId, Gone>
    ghost var frees: seq<nat>   // how often each slot was freed; gen keeps it modulo 2^32

    ghost predicate Laid()
      reads this, pending, gen, freeSlots
    {
      && pending.Length == gen.Length == freeSlots.Length == |frees| == SLOTS && freeTop <= SLOTS
      && gen != freeSlots
      && (forall s :: 0 <= s < SLOTS ==> gen[s] == frees[s] % WRAP)
    }

    /** The abstract state this memory stands for. */
    ghost function Model(): State
      requires Laid()
      reads this, pending, gen, freeSlots
    {
      State(pending[..], frees, freeSlots[..freeTop], conns, closed, next, ctrls)
    }

    ghost predicate Valid()
      reads this, pending, gen, freeSlots
    {
      Laid() && Inv(Model())
    }

    /** gw_slots_init. */
    constructor ()
      ensures Valid() && Model() == Init()
      ensures fresh(pending) && fresh(gen) && fresh(freeSlots)
    {
      pending := new Option<ConnId>[SLOTS](_ => None);
      gen := new nat[SLOTS](_ => 0);
      freeSlots := new nat[SLOTS](_ => 0);
      freeTop, conns, next, ctrls, closed, frees := SLOTS, map[], 0, map[], map[], seq(SLOTS, _ => 0);
      new;
      var i := 0;
      while i < SLOTS
        invariant 0 <= i <= SLOTS && Laid()
        invariant forall k :: 0 <= k < i ==> freeSlots[k] == k
        invariant pending[..] == Init().pending && frees == Init().gen && freeTop == SLOTS
        invariant conns == map[] && next == 0 && ctrls == map[] && closed == map[]
      {
        freeSlots[i] := i;
        i := i + 1;
      }
      assert freeSlots[..freeTop] == Init().free;
    }

    /** gw_conn_for_id: the slot's holder when the id's generation is the slot's. */
    method Resolve(id: nat) returns (c: Option<ConnId>)
      requires Valid()
      ensures c == ConnForId(Model(), id)
    {
      var slot := id % SLOTS;
      WrapKeepsLowBits(frees[slot]);
      c := pending[slot];
      if c.None? || gen[slot] % GENS != id / SLOTS { c := None; }
    }

    /** gw_free_slot, then inflight = false. */
    method FreeSlot(c: ConnId)
      requires Valid() && c in conns && conns[c].inflight
      modifies this, pending, gen, freeSlots
      ensures Valid() && Model() == Release(old(Model()), c)
    {
      ghost var g := Model();
      var slot := conns[c].reqId % SLOTS;
      Room(g, slot, c);
      Vacate(slot);
      GiveBack(slot);
      conns := conns[c := conns[c].(inflight := false)];
      ReleaseIs(g, c, slot, Model());
    }

    /** The slot goes on top of the free stack. */
    method GiveBack(slot: nat)
      requires Laid() && freeTop < SLOTS
      modifies freeSlots, `freeTop
      ensures Laid() && gen[..] == old(gen[..]) && freeSlots[..freeTop] == old(freeSlots[..freeTop]) + [slot]
    {
      freeSlots[freeTop] := slot;
      freeTop := freeTop + 1;
    }

    /** The slot is empty and its generation moves on. */
    method Vacate(slot: nat)
      requires Laid() && slot < SLOTS
      modifies pending, gen, `frees
      ensures Laid() && freeSlots[..] == old(freeSlots[..])
      ensures pending[..] == old(pending[..])[slot := None] && frees == old(frees)[slot := old(frees)[slot] + 1]
    {
      WrapNext(frees[slot]);
      pending[slot] := None;
      gen[slot] := (gen[slot] + 1) % WRAP;
      frees := frees[slot := frees[slot] + 1];
    }

    /** Overwrite connection c's record in place. */
    method Store(c: ConnId, k: Conn)
      requires Valid() && c in conns && ConnOk(Model(), k)
      requires k.inflight == conns[c].inflight && k.reqId == conns[c].reqId && k.ctrl == conns[c].ctrl
      modifies `conns
      ensures Valid() && Model() == Update(old(Model()), c, k)
    {
      conns := conns[c := k];
      assert Model() == Update(old(Model()), c, k);
    }

    /** ctrl_queue. */
    method Enqueue(ghost c: ConnId, ct: CtrlId, f: Frame)
      requires Valid() && ct in ctrls
      modifies `ctrls
      ensures Valid() && Model() == Queue(old(Model()), c, ct, f)
    {
      ctrls := ctrls[ct := ctrls[ct] + [f]];
      assert Model() == Queue(old(Model()), c, ct, f);
    }

    method Forget(c: ConnId, ghost why: Why)
      requires Valid() && c in conns && !conns[c].inflight
      modifies `conns, `closed
      ensures Valid() && Model() == Discard(old(Model()), c, why)
    {
      closed := closed[c := Gone(conns[c], why)];
      conns := conns - {c};
      assert Model() == Discard(old(Model()), c, why);
    }

    /** conn_close. */
    method ConnClose(c: ConnId, ghost why: Why)
      requires Valid() && c in conns
      modifies this, pending, gen, freeSlots
      ensures Valid() && Model() == Close(old(Model()), c, why)
    {
      var k := conns[c];
      if k.isWs && k.inflight {
        Enqueue(c, k.ctrl.value, Frame(VERSION, WS_CLOSE, k.reqId, Wire.U16(1000)));
      }
      if k.inflight { FreeSlot(c); }
      Forget(c, why);
    }

    /** on_writable: the send loop over the active buffer. */
    method Flush(c: ConnId, io: Io)
      requires Valid() && c in conns && !conns[c].phase.Reading?
      modifies this, pending, gen, freeSlots
      ensures Valid() && Model() == OnWritable(old(Model()), c, io)
    {
      var k := conns[c];
      var buf := Active(k);
      var pos, outcome := SendLoop(buf, 0, io.net);
      assert buf[0..] == buf && buf[0..pos] == buf[..pos];
      ghost var f := Drain(buf, io.net);
      assert |f.sent + f.rest| == |buf|;
      var k' := if k.streaming then k.(sw := buf[pos..], sent := k.sent + buf[..pos])
                else k.(w := buf[pos..], sent := k.sent + buf[..pos]);
      assert k' == AfterFlush(k, f);
      Store(c, k');
      if outcome.Blocked? { return; }
      if outcome.Broken? { ConnClose(c, NetError); return; }
      if !k.streaming || k.ended { ConnClose(c, Finished); return; }
      if !io.rearm { ConnClose(c, PollFailed); }
    }

    /** stream_kick and conn_flush. */
    method ArmAndFlush(c: ConnId, io: Io)
      requires Valid() && c in conns && !conns[c].phase.Reading?
      modifies this, pending, gen, freeSlots
      ensures Valid()
      ensures Model() == if io.arm then OnWritable(old(Model()), c, io) else Close(old(Model()), c, PollFailed)
    {
      if !io.arm { ConnClose(c, PollFailed); return; }
      Flush(c, io);
    }

    /** stream_push. */
    method StreamPush(c: ConnId, data: bytes, io: Io)
      requires Valid() && c in conns && !conns[c].phase.Reading?
      modifies this, pending, gen, freeSlots
      ensures Valid() && Model() == Push(old(Model()), c, data, io)
    {
      var k := conns[c];
      if data != [] && |k.sw| + |data| > STREAM_MAX {
        ConnClose(c, TooSlow);
      } else if data != [] && !io.mem {
        ConnClose(c, NoMemory);
      } else {
        Append(c, data, io);
      }
    }

    method Append(c: ConnId, data: bytes, io: Io)
      requires Valid() && c in conns && !conns[c].phase.Reading? && |conns[c].sw| + |data| <= STREAM_MAX
      requires data == [] || io.mem
      modifies this, pending, gen, freeSlots
      ensures Valid() && Model() == Push(old(Model()), c, data, io)
    {
      var k := conns[c];
      Store(c, k.(sw := k.sw + data));
      ArmAndFlush(c, io);
    }

    /** conn_respond and conn_flush. */
    method RespondAndFlush(c: ConnId, status: nat, env: Env)
      requires Valid() && c in conns
      modifies this, pending, gen, freeSlots
      ensures Valid() && Model() == Respond(old(Model()), c, status, env)
    {
      if env.text.None? { ConnClose(c, NoMemory); return; }
      Store(c, WithText(conns[c], status, env.text.value));
      ArmAndFlush(c, env.io);
    }

    // ---- frames from a controller ----

    method DeliverResponse(c: ConnId, payload: bytes, env: Env)
      requires Valid() && c in conns && conns[c].inflight
      modifies this, pending, gen, freeSlots
      ensures Valid() && Model() == Deliver(old(Model()), c, payload, env)
    {
      FreeSlot(c);
      var resp := Wire.DecodeResponseEx(payload);
      RespondAndFlush(c, if resp.None? then 502 else resp.value.0.status, env);
    }

    method DeliverStreamBegin(c: ConnId, payload: bytes, head: Option<bytes>, env: Env)
      requires Valid() && c in conns && conns[c].inflight
      modifies this, pending, gen, freeSlots
      ensures Valid() && Model() == DeliverBegin(old(Model()), c, payload, head, env)
    {
      var b := Wire.DecodeBegin(payload);
      if b.None? {
        FreeSlot(c);
        RespondAndFlush(c, 502, env);
      } else if head.None? {
        ConnClose(c, NoMemory);
      } else {
        Store(c, Begun(conns[c], b.value, head.value));
        StreamPush(c, head.value, env.io);
      }
    }

    method DeliverStreamChunk(c: ConnId, payload: bytes, env: Env)
      requires Valid() && c in conns && conns[c].inflight
      modifies this, pending, gen, freeSlots
      ensures Valid() && Model() == DeliverChunk(old(Model()), c, payload, env)
    {
      var k, data := conns[c], Wire.DecodeChunk(payload);
      if !k.streaming || data.None? || data.value == [] { return; }
      Store(c, k.(log := k.log + [data.value]));
      PushPieces(c, Pieces(k, data.value, env));
    }

    method PushPieces(c: ConnId, parts: seq<(bytes, Io)>)
      requires Valid() && c in conns && !conns[c].phase.Reading?
      modifies this, pending, gen, freeSlots
      ensures Valid() && Model() == PushAll(old(Model()), c, parts)
      decreases |parts|
    {
      if parts == [] { return; }
      StreamPush(c, parts[0].0, parts[0].1);
      if c in conns { PushPieces(c, parts[1..]); }
    }

    method DeliverStreamEnd(c: ConnId, env: Env)
      requires Valid() && c in conns && conns[c].inflight
      modifies this, pending, gen, freeSlots
      ensures Valid() && Model() == DeliverEnd(old(Model()), c, env)
    {
      FreeSlot(c);
      var k := conns[c];
      if !k.streaming {
        ConnClose(c, EndBeforeBegin);
      } else {
        Store(c, k.(ended := true));
        StreamPush(c, if k.sse then [] else Chunked.TERMINATOR, env.io);
      }
    }

    method PushFrame(c: ConnId, frame: bytes, io: Io)
      requires Valid() && c in conns && !conns[c].phase.Reading?
      modifies this, pending, gen, freeSlots
      ensures Valid() && Model() == WsPush(old(Model()), c, frame, io)
    {
      Store(c, conns[c].(log := conns[c].log + [frame]));
      StreamPush(c, frame, io);
    }

    method DeliverWsMsg(c: ConnId, payload: bytes, env: Env)
      requires Valid() && c in conns && conns[c].inflight
      modifies this, pending, gen, freeSlots
      ensures Valid() && Model() == WsDeliver(old(Model()), c, payload, env)
    {
      var msg := Wire.DecodeWsMsg(payload);
      if !conns[c].isWs || msg.None? { return; }
      PushFrame(c, Ws.Encode(if msg.value.0 == Ws.BIN then Ws.BIN else Ws.TEXT, msg.value.1), env.io);
    }

    method DeliverWsClose(c: ConnId, env: Env)
      requires Valid() && c in conns && conns[c].inflight
      modifies this, pending, gen, freeSlots
      ensures Valid() && Model() == WsDeliverClose(old(Model()), c, env)
    {
      FreeSlot(c);
      Store(c, conns[c].(ended := true));
      PushFrame(c, Ws.Encode(Ws.CLOSE, []), env.io);
    }

    /** The dispatch of on_ctrl_readable for one frame. */
    method OnFrame(kind: byte, id: nat, payload: bytes, head: Option<bytes>, env: Env)
      requires Valid()
      modifies this, pending, gen, freeSlots
      ensures Valid() && Model() == FromCtrl(old(Model()), kind, id, payload, head, env)
    {
      var r := Resolve(id);
      if r.None? { return; }
      var c := r.value;
      assert Holds(Model(), SlotOf(id), c);
      if kind == RESPONSE { DeliverResponse(c, payload, env); }
      else if kind == RESPONSE_BEGIN { DeliverStreamBegin(c, payload, head, env); }
      else if kind == RESPONSE_CHUNK { DeliverStreamChunk(c, payload, env); }
      else if kind == RESPONSE_END { DeliverStreamEnd(c, env); }
      else if kind == WS_MSG { DeliverWsMsg(c, payload, env); }
      else if kind == WS_CLOSE { DeliverWsClose(c, env); }
    }

    // ---- forwarding ----

    /** gw_alloc_id, ctrl_queue and the connection's new record. */
    method Allocate(c: ConnId, k: Conn, ct: CtrlId, kind: byte, payload: bytes)
      requires Valid() && c in conns && !conns[c].inflight && ct in ctrls && freeTop > 0
      requires !k.phase.Reading? && |k.sw| <= STREAM_MAX && k.streaming == k.headSent
      modifies this, pending, gen, freeSlots
      ensures Valid() && Model() == Bind(old(Model()), c, k, ct, kind, payload)
    {
      ghost var g := Model();
      freeTop := freeTop - 1;
      var slot := freeSlots[freeTop];
      WrapKeepsLowBits(frees[slot]);
      pending[slot] := Some(c);
      var id := gen[slot] % GENS * SLOTS + slot;
      ctrls := ctrls[ct := ctrls[ct] + [Frame(VERSION, kind, id, payload)]];
      conns := conns[c := k.(inflight := true, reqId := id, ctrl := Some(ct))];
      assert id == IdFor(g.gen[slot], slot);
      assert pending[..] == g.pending[slot := Some(c)] && freeSlots[..freeTop] == g.free[..|g.free| - 1];
      assert Model() == Bind(g, c, k, ct, kind, payload);
    }

    /** gw_alloc_id undone by gw_free_slot because the frame could not be queued. */
    method AllocateAndFree()
      requires Valid() && freeTop > 0
      modifies this, pending, gen, freeSlots
      ensures Valid() && Model() == Burn(old(Model()))
    {
      ghost var g := Model();
      var slot := freeSlots[freeTop - 1];
      Vacate(slot);
      freeSlots[freeTop - 1] := slot;
      assert Model() == Burn(g);
    }

    /** gw_forward. */
    method ForwardRequest(c: ConnId, target: Option<CtrlId>, payload: Option<bytes>, queued: bool, env: Env)
      requires Valid() && c in conns && conns[c].phase.Reading? && (target.Some? ==> target.value in ctrls)
      modifies this, pending, gen, freeSlots
      ensures Valid() && Model() == Forward(old(Model()), c, target, payload, queued, env)
    {
      if target.None? { RespondAndFlush(c, 503, env); }
      else if payload.None? { RespondAndFlush(c, 500, env); }
      else if freeTop == 0 { RespondAndFlush(c, 503, env); }
      else if !queued { AllocateAndFree(); RespondAndFlush(c, 503, env); }
      else { Allocate(c, conns[c].(phase := Waiting), target.value, REQUEST, payload.value); }
    }

    /** gw_ws_upgrade, after the handshake key was accepted. */
    method UpgradeRequest(c: ConnId, target: Option<CtrlId>, payload: Option<bytes>, queued: bool, head: bytes,
                          env: Env)
      requires Valid() && c in conns && conns[c].phase.Reading? && (target.Some? ==> target.value in ctrls)
      modifies this, pending, gen, freeSlots
      ensures Valid() && Model() == Upgrade(old(Model()), c, target, payload, queued, head, env)
    {
      if target.None? || payload.None? || freeTop == 0 || !queued {
        ForwardRequest(c, target, payload, false, env);
      } else {
        Allocate(c, Upgraded(conns[c], head), target.value, WS_OPEN, payload.value);
        StreamPush(c, head, env.io);
      }
    }

    /** What on_ws_readable does with one decoded client frame. */
    method OnWsAction(c: ConnId, action: Ws.Action, env: Env)
      requires Valid() && c in conns && !conns[c].phase.Reading?
      modifies this, pending, gen, freeSlots
      ensures Valid() && Model() == FromWs(old(Model()), c, action, env)
    {
      var k := conns[c];
      match action
      case PongBack(data) => PushFrame(c, Ws.Encode(Ws.PONG, data), env.io);
      case ToController(op, data) =>
        if k.inflight { Enqueue(c, k.ctrl.value, Frame(VERSION, WS_MSG, k.reqId, Wire.PutWsMsg(op, data))); }
      case Ignored =>
    }

    // ---- a controller dies ----

    method SweepOne(ct: CtrlId, s: nat, env: Env)
      requires Valid() && s < SLOTS
      modifies this, pending, gen, freeSlots
      ensures Valid() && Model() == SweepSlot(old(Model()), ct, s, env)
    {
      if pending[s].None? { return; }
      var c := pending[s].value;
      assert Holds(Model(), s, c);
      if conns[c].ctrl != Some(ct) { return; }
      FreeSlot(c);
      if conns[c].headSent { ConnClose(c, CtrlGone); } else { RespondAndFlush(c, 502, env); }
    }

    /** The sweep: one pass over all slots. */
    method SweepAll(ct: CtrlId, envs: seq<Env>)
      requires Valid() && |envs| == SLOTS
      modifies this, pending, gen, freeSlots
      ensures Valid() && Model() == Sweep(old(Model()), ct, envs, |envs|)
    {
      ghost var g := Model();
      var i := 0;
      while i < SLOTS
        invariant 0 <= i <= SLOTS && Valid() && Model() == Sweep(g, ct, envs, i)
      {
        i := i + 1;
        SweepTurn(g, ct, i, envs);
      }
    }

    method SweepTurn(ghost g: State, ct: CtrlId, n: nat, envs: seq<Env>)
      requires Valid() && Inv(g) && 0 < n <= SLOTS == |envs| && Model() == Sweep(g, ct, envs, n - 1)
      modifies this, pending, gen, freeSlots
      ensures Valid() && Model() == Sweep(g, ct, envs, n)
    {
      ghost var h := Model();
      SweepOne(ct, n - 1, envs[n - 1]);
      SweepIs(g, ct, envs, n, h, Model());
    }

    /** controller_died. */
    method ControllerDied(ct: CtrlId, envs: seq<Env>)
      requires Valid() && |envs| == SLOTS
      modifies this, pending, gen, freeSlots
      ensures Valid() && Model() == Died(old(Model()), ct, envs)
    {
      NobodyWaits(Model(), ct, envs);
      SweepAll(ct, envs);
      RemoveCtrl(ct);
    }

    method RemoveCtrl(ct: CtrlId)
      requires Valid() && Unwaited(Model(), ct)
      modifies `ctrls
      ensures Valid() && Model() == DropCtrl(old(Model()), ct)
    {
      ctrls := ctrls - {ct};
      assert Model() == DropCtrl(old(Model()), ct);
    }

    // ---- the event loop ----

    /** conn_new. */
    method NewClient()
      requires Valid()
      modifies `conns, `next
      ensures Laid() && Model() == Step(old(Model()), Accept)
    {
      conns, next := conns[next := NewConn()], next + 1;
    }

    /** A controller's socket is up, with nothing queued. */
    method NewController(ct: CtrlId)
      requires Valid() && ct !in ctrls
      modifies `ctrls
      ensures Laid() && Model() == Step(old(Model()), Spawn(ct))
    {
      ctrls := ctrls[ct := []];
    }

    /** One poll event, dispatched to its handler. */
    method OnEvent(e: Event)
      requires Valid() && Enabled(Model(), e)
      modifies this, pending, gen, freeSlots
      ensures Valid() && Model() == Step(old(Model()), e)
    {
      match e
      case Accept => NewClient();
      case Spawn(ct) => NewController(ct);
      case Answer(c, status, env) => RespondAndFlush(c, status, env);
      case Forwarded(c, t, payload, queued, env) => ForwardRequest(c, t, payload, queued, env);
      case WsUpgrade(c, t, payload, queued, head, env) => UpgradeRequest(c, t, payload, queued, head, env);
      case CtrlFrame(kind, id, payload, head, env) => OnFrame(kind, id, payload, head, env);
      case WsFrameIn(c, action, env) => OnWsAction(c, action, env);
      case Writable(c, io) => Flush(c, io);
      case Hangup(c) => ConnClose(c, ClientGone);
      case CtrlDied(ct, envs) => ControllerDied(ct, envs);
    }
  }

  /** The event loop over any run: the memory ends up as the state machine says, so all that is proved of its runs holds
      of the gateway's tables. */
  method Operate(es: seq<Event>) returns (t: Table)
    requires Possible(Init(), es)
    ensures fresh(t) && t.Valid() && t.Model() == Run(Init(), es)
  {
    t := new Table();
    ghost var end := Run(Init(), es);
    var i := 0;
    assert es[0..] == es;
    while i < |es|
      invariant 0 <= i <= |es| && fresh(t) && fresh(t.pending) && fresh(t.gen) && fresh(t.freeSlots) && t.Valid()
      invariant Reaches(t.Model(), es[i..], end)
    {
      ReachStep(t.Model(), es[i..], end);
      assert es[i..][0] == es[i] && es[i..][1..] == es[i + 1..];
      t.OnEvent(es[i]);
      i := i + 1;
    }
    assert es[i..] == [];
  }

  /** Running the rest of the events from g ends in r. */
  ghost predicate Reaches(g: State, es: seq<Event>, r: State) { Inv(g) && Possible(g, es) && Run(g, es) == r }

  lemma {:induction false} ReachStep(g: State, es: seq<Event>, r: State)
    requires Reaches(g, es, r) && es != []
    ensures Enabled(g, es[0]) && Reaches(Step(g, es[0]), es[1..], r)
  {
  }

  lemma {:induction false} SweepIs(g: State, ct: CtrlId, envs: seq<Env>, n: nat, h: State, r: State)
    requires Inv(g) && Inv(h) && 0 < n <= SLOTS == |envs| && h == Sweep(g, ct, envs, n - 1)
    requires r == SweepSlot(h, ct, n - 1, envs[n - 1])
    ensures r == Sweep(g, ct, envs, n)
  {
    SweepStep(g, ct, envs, n);
  }

  lemma {:induction false} ReleaseIs(g: State, c: ConnId, slot: nat, r: State)
    requires Inv(g) && c in g.conns && g.conns[c].inflight && slot == SlotOf(g.conns[c].reqId)
    requires r == g.(pending := g.pending[slot := None], gen := g.gen[slot := g.gen[slot] + 1], free := g.free + [slot],
                     conns := g.conns[c := g.conns[c].(inflight := false)])
    ensures r == Release(g, c)
  {
  }

  /** A slot in use leaves room on the free stack for it. */
  lemma {:induction false} Room(g: State, s: nat, c: ConnId)
    requires Inv(g) && s < SLOTS && g.pending[s] == Some(c)
    ensures |g.free| < SLOTS
  {
    Census(g);
    assert Holds(g, s, c);
    assert c in InFlight(g);
  }
}
