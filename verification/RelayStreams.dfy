/** What clients receive, over every run with controllers that follow the frame grammar: each connection's bytes are
    always a prefix of exactly what was relayed to it, and all of it once it has finished. */
module RelayStreams {
  import opened Bytes
  import opened Framing
  import opened Relay
  import opened RelayRun
  import Wire
  import Ws
  import Chunked

  /** The body bytes a connection's relayed items stand for. */
  ghost function Body(k: Conn): bytes
  {
    if !k.streaming then []
    else if k.sse || k.isWs then Concat(k.log)
    else Concat(Chunked.Framed(k.log)) + if k.ended then Chunked.TERMINATOR else []
  }

  ghost function Expected(k: Conn): bytes { k.head + Body(k) }

  ghost predicate PhaseOk(k: Conn)
  {
    match k.phase
    case Reading => k == NewConn()
    case Waiting =>
      && !k.streaming && !k.isWs && !k.ended
      && k.head == [] && k.log == [] && k.sent == [] && k.w == [] && k.sw == []
    case Writing => !k.streaming && !k.isWs && !k.inflight
    case Streaming => k.streaming && !k.isWs && (k.ended ==> !k.inflight) && Chunked.Chunkable(k.log)
    case WebSocket => k.streaming && k.isWs && (k.ended ==> !k.inflight)
  }

  /** An open connection: sent plus waiting is exactly what was relayed to it. */
  ghost predicate Faithful(k: Conn) { PhaseOk(k) && Out(k) == Expected(k) }

  /** A closed one: it got a prefix, and everything if it finished. */
  ghost predicate FaithfulEnd(x: Gone)
  {
    && PhaseOk(x.last.(inflight := false)) && x.last.sent <= Expected(x.last)
    && (x.why.Finished? ==> x.last.sent == Expected(x.last) && (x.last.streaming ==> x.last.ended))
  }

  ghost predicate StreamInv(g: State)
  {
    && Inv(g)
    && (forall c :: c in g.conns ==> Faithful(g.conns[c]))
    && (forall c :: c in g.closed ==> FaithfulEnd(g.closed[c]))
  }

  /** Controllers follow RESPONSE | BEGIN CHUNK* END, and speak WebSocket frames to WebSockets only. */
  ghost predicate Conforms(g: State, e: Event)
    requires Inv(g)
  {
    e.CtrlFrame? && ConnForId(g, e.id).Some? ==>
      var c := ConnForId(g, e.id).value;
      c in g.conns ==>
        && (e.kind == RESPONSE || e.kind == RESPONSE_BEGIN ==> g.conns[c].phase.Waiting?)
        && (e.kind == RESPONSE_CHUNK || e.kind == RESPONSE_END ==> !g.conns[c].isWs)
        && (e.kind == WS_CLOSE ==> g.conns[c].isWs)
  }

  // ---- local reasoning ----

  ghost predicate Landed(r: State, c: ConnId)
  {
    (c in r.conns ==> Faithful(r.conns[c])) && (c !in r.conns ==> c in r.closed && FaithfulEnd(r.closed[c]))
  }

  /** A step that touches one connection and leaves that one faithful leaves all faithful. */
  lemma {:induction false} TouchKeeps(g: State, r: State, c: ConnId)
    requires StreamInv(g) && c in g.conns && Good(g, r, c) && Landed(r, c)
    ensures StreamInv(r)
  {
    forall d | d in r.conns ensures Faithful(r.conns[d]) {
      if d != c { OthersAgree(g, r, c, d); }
    }
    forall d | d in r.closed ensures FaithfulEnd(r.closed[d]) {
      if d != c { OthersAgree(g, r, c, d); } else { assert c !in r.conns; }
    }
  }

  /** Bytes that complete what is expected, once moved, land faithfully. */
  lemma {:induction false} MovedLands(g: State, r: State, c: ConnId, more: bytes)
    requires c in g.conns && PhaseOk(g.conns[c]) && Out(g.conns[c]) + more == Expected(g.conns[c])
    requires g.conns[c].phase.Writing? || g.conns[c].phase.Streaming? || g.conns[c].phase.WebSocket?
    requires Moved(g, r, c, more)
    ensures Landed(r, c)
  {
  }

  lemma {:induction false} ClosedLands(g: State, r: State, c: ConnId, why: Why)
    requires c in g.conns && PhaseOk(g.conns[c]) && g.conns[c].sent <= Expected(g.conns[c]) && !why.Finished?
    requires c !in r.conns && c in r.closed && r.closed[c] == Gone(g.conns[c].(inflight := false), why)
    ensures Landed(r, c)
  {
  }

  lemma {:induction false} MovedTrans(g: State, h: State, r: State, c: ConnId, a: bytes, b: bytes)
    requires c in g.conns && c in h.conns && Moved(g, h, c, a) && Moved(h, r, c, b)
    ensures Moved(g, r, c, a + b)
  {
    Assoc(Out(g.conns[c]), a, b);
  }

  lemma {:induction false} MovedLess(g: State, r: State, c: ConnId, a: bytes, b: bytes)
    requires c in g.conns && c !in r.conns && g.conns[c].streaming && !g.conns[c].ended && Moved(g, r, c, a)
    ensures Moved(g, r, c, a + b)
  {
    Assoc(Out(g.conns[c]), a, b);
  }

  ghost function PieceBytes(parts: seq<(bytes, Io)>): bytes
  {
    if parts == [] then [] else parts[0].0 + PieceBytes(parts[1..])
  }

  lemma {:induction false} PushAllMoves(g: State, c: ConnId, parts: seq<(bytes, Io)>)
    requires Inv(g) && c in g.conns && !g.conns[c].phase.Reading? && g.conns[c].streaming && !g.conns[c].ended
    ensures Moved(g, PushAll(g, c, parts), c, PieceBytes(parts))
    decreases |parts|
  {
    if parts == [] {
      assert Out(g.conns[c]) + [] == Out(g.conns[c]);
    } else {
      var h := Push(g, c, parts[0].0, parts[0].1);
      PushMoves(g, c, parts[0].0, parts[0].1);
      if c in h.conns {
        PushAllMoves(h, c, parts[1..]);
        MovedTrans(g, h, PushAll(h, c, parts[1..]), c, parts[0].0, PieceBytes(parts[1..]));
      } else {
        MovedLess(g, h, c, parts[0].0, PieceBytes(parts[1..]));
      }
    }
  }

  // ---- each handler ----

  lemma {:induction false} CloseLands(g: State, c: ConnId, why: Why)
    requires Inv(g) && c in g.conns && Faithful(g.conns[c]) && !why.Finished?
    ensures Landed(Close(g, c, why), c)
  {
    ClosedLands(g, Close(g, c, why), c, why);
  }

  lemma {:induction false} TextExpects(k: Conn, status: nat, text: bytes)
    requires PhaseOk(k) && !k.inflight && (k.phase.Reading? || k.phase.Waiting?)
    ensures var k' := WithText(k, status, text); PhaseOk(k') && Out(k') + [] == Expected(k')
  {
  }

  /** A local answer on a connection that has said nothing yet. */
  lemma {:induction false} RespondLands(g: State, c: ConnId, status: nat, env: Env)
    requires Inv(g) && c in g.conns && PhaseOk(g.conns[c]) && !g.conns[c].inflight
    requires g.conns[c].phase.Reading? || g.conns[c].phase.Waiting?
    ensures Landed(Respond(g, c, status, env), c)
  {
    var r := Respond(g, c, status, env);
    if env.text.None? {
      ClosedLands(g, r, c, NoMemory);
    } else {
      RespondMoves(g, c, status, env);
      TextExpects(g.conns[c], status, env.text.value);
      MovedLands(g.(conns := g.conns[c := WithText(g.conns[c], status, env.text.value)]), r, c, []);
    }
  }

  lemma {:induction false} DeliverLands(g: State, c: ConnId, payload: bytes, env: Env)
    requires Inv(g) && c in g.conns && Faithful(g.conns[c]) && g.conns[c].inflight && g.conns[c].phase.Waiting?
    ensures Landed(Deliver(g, c, payload, env), c)
  {
    var resp := Wire.DecodeResponseEx(payload);
    RespondLands(Release(g, c), c, if resp.None? then 502 else resp.value.0.status, env);
  }

  lemma {:induction false} DeliverBeginLands(g: State, c: ConnId, payload: bytes, head: Option<bytes>, env: Env)
    requires Inv(g) && c in g.conns && Faithful(g.conns[c]) && g.conns[c].inflight && g.conns[c].phase.Waiting?
    ensures Landed(DeliverBegin(g, c, payload, head, env), c)
  {
    var b := Wire.DecodeBegin(payload);
    if b.None? {
      RespondLands(Release(g, c), c, 502, env);
    } else if head.None? {
      CloseLands(g, c, NoMemory);
    } else {
      BegunExpects(g.conns[c], b.value, head.value);
      PushLands(Update(g, c, Begun(g.conns[c], b.value, head.value)), c, head.value, env.io);
    }
  }

  /** A push that completes what is expected of a stream. */
  lemma {:induction false} PushLands(g: State, c: ConnId, more: bytes, io: Io)
    requires Inv(g) && c in g.conns && PhaseOk(g.conns[c]) && Out(g.conns[c]) + more == Expected(g.conns[c])
    requires g.conns[c].phase.Streaming? || g.conns[c].phase.WebSocket?
    ensures Landed(Push(g, c, more, io), c)
  {
    PushMoves(g, c, more, io);
    MovedLands(g, Push(g, c, more, io), c, more);
  }

  lemma {:induction false} BegunExpects(k: Conn, b: Wire.Begin, head: bytes)
    requires k.phase.Waiting? && PhaseOk(k) && Out(k) == Expected(k) && k.sw == []
    ensures PhaseOk(Begun(k, b, head)) && Out(Begun(k, b, head)) + head == Expected(Begun(k, b, head))
  {
  }

  lemma {:induction false} ChunkExpects(k: Conn, data: bytes, more: bytes)
    requires k.phase.Streaming? && Faithful(k) && !k.ended && 0 < |data| < 0x1_0000_0000
    requires more == if k.sse then data else Chunked.Chunk(data)
    ensures var k' := k.(log := k.log + [data]); PhaseOk(k') && Out(k') + more == Expected(k')
  {
    var log := k.log + [data];
    var old', new' := if k.sse then k.log else Chunked.Framed(k.log), if k.sse then log else Chunked.Framed(log);
    assert new' == old' + [more];
    ConcatSnoc(old', more);
    assert Body(k) == Concat(old') && Body(k.(log := log)) == Concat(new');
    Assoc(k.head, Concat(old'), more);
  }

  lemma {:induction false} PiecesAre(k: Conn, data: bytes, env: Env)
    ensures PieceBytes(Pieces(k, data, env)) == if k.sse then data else Chunked.Chunk(data)
  {
    var ps := Pieces(k, data, env);
    if k.sse {
      assert |ps[1..]| == 0;
    } else {
      var q := ps[1..];
      var t := q[1..];
      assert PieceBytes(t[1..]) == [];
      assert PieceBytes(t) == Chunked.CRLF + PieceBytes(t[1..]);
      assert PieceBytes(q) == data + PieceBytes(t);
    }
  }

  lemma {:induction false} DeliverChunkLands(g: State, c: ConnId, payload: bytes, env: Env)
    requires Inv(g) && c in g.conns && Faithful(g.conns[c]) && g.conns[c].inflight && !g.conns[c].isWs
    ensures Landed(DeliverChunk(g, c, payload, env), c)
  {
    var k, data := g.conns[c], Wire.DecodeChunk(payload);
    if k.streaming && data.Some? && data.value != [] {
      PiecesAre(k, data.value, env);
      ChunkExpects(k, data.value, PieceBytes(Pieces(k, data.value, env)));
      PushAllLands(Update(g, c, k.(log := k.log + [data.value])), c, Pieces(k, data.value, env));
    }
  }

  lemma {:induction false} PushAllLands(g: State, c: ConnId, parts: seq<(bytes, Io)>)
    requires Inv(g) && c in g.conns && PhaseOk(g.conns[c]) && g.conns[c].phase.Streaming? && !g.conns[c].ended
    requires Out(g.conns[c]) + PieceBytes(parts) == Expected(g.conns[c])
    ensures Landed(PushAll(g, c, parts), c)
  {
    PushAllMoves(g, c, parts);
    MovedLands(g, PushAll(g, c, parts), c, PieceBytes(parts));
  }

  lemma {:induction false} DeliverEndLands(g: State, c: ConnId, env: Env)
    requires Inv(g) && c in g.conns && Faithful(g.conns[c]) && g.conns[c].inflight && !g.conns[c].isWs
    ensures Landed(DeliverEnd(g, c, env), c)
  {
    var m := Release(g, c);
    var k := m.conns[c];
    if k.streaming {
      var more := if k.sse then [] else Chunked.TERMINATOR;
      EndExpects(k, more);
      PushLands(Update(m, c, k.(ended := true)), c, more, env.io);
    } else {
      ClosedLands(m, DeliverEnd(g, c, env), c, EndBeforeBegin);
    }
  }

  lemma {:induction false} EndExpects(k: Conn, more: bytes)
    requires k.phase.Streaming? && Faithful(k) && !k.ended && !k.inflight
    requires more == if k.sse then [] else Chunked.TERMINATOR
    ensures var k' := k.(ended := true); PhaseOk(k') && Out(k') + more == Expected(k')
  {
    var b := if k.sse then Concat(k.log) else Concat(Chunked.Framed(k.log));
    assert b + [] == b;
    Assoc(k.head, b, more);
  }

  lemma {:induction false} WsPushLands(g: State, c: ConnId, frame: bytes, io: Io)
    requires Inv(g) && c in g.conns && Faithful(g.conns[c]) && g.conns[c].phase.WebSocket?
    ensures Landed(WsPush(g, c, frame, io), c)
  {
    var k := g.conns[c];
    ConcatSnoc(k.log, frame);
    Assoc(k.head, Concat(k.log), frame);
    PushLands(Update(g, c, k.(log := k.log + [frame])), c, frame, io);
  }

  lemma {:induction false} WsCloseLands(g: State, c: ConnId, env: Env)
    requires Inv(g) && c in g.conns && Faithful(g.conns[c]) && g.conns[c].inflight && g.conns[c].isWs
    ensures Landed(WsDeliverClose(g, c, env), c)
  {
    var m := Release(g, c);
    WsPushLands(Update(m, c, m.conns[c].(ended := true)), c, Ws.Encode(Ws.CLOSE, []), env.io);
  }

  lemma {:induction false} CtrlFrameKeeps(g: State, e: Event)
    requires StreamInv(g) && e.CtrlFrame? && Conforms(g, e)
    ensures StreamInv(Step(g, e))
  {
    var c := ConnForId(g, e.id);
    if c.Some? {
      assert Holds(g, SlotOf(e.id), c.value);
      CtrlFrameLands(g, c.value, e);
      TouchKeeps(g, Step(g, e), c.value);
    }
  }

  lemma {:induction false} CtrlFrameLands(g: State, c: ConnId, e: Event)
    requires Inv(g) && e.CtrlFrame? && Conforms(g, e) && ConnForId(g, e.id) == Some(c)
    requires c in g.conns && Faithful(g.conns[c]) && g.conns[c].inflight
    ensures Landed(Step(g, e), c)
  {
    if e.kind == RESPONSE { DeliverLands(g, c, e.payload, e.env); }
    else if e.kind == RESPONSE_BEGIN { DeliverBeginLands(g, c, e.payload, e.streamHead, e.env); }
    else if e.kind == RESPONSE_CHUNK { DeliverChunkLands(g, c, e.payload, e.env); }
    else if e.kind == RESPONSE_END { DeliverEndLands(g, c, e.env); }
    else if e.kind == WS_MSG { WsMsgLands(g, c, e.payload, e.env); }
    else if e.kind == WS_CLOSE { WsCloseLands(g, c, e.env); }
  }

  lemma {:induction false} WsMsgLands(g: State, c: ConnId, payload: bytes, env: Env)
    requires Inv(g) && c in g.conns && Faithful(g.conns[c]) && g.conns[c].inflight
    ensures Landed(WsDeliver(g, c, payload, env), c)
  {
    var msg := Wire.DecodeWsMsg(payload);
    if g.conns[c].isWs && msg.Some? {
      WsPushLands(g, c, Ws.Encode(if msg.value.0 == Ws.BIN then Ws.BIN else Ws.TEXT, msg.value.1), env.io);
    }
  }

  // ---- the other events ----

  lemma {:induction false} AnswerKeeps(g: State, c: ConnId, status: nat, env: Env)
    requires StreamInv(g) && c in g.conns && g.conns[c].phase.Reading?
    ensures StreamInv(Respond(g, c, status, env))
  {
    RespondLands(g, c, status, env);
    TouchKeeps(g, Respond(g, c, status, env), c);
  }

  /** A connection entering the in-flight table, with k as its record. */
  lemma {:induction false} BindKeeps(g: State, c: ConnId, k: Conn, ct: CtrlId, kind: byte, payload: bytes)
    requires StreamInv(g) && c in g.conns && !g.conns[c].inflight && ct in g.ctrls && g.free != []
    requires !k.phase.Reading? && |k.sw| <= STREAM_MAX && k.streaming == k.headSent
    ensures var r := Bind(g, c, k, ct, kind, payload);
      && r.closed == g.closed && r.conns.Keys == g.conns.Keys
      && (forall d :: d in g.conns && d != c ==> r.conns[d] == g.conns[d])
      && r.conns[c] == k.(inflight := true, reqId := r.conns[c].reqId, ctrl := Some(ct))
  {
  }

  lemma {:induction false} BurnKeeps(g: State)
    requires StreamInv(g) && g.free != []
    ensures StreamInv(Burn(g))
  {
  }

  lemma {:induction false} ForwardKeeps(g: State, c: ConnId, target: Option<CtrlId>, payload: Option<bytes>,
                                        queued: bool, env: Env)
    requires StreamInv(g) && c in g.conns && g.conns[c].phase.Reading? && (target.Some? ==> target.value in g.ctrls)
    ensures StreamInv(Forward(g, c, target, payload, queued, env))
  {
    if target.None? { AnswerKeeps(g, c, 503, env); }
    else if payload.None? { AnswerKeeps(g, c, 500, env); }
    else if g.free == [] { AnswerKeeps(g, c, 503, env); }
    else if !queued { BurnKeeps(g); AnswerKeeps(Burn(g), c, 503, env); }
    else { BindKeeps(g, c, g.conns[c].(phase := Waiting), target.value, REQUEST, payload.value); }
  }

  lemma {:induction false} UpgradeKeeps(g: State, c: ConnId, target: Option<CtrlId>, payload: Option<bytes>,
                                        queued: bool, head: bytes, env: Env)
    requires StreamInv(g) && c in g.conns && g.conns[c].phase.Reading? && (target.Some? ==> target.value in g.ctrls)
    ensures StreamInv(Upgrade(g, c, target, payload, queued, head, env))
  {
    if target.None? || payload.None? || g.free == [] || !queued {
      ForwardKeeps(g, c, target, payload, false, env);
    } else {
      var k := Upgraded(g.conns[c], head);
      BindKeeps(g, c, k, target.value, WS_OPEN, payload.value);
      var h := Bind(g, c, k, target.value, WS_OPEN, payload.value);
      PushLands(h, c, head, env.io);
      PushKeepsOthers(h, Push(h, c, head, env.io), c);
    }
  }

  /** As TouchKeeps, when only the others are known to have been faithful. */
  lemma {:induction false} PushKeepsOthers(g: State, r: State, c: ConnId)
    requires Good(g, r, c) && c in g.conns && Landed(r, c)
    requires forall d :: d in g.conns && d != c ==> Faithful(g.conns[d])
    requires forall d :: d in g.closed ==> FaithfulEnd(g.closed[d])
    ensures StreamInv(r)
  {
    forall d | d in r.conns ensures Faithful(r.conns[d]) {
      if d != c { OthersAgree(g, r, c, d); }
    }
    forall d | d in r.closed ensures FaithfulEnd(r.closed[d]) {
      if d != c { OthersAgree(g, r, c, d); } else { assert c !in r.conns; }
    }
  }

  lemma {:induction false} FromWsKeeps(g: State, c: ConnId, action: Ws.Action, env: Env)
    requires StreamInv(g) && c in g.conns && g.conns[c].phase.WebSocket?
    ensures StreamInv(FromWs(g, c, action, env))
  {
    if action.PongBack? { WsPushLands(g, c, Ws.Encode(Ws.PONG, action.data), env.io); }
    TouchKeeps(g, FromWs(g, c, action, env), c);
  }

  lemma {:induction false} WritableKeeps(g: State, c: ConnId, io: Io)
    requires StreamInv(g) && c in g.conns && !g.conns[c].phase.Reading? && !g.conns[c].phase.Waiting?
    ensures StreamInv(OnWritable(g, c, io))
  {
    WritableMoves(g, c, io);
    assert Out(g.conns[c]) + [] == Expected(g.conns[c]);
    MovedLands(g, OnWritable(g, c, io), c, []);
    TouchKeeps(g, OnWritable(g, c, io), c);
  }

  lemma {:induction false} SweepSlotKeeps(g: State, ct: CtrlId, s: nat, env: Env)
    requires StreamInv(g) && s < SLOTS
    ensures StreamInv(SweepSlot(g, ct, s, env))
  {
    if g.pending[s].Some? {
      var c := g.pending[s].value;
      assert Holds(g, s, c);
      if g.conns[c].ctrl == Some(ct) {
        var m, r := Release(g, c), SweepSlot(g, ct, s, env);
        if g.conns[c].headSent { ClosedLands(m, r, c, CtrlGone); } else { RespondLands(m, c, 502, env); }
        TouchKeeps(g, r, c);
      }
    }
  }

  lemma {:induction false} SweepKeeps(g: State, ct: CtrlId, envs: seq<Env>, n: nat)
    requires StreamInv(g) && n <= SLOTS == |envs|
    ensures StreamInv(Sweep(g, ct, envs, n))
    decreases n
  {
    if n > 0 {
      SweepKeeps(g, ct, envs, n - 1);
      SweepOneMore(g, ct, envs, n);
    }
  }

  lemma {:induction false} SweepOneMore(g: State, ct: CtrlId, envs: seq<Env>, n: nat)
    requires Inv(g) && 0 < n <= SLOTS == |envs| && StreamInv(Sweep(g, ct, envs, n - 1))
    ensures StreamInv(Sweep(g, ct, envs, n))
  {
    SweepSlotKeeps(Sweep(g, ct, envs, n - 1), ct, n - 1, envs[n - 1]);
    SweepStep(g, ct, envs, n);
  }

  /** Every step with a conforming controller keeps every connection faithful. */
  lemma {:induction false} StepKeeps(g: State, e: Event)
    requires StreamInv(g) && Enabled(g, e) && Conforms(g, e)
    ensures StreamInv(Step(g, e))
  {
    match e
    case Accept => assert Faithful(NewConn());
    case Spawn(ct) =>
    case Answer(c, status, env) => AnswerKeeps(g, c, status, env);
    case Forwarded(c, t, payload, queued, env) => ForwardKeeps(g, c, t, payload, queued, env);
    case WsUpgrade(c, t, payload, queued, head, env) => UpgradeKeeps(g, c, t, payload, queued, head, env);
    case CtrlFrame(kind, id, payload, head, env) => CtrlFrameKeeps(g, e);
    case WsFrameIn(c, action, env) => FromWsKeeps(g, c, action, env);
    case Writable(c, io) => WritableKeeps(g, c, io);
    case Hangup(c) =>
      CloseLands(g, c, ClientGone);
      TouchKeeps(g, Close(g, c, ClientGone), c);
    case CtrlDied(ct, envs) => SweepKeeps(g, ct, envs, |envs|);
  }

  // ---- runs ----

  ghost predicate Conforming(g: State, es: seq<Event>)
    requires Inv(g) && Possible(g, es)
    decreases |es|
  {
    es == [] || (Conforms(g, es[0]) && Conforming(Step(g, es[0]), es[1..]))
  }

  lemma {:induction false} RunKeeps(g: State, es: seq<Event>)
    requires StreamInv(g) && Possible(g, es) && Conforming(g, es)
    ensures StreamInv(Run(g, es))
    decreases |es|
  {
    if es != [] {
      StepKeeps(g, es[0]);
      RunKeeps(Step(g, es[0]), es[1..]);
    }
  }

  /** The record of connection c, open or closed. */
  ghost predicate Seen(g: State, c: ConnId, k: Conn)
  {
    (c in g.conns && g.conns[c] == k) || (c in g.closed && g.closed[c].last == k)
  }

  /** Over every run from the start, whatever the sockets do and however events interleave: a client has received a
      prefix of exactly what was relayed to it, and unsent streamed bytes stay within 4 MiB; a connection that closed
      because its response finished received all of it. */
  lemma {:induction false} ClientsReceive(es: seq<Event>, c: ConnId, k: Conn)
    requires Possible(Init(), es) && Conforming(Init(), es) && Seen(Run(Init(), es), c, k)
    ensures k.sent <= Expected(k)
    ensures c in Run(Init(), es).conns ==> |Run(Init(), es).conns[c].sw| <= STREAM_MAX
    ensures var r := Run(Init(), es);
      c in r.closed && r.closed[c].why.Finished? ==>
        r.closed[c].last.sent == Expected(r.closed[c].last) && (r.closed[c].last.streaming ==> r.closed[c].last.ended)
  {
    RunKeeps(Init(), es);
  }

  /** What de-chunking (section 7.1 of RFC 9112) the n body bytes sent so far gives: the chunks whose data is among
      them, or None when they do not fit below cap. */
  ghost function Decoded(k: Conn, cap: nat): Option<bytes>
    requires |k.sent| >= |k.head|
  {
    Chunked.FirstOf(k.log, Chunked.Arrived(k.log, |k.sent| - |k.head|), cap, [])
  }

  lemma {:induction false} RecordDecodes(k: Conn, cap: nat)
    requires k.phase.Streaming? && k.streaming && !k.isWs && !k.sse && Chunked.Chunkable(k.log)
    requires k.sent <= Expected(k) && |k.sent| >= |k.head|
    ensures Chunked.Dechunk(k.sent[|k.head|..], cap, []) == Decoded(k, cap)
    ensures k.sent == Expected(k) && k.ended ==>
      Decoded(k, cap) == if |Concat(k.log)| >= cap && k.log != [] then None else Some(Concat(k.log))
  {
    var d, r := Chunked.Dechunk(k.sent[|k.head|..], cap, []), Decoded(k, cap);
    BodySent(k);
    CutDecodes(k.log, k.sent[|k.head|..], cap, d, r);
    WholeDecodes(k.log, k.sent[|k.head|..], cap, d);
  }

  lemma {:induction false} BodySent(k: Conn)
    requires k.phase.Streaming? && k.streaming && !k.isWs && !k.sse && k.sent <= Expected(k) && |k.sent| >= |k.head|
    ensures var body, all := k.sent[|k.head|..], Concat(Chunked.Framed(k.log)) + Chunked.TERMINATOR;
      body <= all && (k.sent == Expected(k) && k.ended ==> body == all)
  {
    Chunked.PrefixSplit(k.head, Body(k), k.sent);
  }

  lemma {:induction false} CutDecodes(log: seq<bytes>, body: bytes, cap: nat, d: Option<bytes>, r: Option<bytes>)
    requires Chunked.Chunkable(log) && body <= Concat(Chunked.Framed(log)) + Chunked.TERMINATOR
    requires d == Chunked.Dechunk(body, cap, []) && r == Chunked.FirstOf(log, Chunked.Arrived(log, |body|), cap, [])
    ensures d == r
  {
    Chunked.DechunkCut(log, body, cap, []);
  }

  lemma {:induction false} WholeDecodes(log: seq<bytes>, body: bytes, cap: nat, d: Option<bytes>)
    requires Chunked.Chunkable(log) && d == Chunked.Dechunk(body, cap, [])
    ensures body == Concat(Chunked.Framed(log)) + Chunked.TERMINATOR ==>
      d == if |Concat(log)| >= cap && log != [] then None else Some(Concat(log))
  {
    Chunked.ChunkedRoundTrip(log, cap);
  }

  /** Over every run: a client of a chunked stream de-chunks exactly the chunks whose data it has been sent, whole, and
      all of them when the connection finished. */
  lemma {:induction false} ChunkedClientsDecode(es: seq<Event>, c: ConnId, k: Conn, cap: nat)
    requires Possible(Init(), es) && Conforming(Init(), es) && Seen(Run(Init(), es), c, k)
    requires k.phase.Streaming? && !k.sse && |k.sent| >= |k.head|
    ensures Chunked.Dechunk(k.sent[|k.head|..], cap, []) == Decoded(k, cap)
    ensures c in Run(Init(), es).closed && Run(Init(), es).closed[c] == Gone(k, Finished) ==>
      Decoded(k, cap) == if |Concat(k.log)| >= cap && k.log != [] then None else Some(Concat(k.log))
  {
    RunKeeps(Init(), es);
    RecordDecodes(k, cap);
  }
}
