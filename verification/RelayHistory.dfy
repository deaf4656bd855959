/** What a streaming client's record says is what its controller's frames said: over every run its chunks are exactly
    the non-empty CHUNK payloads that resolved to it since BEGIN, in order, and it ends exactly when an END did. */
module RelayHistory {
  import opened Bytes
  import opened Framing
  import opened Relay
  import opened RelayRun
  import opened RelayTheorems
  import opened RelayStreams
  import Wire
  import Chunked

  /** The frame e is for connection c. */
  ghost predicate For(g: State, e: Event, c: ConnId)
    requires Shape(g)
  {
    e.CtrlFrame? && ConnForId(g, e.id) == Some(c)
  }

  /** The data a payload of this kind brings. */
  ghost function DataIn(kind: byte, payload: bytes): seq<bytes>
  {
    if kind == RESPONSE_CHUNK && Wire.DecodeChunk(payload).Some? && Wire.DecodeChunk(payload).value != []
    then [Wire.DecodeChunk(payload).value]
    else []
  }

  /** The data e brings for c, if any. */
  ghost function ChunkFor(g: State, e: Event, c: ConnId): seq<bytes>
    requires Shape(g)
  {
    if For(g, e, c) then DataIn(e.kind, e.payload) else []
  }

  ghost predicate EndFor(g: State, e: Event, c: ConnId)
    requires Shape(g)
  {
    For(g, e, c) && e.kind == RESPONSE_END
  }

  ghost function ChunksFor(g: State, es: seq<Event>, c: ConnId): seq<bytes>
    requires Inv(g) && Possible(g, es)
    decreases |es|
  {
    if es == [] then [] else ChunkFor(g, es[0], c) + ChunksFor(Step(g, es[0]), es[1..], c)
  }

  ghost predicate EndsFor(g: State, es: seq<Event>, c: ConnId)
    requires Inv(g) && Possible(g, es)
    decreases |es|
  {
    es != [] && (EndFor(g, es[0], c) || EndsFor(Step(g, es[0]), es[1..], c))
  }

  /** From record k to record k' more chunks were relayed, and the end came or not; nothing else changed that
      matters. */
  ghost predicate Told(k: Conn, k': Conn, more: seq<bytes>, end: bool)
  {
    && k'.log == k.log + more && k'.ended == (k.ended || end)
    && k'.head == k.head && k'.sse == k.sse && k'.phase == k.phase && k'.streaming == k.streaming && k'.isWs == k.isWs
    && k'.reqId == k.reqId
  }

  ghost predicate Live(g: State, c: ConnId) { c in g.conns && g.conns[c].phase.Streaming? }

  lemma {:induction false} ToldNothing(k: Conn, k': Conn)
    requires SameBut(k', k)
    ensures Told(k, k', [], false)
  {
    assert k.log + [] == k.log;
  }

  ghost predicate SameFlight(g: State, r: State, c: ConnId)
    requires c in g.conns && c in r.conns
  {
    r.conns[c].inflight == g.conns[c].inflight
  }

  /** One step as connection c sees it: still open, and in flight as before unless it ended, or closed by it. */
  ghost predicate ToldBy(g: State, r: State, c: ConnId, more: seq<bytes>, end: bool)
    requires c in g.conns
  {
    && (c in r.conns ==> Told(g.conns[c], r.conns[c], more, end) && (end || SameFlight(g, r, c)))
    && (c !in r.conns ==> c in r.closed && Told(g.conns[c], r.closed[c].last, more, end))
  }

  lemma {:induction false} MovedTells(g: State, h: State, r: State, c: ConnId, data: bytes, more: seq<bytes>, end: bool)
    requires c in g.conns && c in h.conns && Told(g.conns[c], h.conns[c], more, end) && Moved(h, r, c, data)
    requires end || SameFlight(g, h, c)
    ensures ToldBy(g, r, c, more, end)
  {
  }

  lemma {:induction false} ClosedTells(g: State, c: ConnId, why: Why)
    requires Inv(g) && c in g.conns
    ensures ToldBy(g, Close(g, c, why), c, [], false)
  {
    ToldNothing(g.conns[c], g.conns[c].(inflight := false));
  }

  lemma {:induction false} ChunkTells(g: State, c: ConnId, payload: bytes, env: Env)
    requires Inv(g) && Live(g, c) && Faithful(g.conns[c]) && g.conns[c].inflight
    ensures var d := Wire.DecodeChunk(payload);
      ToldBy(g, DeliverChunk(g, c, payload, env), c, if d.Some? && d.value != [] then [d.value] else [], false)
  {
    var k, d := g.conns[c], Wire.DecodeChunk(payload);
    if d.Some? && d.value != [] {
      var h := Update(g, c, k.(log := k.log + [d.value]));
      PushAllMoves(h, c, Pieces(k, d.value, env));
      MovedTells(g, h, DeliverChunk(g, c, payload, env), c, PieceBytes(Pieces(k, d.value, env)), [d.value], false);
    } else {
      ToldNothing(k, k);
    }
  }

  lemma {:induction false} EndTells(g: State, c: ConnId, env: Env)
    requires Inv(g) && Live(g, c) && Faithful(g.conns[c]) && g.conns[c].inflight
    ensures ToldBy(g, DeliverEnd(g, c, env), c, [], true)
  {
    var m := Release(g, c);
    var k := m.conns[c];
    var h := Update(m, c, k.(ended := true));
    var more := if k.sse then [] else Chunked.TERMINATOR;
    assert k.log + [] == k.log;
    PushMoves(h, c, more, env.io);
    MovedTells(g, h, DeliverEnd(g, c, env), c, more, [], true);
  }

  /** A frame for c runs the handler of its kind on c. */
  lemma {:induction false} StepIsHandle(g: State, e: Event, c: ConnId)
    requires Inv(g) && For(g, e, c) && c in g.conns && g.conns[c].inflight
    ensures Step(g, e) == Handle(g, c, e.kind, e.payload, e.streamHead, e.env)
  {
  }

  lemma {:induction false} HandleTells(g: State, kind: byte, c: ConnId, payload: bytes, head: Option<bytes>, env: Env)
    requires Inv(g) && Live(g, c) && Faithful(g.conns[c]) && g.conns[c].inflight
    requires kind !in {RESPONSE, RESPONSE_BEGIN, WS_CLOSE}
    ensures ToldBy(g, Handle(g, c, kind, payload, head, env), c, DataIn(kind, payload), kind == RESPONSE_END)
  {
    if kind == RESPONSE_CHUNK {
      ChunkTells(g, c, payload, env);
    } else if kind == RESPONSE_END {
      EndTells(g, c, env);
    } else {
      ToldNothing(g.conns[c], g.conns[c]);
    }
  }

  lemma {:induction false} FrameTells(g: State, e: Event, c: ConnId)
    requires StreamInv(g) && Live(g, c) && Conforms(g, e) && For(g, e, c)
    ensures ToldBy(g, Step(g, e), c, ChunkFor(g, e, c), EndFor(g, e, c))
  {
    ResolvedInFlight(g, e.id);
    StepIsHandle(g, e, c);
    HandleTells(g, e.kind, c, e.payload, e.streamHead, e.env);
  }

  lemma {:induction false} DeathTells(g: State, ct: CtrlId, envs: seq<Env>, c: ConnId)
    requires Inv(g) && c in g.conns && g.conns[c].streaming && |envs| == SLOTS
    ensures ToldBy(g, Died(g, ct, envs), c, [], false)
  {
    ControllerDeath(g, ct, envs);
    ToldNothing(g.conns[c], g.conns[c]);
    ToldNothing(g.conns[c], g.conns[c].(inflight := false));
  }

  // ---- events on behalf of other connections ----

  ghost function Whose(g: State, e: Event): Option<ConnId>
    requires Shape(g)
  {
    match e
    case Answer(c, _, _) => Some(c)
    case Forwarded(c, _, _, _, _) => Some(c)
    case WsUpgrade(c, _, _, _, _, _) => Some(c)
    case CtrlFrame(_, id, _, _, _) => ConnForId(g, id)
    case WsFrameIn(c, _, _) => Some(c)
    case Writable(c, _) => Some(c)
    case Hangup(c) => Some(c)
    case _ => None
  }

  lemma {:induction false} AgreeTrans(g: State, h: State, r: State, c: ConnId)
    requires Agree(g, h, c) && Agree(h, r, c)
    ensures Agree(g, r, c)
  {
  }

  lemma {:induction false} ForwardAgrees(g: State, d: ConnId, target: Option<CtrlId>, payload: Option<bytes>,
                                         queued: bool, env: Env, c: ConnId)
    requires Inv(g) && d in g.conns && g.conns[d].phase.Reading? && (target.Some? ==> target.value in g.ctrls) && c != d
    ensures Agree(g, Forward(g, d, target, payload, queued, env), c)
  {
    var r := Forward(g, d, target, payload, queued, env);
    if target.None? || payload.None? || g.free == [] {
      OthersAgree(g, r, d, c);
    } else if !queued {
      OthersAgree(Burn(g), r, d, c);
    }
  }

  lemma {:induction false} UpgradeAgrees(g: State, d: ConnId, target: Option<CtrlId>, payload: Option<bytes>,
                                         queued: bool, head: bytes, env: Env, c: ConnId)
    requires Inv(g) && d in g.conns && g.conns[d].phase.Reading? && (target.Some? ==> target.value in g.ctrls) && c != d
    ensures Agree(g, Upgrade(g, d, target, payload, queued, head, env), c)
  {
    var r := Upgrade(g, d, target, payload, queued, head, env);
    if target.None? || payload.None? || g.free == [] || !queued {
      ForwardAgrees(g, d, target, payload, false, env, c);
    } else {
      var h := Bind(g, d, Upgraded(g.conns[d], head), target.value, WS_OPEN, payload.value);
      OthersAgree(h, r, d, c);
      AgreeTrans(g, h, r, c);
    }
  }

  lemma {:induction false} StepAgrees(g: State, e: Event, c: ConnId)
    requires Inv(g) && Enabled(g, e) && !e.CtrlDied? && Whose(g, e) != Some(c) && c < g.next
    ensures Agree(g, Step(g, e), c)
  {
    match e
    case Accept =>
    case Spawn(_) =>
    case Forwarded(d, t, payload, queued, env) => ForwardAgrees(g, d, t, payload, queued, env, c);
    case WsUpgrade(d, t, payload, queued, head, env) => UpgradeAgrees(g, d, t, payload, queued, head, env, c);
    case CtrlFrame(_, id, _, _, _) =>
      if ConnForId(g, id).Some? { OthersAgree(g, Step(g, e), ConnForId(g, id).value, c); }
    case Answer(d, _, _) => OthersAgree(g, Step(g, e), d, c);
    case WsFrameIn(d, _, _) => OthersAgree(g, Step(g, e), d, c);
    case Writable(d, _) => OthersAgree(g, Step(g, e), d, c);
    case Hangup(d) => OthersAgree(g, Step(g, e), d, c);
  }

  /** Connection c is closed and x is its record. */
  ghost predicate IsClosed(g: State, c: ConnId, x: Gone) { c in g.closed && c !in g.conns && g.closed[c] == x }

  /** A closed connection's record is final. */
  lemma {:induction false} SweepClosed(g: State, ct: CtrlId, envs: seq<Env>, n: nat, c: ConnId, x: Gone)
    requires Inv(g) && n <= SLOTS == |envs| && IsClosed(g, c, x)
    ensures IsClosed(Sweep(g, ct, envs, n), c, x)
    decreases n
  {
    if n > 0 {
      SweepClosed(g, ct, envs, n - 1, c, x);
      OneMoreClosed(g, ct, envs, n, c, x);
    }
  }

  lemma {:induction false} OneMoreClosed(g: State, ct: CtrlId, envs: seq<Env>, n: nat, c: ConnId, x: Gone)
    requires Inv(g) && 0 < n <= SLOTS == |envs| && IsClosed(Sweep(g, ct, envs, n - 1), c, x)
    ensures IsClosed(Sweep(g, ct, envs, n), c, x)
  {
    SlotClosed(Sweep(g, ct, envs, n - 1), ct, n - 1, envs[n - 1], c, x);
    SweepStep(g, ct, envs, n);
  }

  lemma {:induction false} SlotClosed(h: State, ct: CtrlId, s: nat, env: Env, c: ConnId, x: Gone)
    requires Inv(h) && s < SLOTS && IsClosed(h, c, x)
    ensures IsClosed(SweepSlot(h, ct, s, env), c, x)
  {
    if h.pending[s].Some? {
      var d := h.pending[s].value;
      assert Holds(h, s, d);
      OthersAgree(h, SweepSlot(h, ct, s, env), d, c);
    }
  }

  lemma {:induction false} ClosedStays(g: State, e: Event, c: ConnId, x: Gone)
    requires Inv(g) && Enabled(g, e) && IsClosed(g, c, x)
    ensures IsClosed(Step(g, e), c, x)
  {
    if e.CtrlDied? {
      SweepClosed(g, e.ct, e.envs, |e.envs|, c, x);
    } else {
      if e.CtrlFrame? && ConnForId(g, e.id).Some? { ResolvedInFlight(g, e.id); }
      StepAgrees(g, e, c);
    }
  }

  lemma {:induction false} NotForClosed(g: State, e: Event, c: ConnId)
    requires Inv(g) && c !in g.conns
    ensures !For(g, e, c)
  {
    if e.CtrlFrame? && ConnForId(g, e.id).Some? { ResolvedInFlight(g, e.id); }
  }

  lemma {:induction false} RunClosed(g: State, es: seq<Event>, c: ConnId, x: Gone)
    requires Inv(g) && Possible(g, es) && IsClosed(g, c, x)
    ensures IsClosed(Run(g, es), c, x) && ChunksFor(g, es, c) == [] && !EndsFor(g, es, c)
    decreases |es|
  {
    if es != [] {
      ClosedStays(g, es[0], c, x);
      NotForClosed(g, es[0], c);
      RunClosed(Step(g, es[0]), es[1..], c, x);
    }
  }

  // ---- the whole run ----

  /** One step, as a streaming connection sees it. */
  lemma {:induction false} StepTells(g: State, e: Event, c: ConnId)
    requires StreamInv(g) && Enabled(g, e) && Conforms(g, e) && Live(g, c)
    ensures ToldBy(g, Step(g, e), c, ChunkFor(g, e, c), EndFor(g, e, c))
  {
    if e.CtrlDied? {
      DeathTells(g, e.ct, e.envs, c);
    } else if Whose(g, e) != Some(c) {
      StepAgrees(g, e, c);
      ToldNothing(g.conns[c], g.conns[c]);
    } else if e.CtrlFrame? {
      FrameTells(g, e, c);
    } else {
      OwnTells(g, e, c);
    }
  }

  lemma {:induction false} OwnTells(g: State, e: Event, c: ConnId)
    requires StreamInv(g) && Enabled(g, e) && Live(g, c) && Whose(g, e) == Some(c) && !e.CtrlFrame?
    ensures ToldBy(g, Step(g, e), c, [], false)
  {
    if e.Writable? {
      WritableMoves(g, c, e.io);
      ToldNothing(g.conns[c], g.conns[c]);
      MovedTells(g, g, Step(g, e), c, [], [], false);
    } else {
      ClosedTells(g, c, ClientGone);
    }
  }

  lemma {:induction false} ToldTrans(k: Conn, k1: Conn, k2: Conn, a: seq<bytes>, b: seq<bytes>, x: bool, y: bool)
    requires Told(k, k1, a, x) && Told(k1, k2, b, y)
    ensures Told(k, k2, a + b, x || y)
  {
    Assoc(k.log, a, b);
  }

  /** Over every run: from the moment a connection streams, its record's chunks are exactly the non-empty chunks
      that its controller's frames brought for it, in order, and it ended exactly if an END came. */
  lemma {:induction false} RunTells(g: State, es: seq<Event>, c: ConnId)
    requires StreamInv(g) && Possible(g, es) && Conforming(g, es) && Live(g, c)
    ensures ToldBy(g, Run(g, es), c, ChunksFor(g, es, c), EndsFor(g, es, c))
    decreases |es|
  {
    if es == [] {
      ToldNothing(g.conns[c], g.conns[c]);
    } else {
      var e, h, rest := es[0], Step(g, es[0]), es[1..];
      StepTells(g, e, c);
      if c in h.conns {
        StepKeeps(g, e);
        RunTells(h, rest, c);
        Joined(g, h, Run(h, rest), c, ChunkFor(g, e, c), EndFor(g, e, c), ChunksFor(h, rest, c), EndsFor(h, rest, c));
      } else {
        RunClosed(h, rest, c, h.closed[c]);
        Final(g, h, Run(h, rest), c, ChunkFor(g, e, c), EndFor(g, e, c));
      }
    }
  }

  lemma {:induction false} Final(g: State, h: State, r: State, c: ConnId, a: seq<bytes>, x: bool)
    requires c in g.conns && c !in h.conns && ToldBy(g, h, c, a, x)
    requires c in r.closed && c !in r.conns && r.closed[c] == h.closed[c]
    ensures ToldBy(g, r, c, a + [], x || false)
  {
    assert a + [] == a;
  }

  lemma {:induction false} Joined(g: State, h: State, r: State, c: ConnId, a: seq<bytes>, x: bool, b: seq<bytes>,
                                  y: bool)
    requires c in g.conns && c in h.conns && ToldBy(g, h, c, a, x) && ToldBy(h, r, c, b, y)
    ensures ToldBy(g, r, c, a + b, x || y)
  {
    if c in r.conns {
      ToldTrans(g.conns[c], h.conns[c], r.conns[c], a, b, x, y);
    } else {
      ToldTrans(g.conns[c], h.conns[c], r.closed[c].last, a, b, x, y);
    }
  }

  // ---- a stream from BEGIN on ----

  /** The record of a connection whose BEGIN has just been relayed. */
  ghost predicate JustBegun(k: Conn, b: Wire.Begin, head: bytes)
  {
    && k.phase.Streaming? && k.streaming && !k.isWs && !k.ended && k.log == [] && k.head == head
    && k.sse == (b.flags % 2 == 1)
  }

  lemma {:induction false} BeginTells(g: State, e: Event, c: ConnId)
    requires StreamInv(g) && For(g, e, c) && e.kind == RESPONSE_BEGIN && Conforms(g, e)
    requires Wire.DecodeBegin(e.payload).Some? && e.streamHead.Some?
    ensures var r := Step(g, e);
      c in r.conns ==> JustBegun(r.conns[c], Wire.DecodeBegin(e.payload).value, e.streamHead.value)
  {
    ResolvedInFlight(g, e.id);
    StepIsHandle(g, e, c);
    var b, head := Wire.DecodeBegin(e.payload).value, e.streamHead.value;
    PushMoves(Update(g, c, Begun(g.conns[c], b, head)), c, head, e.env.io);
  }

  /** The bytes of a stream: its head, its chunks as its mode frames them, and the terminator of a chunked body. */
  ghost function StreamBytes(head: bytes, sse: bool, chunks: seq<bytes>, end: bool): bytes
  {
    head + if sse then Concat(chunks) else Concat(Chunked.Framed(chunks)) + if end then Chunked.TERMINATOR else []
  }

  lemma {:induction false} ExpectedIs(k0: Conn, k: Conn, b: Wire.Begin, head: bytes, chunks: seq<bytes>, end: bool)
    requires JustBegun(k0, b, head) && Told(k0, k, chunks, end)
    ensures Expected(k) == StreamBytes(head, b.flags % 2 == 1, chunks, end) && k.log == chunks && k.ended == end
  {
    assert [] + chunks == chunks;
  }

  /** End to end: after a BEGIN, whatever events follow, the client has been sent a prefix of the head and the framed
      non-empty chunks of its controller's frames; when the connection closes because it finished, an END came and the
      client has been sent all of it. */
  lemma {:induction false} StreamReaches(g: State, e: Event, es: seq<Event>, c: ConnId, k: Conn)
    requires StreamInv(g) && Possible(g, [e] + es) && Conforming(g, [e] + es)
    requires For(g, e, c) && e.kind == RESPONSE_BEGIN && Wire.DecodeBegin(e.payload).Some? && e.streamHead.Some?
    requires c in Step(g, e).conns && Possible(Step(g, e), es) && Seen(Run(Step(g, e), es), c, k)
    ensures var h, b := Step(g, e), Wire.DecodeBegin(e.payload).value;
      var all := StreamBytes(e.streamHead.value, b.flags % 2 == 1, ChunksFor(h, es, c), EndsFor(h, es, c));
      && k.sent <= all && k.log == ChunksFor(h, es, c)
      && (c in Run(h, es).closed && Run(h, es).closed[c] == Gone(k, Finished) ==> EndsFor(h, es, c) && k.sent == all)
  {
    var h, b := Step(g, e), Wire.DecodeBegin(e.payload).value;
    assert ([e] + es)[0] == e && ([e] + es)[1..] == es;
    StepKeeps(g, e);
    BeginTells(g, e, c);
    RunTells(h, es, c);
    RunKeeps(h, es);
    ExpectedIs(h.conns[c], k, b, e.streamHead.value, ChunksFor(h, es, c), EndsFor(h, es, c));
  }

  /** And in chunked mode the client's de-chunking loop then gives back exactly those chunks, concatenated. */
  lemma {:induction false} StreamDecodes(g: State, e: Event, es: seq<Event>, c: ConnId, k: Conn, cap: nat)
    requires StreamInv(g) && Possible(g, [e] + es) && Conforming(g, [e] + es)
    requires For(g, e, c) && e.kind == RESPONSE_BEGIN && Wire.DecodeBegin(e.payload).Some? && e.streamHead.Some?
    requires Wire.DecodeBegin(e.payload).value.flags % 2 == 0
    requires c in Step(g, e).conns && Possible(Step(g, e), es)
    requires c in Run(Step(g, e), es).closed && Run(Step(g, e), es).closed[c] == Gone(k, Finished)
    requires |Concat(ChunksFor(Step(g, e), es, c))| < cap
    ensures |k.sent| >= |e.streamHead.value|
    ensures Chunked.Dechunk(k.sent[|e.streamHead.value|..], cap, []) == Some(Concat(ChunksFor(Step(g, e), es, c)))
  {
    var h, head := Step(g, e), e.streamHead.value;
    StreamReaches(g, e, es, c, k);
    assert ([e] + es)[0] == e && ([e] + es)[1..] == es;
    StepKeeps(g, e);
    RunKeeps(h, es);
    BeginTells(g, e, c);
    RunTells(h, es, c);
    assert Chunked.Chunkable(k.log);
    var body := Concat(Chunked.Framed(k.log)) + Chunked.TERMINATOR;
    assert k.sent == head + body && k.sent[|head|..] == body;
    Chunked.ChunkedRoundTrip(k.log, cap);
  }
}
