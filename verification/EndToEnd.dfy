/** From a controller's handler to its client: when the frames under one request id are those the SDK sends for an
    orderly handler, the relay's run conforms, and the client's body is the handler's data. */
module EndToEnd {
  import opened Bytes
  import opened Framing
  import opened Relay
  import opened RelayRun
  import opened RelayTheorems
  import opened RelayStreams
  import opened RelayHistory
  import Wire
  import Chunked
  import SdkStream

  // ---- frames under one id ----

  predicate IsUnder(e: Event, id: nat) { e.CtrlFrame? && e.id == id }

  /** The frames that arrive under an id, in order. */
  function Under(es: seq<Event>, id: nat): seq<Frame>
  {
    if es == [] then []
    else if IsUnder(es[0], id) then [Frame(VERSION, es[0].kind, id, es[0].payload)] + Under(es[1..], id)
    else Under(es[1..], id)
  }

  /** Frames under all other ids follow the grammar. */
  ghost predicate OthersConform(g: State, es: seq<Event>, id: nat)
    requires Inv(g) && Possible(g, es)
    decreases |es|
  {
    es == [] || ((!IsUnder(es[0], id) ==> Conforms(g, es[0])) && OthersConform(Step(g, es[0]), es[1..], id))
  }

  /** CHUNK* END. */
  ghost predicate Tail(fs: seq<Frame>, id: nat)
  {
    fs != [] && fs[|fs| - 1].kind == RESPONSE_END && SdkStream.Chunks(fs[..|fs| - 1], id)
  }

  lemma {:induction false} TailOfBegin(fs: seq<Frame>, id: nat)
    requires SdkStream.WellFormed(fs, id) && fs[0].kind == RESPONSE_BEGIN
    ensures Tail(fs[1..], id) && SdkStream.DataOf(fs) == SdkStream.DataOf(fs[1..])
  {
    assert fs[1..][..|fs| - 2] == fs[1..|fs| - 1];
  }

  lemma {:induction false} TailHead(fs: seq<Frame>, id: nat)
    requires Tail(fs, id) && |fs| > 1
    ensures SdkStream.IsChunk(fs[0], id)
  {
    assert fs[..|fs| - 1][0] == fs[0];
  }

  lemma {:induction false} TailOfChunk(fs: seq<Frame>, id: nat)
    requires Tail(fs, id) && fs[0].kind != RESPONSE_END
    ensures SdkStream.IsChunk(fs[0], id) && Tail(fs[1..], id)
    ensures SdkStream.DataOf(fs) == Wire.DecodeChunk(fs[0].payload).value + SdkStream.DataOf(fs[1..])
  {
    TailHead(fs, id);
    assert fs[1..][..|fs| - 2] == fs[..|fs| - 1][1..];
  }

  lemma {:induction false} TailIsEnd(fs: seq<Frame>, id: nat)
    requires Tail(fs, id)
    ensures fs[0].kind == RESPONSE_END ==> |fs| == 1 && SdkStream.DataOf(fs) == []
  {
    if |fs| > 1 { TailHead(fs, id); } else { assert SdkStream.DataOf(fs[1..]) == []; }
  }

  // ---- the story of one request ----

  /** A record of a stream holds a prefix of the data, and all of it once it ended. */
  ghost predicate Holding(k: Conn, total: bytes)
  {
    k.phase.Streaming? ==> Concat(k.log) <= total && (k.ended ==> Concat(k.log) == total)
  }

  /** The request is open: what is still to come completes the grammar and the data. */
  ghost predicate Open(k: Conn, id: nat, fs: seq<Frame>, total: bytes)
  {
    && k.inflight && k.reqId == id
    && (|| (k.phase.Waiting? && SdkStream.WellFormed(fs, id) && SdkStream.DataOf(fs) == total)
        || (k.phase.Streaming? && !k.ended && Tail(fs, id) && Concat(k.log) + SdkStream.DataOf(fs) == total))
  }

  /** The request is over and its response is draining. */
  ghost predicate Settled(k: Conn, total: bytes)
  {
    !k.inflight && (k.phase.Writing? || (k.phase.Streaming? && k.ended)) && Holding(k, total)
  }

  /** The request was issued under the slot's generation `base`. */
  datatype Request = Request(c: ConnId, slot: nat, base: nat)

  function Id(q: Request): nat { IdFor(q.base, q.slot) }

  ghost predicate Story(g: State, q: Request, fs: seq<Frame>, total: bytes)
  {
    && Shape(g) && q.slot < SLOTS && q.base <= g.gen[q.slot]
    && if q.c in g.conns
       then Open(g.conns[q.c], Id(q), fs, total) || (q.base < g.gen[q.slot] && Settled(g.conns[q.c], total))
       else q.base < g.gen[q.slot] && q.c in g.closed && Holding(g.closed[q.c].last, total)
  }

  /** The connection is in flight under the request's id. */
  ghost predicate Asked(g: State, q: Request)
  {
    && Inv(g) && q.slot < SLOTS && q.base <= g.gen[q.slot]
    && q.c in g.conns && g.conns[q.c].inflight && g.conns[q.c].reqId == Id(q)
  }

  /** A connection that is no longer in flight has freed its slot. */
  lemma {:induction false} SlotMoved(g: State, r: State, q: Request)
    requires Onward(g, r) && Asked(g, q) && (q.c in r.conns ==> !r.conns[q.c].inflight)
    ensures g.gen[q.slot] < r.gen[q.slot]
  {
    IdParts(q.base, q.slot);
    assert g.pending[q.slot] == Some(q.c);
    HolderInFlight(r, q.slot, q.c);
  }

  lemma {:induction false} HolderInFlight(r: State, s: nat, c: ConnId)
    requires Inv(r) && s < SLOTS
    ensures r.pending[s] == Some(c) ==> c in r.conns && r.conns[c].inflight
  {
    if r.pending[s] == Some(c) { assert Holds(r, s, c); }
  }

  /** While the request is open its id resolves to its connection, and only its id does. */
  lemma {:induction false} OwnId(g: State, q: Request, id: nat)
    requires Asked(g, q)
    ensures ConnForId(g, id) == Some(q.c) <==> id == Id(q)
  {
    IdParts(q.base, q.slot);
    assert g.pending[q.slot] == Some(q.c) && Holds(g, q.slot, q.c);
    IdParts(g.gen[q.slot], q.slot);
    if ConnForId(g, id) == Some(q.c) {
      assert Holds(g, SlotOf(id), q.c);
      assert id == id / SLOTS * SLOTS + SlotOf(id);
    }
  }

  /** Once it is over its id resolves to nothing. */
  lemma {:induction false} OldId(g: State, q: Request)
    requires Inv(g) && q.slot < SLOTS && q.base < g.gen[q.slot] < q.base + GENS
    ensures ConnForId(g, Id(q)) == None
  {
    GenerationWraps(q.base, g.gen[q.slot] - q.base);
    IdResolves(g, q.base, q.slot);
  }

  // ---- the request's own frames ----

  ghost predicate NotStreaming(r: State, c: ConnId)
  {
    && (c in r.conns ==> r.conns[c].phase.Writing?)
    && (c !in r.conns ==> c in r.closed && !r.closed[c].last.phase.Streaming?)
  }

  lemma {:induction false} RespondEnds(g: State, c: ConnId, status: nat, env: Env)
    requires Inv(g) && c in g.conns && g.conns[c].phase.Waiting?
    ensures NotStreaming(Respond(g, c, status, env), c)
  {
    if env.text.Some? { RespondMoves(g, c, status, env); }
  }

  /** An atomic answer, or a BEGIN that could not be relayed, settles the request. */
  lemma {:induction false} AtomicStory(g: State, r: State, q: Request, fs: seq<Frame>, total: bytes)
    requires StreamInv(r) && Onward(g, r) && Asked(g, q) && NotStreaming(r, q.c)
    ensures Story(r, q, fs, total)
  {
    SlotMoved(g, r, q);
  }

  ghost predicate BegunAs(g: State, r: State, c: ConnId, k: Conn)
  {
    && (c in r.conns ==> SameBut(r.conns[c], k) && r.conns[c].inflight)
    && (c !in r.conns ==> c in r.closed && SameBut(r.closed[c].last, k))
  }

  lemma {:induction false} BeginOpens(g: State, c: ConnId, payload: bytes, head: bytes, env: Env)
    requires Inv(g) && c in g.conns && g.conns[c].inflight && Wire.DecodeBegin(payload).Some?
    ensures BegunAs(g, DeliverBegin(g, c, payload, Some(head), env), c,
                    Begun(g.conns[c], Wire.DecodeBegin(payload).value, head))
  {
    PushMoves(Update(g, c, Begun(g.conns[c], Wire.DecodeBegin(payload).value, head)), c, head, env.io);
  }

  lemma {:induction false} BegunStory(g: State, r: State, q: Request, k: Conn, fs: seq<Frame>, total: bytes)
    requires Onward(g, r) && Asked(g, q) && BegunAs(g, r, q.c, k)
    requires k.phase.Streaming? && !k.ended && k.log == [] && k.reqId == Id(q)
    requires Tail(fs, Id(q)) && SdkStream.DataOf(fs) == total
    ensures Story(r, q, fs, total)
  {
    if q.c in r.conns {
      BegunRecord(r.conns[q.c], k, Id(q), fs, total);
    } else {
      BegunRecord(r.closed[q.c].last, k, Id(q), fs, total);
      SlotMoved(g, r, q);
    }
  }

  lemma {:induction false} BegunRecord(x: Conn, k: Conn, id: nat, fs: seq<Frame>, total: bytes)
    requires SameBut(x, k) && k.phase.Streaming? && !k.ended && k.log == [] && k.reqId == id
    requires Tail(fs, id) && SdkStream.DataOf(fs) == total
    ensures Holding(x, total) && (x.inflight ==> Open(x, id, fs, total))
  {
    assert [] + total == total;
  }

  lemma {:induction false} DeliverStory(g: State, q: Request, payload: bytes, env: Env, fs: seq<Frame>, total: bytes)
    requires StreamInv(g) && Asked(g, q) && g.conns[q.c].phase.Waiting? && StreamInv(Deliver(g, q.c, payload, env))
    ensures Story(Deliver(g, q.c, payload, env), q, fs, total)
  {
    var resp := Wire.DecodeResponseEx(payload);
    RespondEnds(Release(g, q.c), q.c, if resp.None? then 502 else resp.value.0.status, env);
    AtomicStory(g, Deliver(g, q.c, payload, env), q, fs, total);
  }

  lemma {:induction false} BeginStory(g: State, q: Request, payload: bytes, head: Option<bytes>, env: Env,
                                      fs: seq<Frame>, total: bytes)
    requires StreamInv(g) && Asked(g, q) && g.conns[q.c].phase.Waiting? && Faithful(g.conns[q.c])
    requires StreamInv(DeliverBegin(g, q.c, payload, head, env))
    requires Tail(fs, Id(q)) && SdkStream.DataOf(fs) == total
    ensures Story(DeliverBegin(g, q.c, payload, head, env), q, fs, total)
  {
    var r := DeliverBegin(g, q.c, payload, head, env);
    if Wire.DecodeBegin(payload).None? {
      RespondEnds(Release(g, q.c), q.c, 502, env);
      AtomicStory(g, r, q, fs, total);
    } else if head.None? {
      AtomicStory(g, r, q, fs, total);
    } else {
      BeginOpens(g, q.c, payload, head.value, env);
      BegunStory(g, r, q, Begun(g.conns[q.c], Wire.DecodeBegin(payload).value, head.value), fs, total);
    }
  }

  lemma {:induction false} WaitingStory(g: State, e: Event, q: Request, fs: seq<Frame>, total: bytes)
    requires StreamInv(g) && Enabled(g, e) && StreamInv(Step(g, e)) && Asked(g, q)
    requires For(g, e, q.c) && g.conns[q.c].phase.Waiting?
    requires SdkStream.WellFormed(fs, Id(q)) && SdkStream.DataOf(fs) == total
    requires e.kind == fs[0].kind && e.payload == fs[0].payload
    ensures Story(Step(g, e), q, fs[1..], total)
  {
    StepIsHandle(g, e, q.c);
    if e.kind == RESPONSE {
      DeliverStory(g, q, e.payload, e.env, fs[1..], total);
    } else {
      TailOfBegin(fs, Id(q));
      BeginStory(g, q, e.payload, e.streamHead, e.env, fs[1..], total);
    }
  }

  /** What a step told a streaming connection, as its request's story. */
  lemma {:induction false} ToldStory(g: State, r: State, q: Request, more: seq<bytes>, fs: seq<Frame>, total: bytes)
    requires Onward(g, r) && Asked(g, q) && ToldBy(g, r, q.c, more, false)
    requires g.conns[q.c].phase.Streaming? && !g.conns[q.c].ended && Tail(fs, Id(q))
    requires Concat(g.conns[q.c].log + more) + SdkStream.DataOf(fs) == total
    ensures Story(r, q, fs, total)
  {
    if q.c !in r.conns { SlotMoved(g, r, q); }
  }

  lemma {:induction false} EndStory(g: State, r: State, q: Request, fs: seq<Frame>, total: bytes)
    requires StreamInv(r) && Onward(g, r) && Asked(g, q) && ToldBy(g, r, q.c, [], true)
    requires g.conns[q.c].phase.Streaming? && Concat(g.conns[q.c].log) == total
    ensures Story(r, q, fs, total)
  {
    assert g.conns[q.c].log + [] == g.conns[q.c].log;
    SlotMoved(g, r, q);
  }

  lemma {:induction false} StreamingStory(g: State, e: Event, q: Request, fs: seq<Frame>, total: bytes)
    requires StreamInv(g) && Enabled(g, e) && StreamInv(Step(g, e)) && Conforms(g, e) && Asked(g, q)
    requires For(g, e, q.c) && Live(g, q.c) && !g.conns[q.c].ended && Tail(fs, Id(q))
    requires Concat(g.conns[q.c].log) + SdkStream.DataOf(fs) == total
    requires e.kind == fs[0].kind && e.payload == fs[0].payload
    ensures Story(Step(g, e), q, fs[1..], total)
  {
    var k, r, rest := g.conns[q.c], Step(g, e), fs[1..];
    FrameTells(g, e, q.c);
    if e.kind == RESPONSE_END {
      TailIsEnd(fs, Id(q));
      assert Concat(k.log) + [] == Concat(k.log);
      EndStory(g, r, q, rest, total);
    } else {
      TailOfChunk(fs, Id(q));
      var d := Wire.DecodeChunk(e.payload).value;
      ConcatSnoc(k.log, d);
      Assoc(Concat(k.log), d, SdkStream.DataOf(rest));
      ToldStory(g, r, q, [d], rest, total);
    }
  }

  // ---- everything else ----

  /** An event that is not the waiting request's leaves it waiting or settles it without a stream. */
  lemma {:induction false} WaitingAside(g: State, e: Event, c: ConnId)
    requires Inv(g) && Enabled(g, e) && c in g.conns && Faithful(g.conns[c]) && g.conns[c].phase.Waiting?
    requires Whose(g, e) == Some(c) ==> !e.CtrlFrame?
    ensures Agree(g, Step(g, e), c) || NotStreaming(Step(g, e), c)
  {
    if e.CtrlDied? {
      DeathAside(g, e.ct, e.envs, c);
    } else if Whose(g, e) != Some(c) {
      StepAgrees(g, e, c);
    } else {
      HangupAside(g, c);
    }
  }

  lemma {:induction false} HangupAside(g: State, c: ConnId)
    requires Inv(g) && c in g.conns && g.conns[c].phase.Waiting?
    ensures NotStreaming(Close(g, c, ClientGone), c)
  {
  }

  lemma {:induction false} DeathAside(g: State, ct: CtrlId, envs: seq<Env>, c: ConnId)
    requires Inv(g) && |envs| == SLOTS && c in g.conns && Faithful(g.conns[c]) && g.conns[c].phase.Waiting?
    ensures Agree(g, Died(g, ct, envs), c) || NotStreaming(Died(g, ct, envs), c)
  {
    ControllerDeath(g, ct, envs);
    DeathLeaves(g, Died(g, ct, envs), c, envs[SlotOf(g.conns[c].reqId)]);
  }

  lemma {:induction false} DeathLeaves(g: State, r: State, c: ConnId, env: Env)
    requires Inv(g) && Inv(r) && c in g.conns && Faithful(g.conns[c]) && g.conns[c].phase.Waiting?
    requires Fate(g.conns[c], r, c, env) || (c in r.conns && r.conns[c] == g.conns[c])
    ensures Agree(g, r, c) || NotStreaming(r, c)
  {
  }

  /** A settled connection only drains or closes. */
  lemma {:induction false} SettledAside(g: State, e: Event, c: ConnId, total: bytes)
    requires Inv(g) && Enabled(g, e) && c in g.conns && Settled(g.conns[c], total)
    ensures var r := Step(g, e);
      if c in r.conns then Settled(r.conns[c], total) else c in r.closed && Holding(r.closed[c].last, total)
  {
    if e.CtrlDied? {
      ControllerDeath(g, e.ct, e.envs);
    } else {
      if e.CtrlFrame? && ConnForId(g, e.id).Some? { ResolvedInFlight(g, e.id); }
      if Whose(g, e) != Some(c) {
        StepAgrees(g, e, c);
      } else if e.Writable? {
        WritableMoves(g, c, e.io);
      }
    }
  }

  lemma {:induction false} AsideStory(g: State, e: Event, q: Request, fs: seq<Frame>, total: bytes)
    requires StreamInv(g) && Enabled(g, e) && Conforms(g, e) && !IsUnder(e, Id(q)) && Story(g, q, fs, total)
    ensures Story(Step(g, e), q, fs, total)
  {
    var c, r := q.c, Step(g, e);
    StepKeeps(g, e);
    if c !in g.conns {
      ClosedStays(g, e, c, g.closed[c]);
    } else if Open(g.conns[c], Id(q), fs, total) {
      OpenAside(g, e, q, fs, total);
    } else {
      SettledAside(g, e, c, total);
    }
  }

  lemma {:induction false} OpenAside(g: State, e: Event, q: Request, fs: seq<Frame>, total: bytes)
    requires StreamInv(g) && Enabled(g, e) && Conforms(g, e) && !IsUnder(e, Id(q)) && StreamInv(Step(g, e))
    requires Asked(g, q) && Open(g.conns[q.c], Id(q), fs, total)
    ensures Story(Step(g, e), q, fs, total)
  {
    if e.CtrlFrame? { OwnId(g, q, e.id); }
    if g.conns[q.c].phase.Waiting? {
      WaitingAside(g, e, q.c);
      NotItsOwn(g, Step(g, e), q, fs, total);
    } else {
      StepTells(g, e, q.c);
      assert g.conns[q.c].log + [] == g.conns[q.c].log;
      ToldStory(g, Step(g, e), q, [], fs, total);
    }
  }

  lemma {:induction false} NotItsOwn(g: State, r: State, q: Request, fs: seq<Frame>, total: bytes)
    requires StreamInv(r) && Onward(g, r) && Asked(g, q) && Open(g.conns[q.c], Id(q), fs, total)
    requires Agree(g, r, q.c) || NotStreaming(r, q.c)
    ensures Story(r, q, fs, total)
  {
    if NotStreaming(r, q.c) { AtomicStory(g, r, q, fs, total); }
  }

  // ---- runs ----

  /** The request's own frame conforms and moves the story on. */
  lemma {:induction false} OwnStory(g: State, e: Event, q: Request, fs: seq<Frame>, total: bytes)
    requires StreamInv(g) && Enabled(g, e) && IsUnder(e, Id(q)) && Story(g, q, fs, total)
    requires g.gen[q.slot] < q.base + GENS
    requires fs != [] && fs[0] == Frame(VERSION, e.kind, Id(q), e.payload)
    ensures Conforms(g, e) && Story(Step(g, e), q, fs[1..], total)
  {
    if q.c in g.conns && Open(g.conns[q.c], Id(q), fs, total) {
      OwnId(g, q, e.id);
      OwnConforms(g, e, q, fs, total);
      StepKeeps(g, e);
      if g.conns[q.c].phase.Waiting? {
        WaitingStory(g, e, q, fs, total);
      } else {
        StreamingStory(g, e, q, fs, total);
      }
    } else {
      OldId(g, q);
    }
  }

  lemma {:induction false} OwnConforms(g: State, e: Event, q: Request, fs: seq<Frame>, total: bytes)
    requires StreamInv(g) && For(g, e, q.c) && q.c in g.conns && Open(g.conns[q.c], Id(q), fs, total)
    requires fs != [] && e.kind == fs[0].kind
    ensures Conforms(g, e)
  {
    if g.conns[q.c].phase.Streaming? && e.kind != RESPONSE_END { TailOfChunk(fs, Id(q)); }
  }

  /** What is still to come after e. */
  function Left(fs: seq<Frame>, e: Event, id: nat): seq<Frame> { if IsUnder(e, id) && fs != [] then fs[1..] else fs }

  lemma {:induction false} UnderStep(es: seq<Event>, fs: seq<Frame>, id: nat)
    requires es != [] && Under(es, id) <= fs
    ensures IsUnder(es[0], id) ==> fs != [] && fs[0] == Frame(VERSION, es[0].kind, id, es[0].payload)
    ensures Under(es[1..], id) <= Left(fs, es[0], id)
    ensures Left(fs, es[0], id)[|Under(es[1..], id)|..] == fs[|Under(es, id)|..]
  {
    if IsUnder(es[0], id) {
      var u := Under(es[1..], id);
      assert fs[0] == Under(es, id)[0];
      assert fs[1..][..|u|] == fs[..|u| + 1][1..] == Under(es, id)[1..] == u;
    }
  }

  /** One step of the story. */
  lemma {:induction false} StoryStep(g: State, e: Event, q: Request, fs: seq<Frame>, total: bytes)
    requires StreamInv(g) && Enabled(g, e) && Story(g, q, fs, total) && g.gen[q.slot] < q.base + GENS
    requires IsUnder(e, Id(q)) ==> fs != [] && fs[0] == Frame(VERSION, e.kind, Id(q), e.payload)
    requires !IsUnder(e, Id(q)) ==> Conforms(g, e)
    ensures Conforms(g, e) && StreamInv(Step(g, e)) && Story(Step(g, e), q, Left(fs, e, Id(q)), total)
  {
    if IsUnder(e, Id(q)) { OwnStory(g, e, q, fs, total); } else { AsideStory(g, e, q, fs, total); }
    StepKeeps(g, e);
  }

  lemma {:induction false} GenLater(g: State, es: seq<Event>, s: nat)
    requires Inv(g) && Possible(g, es) && s < SLOTS
    ensures g.gen[s] <= Run(g, es).gen[s]
  {
  }

  /** Over every run: as long as the frames under the request's id are a reply in the grammar, the run conforms and the
      story goes on. */
  lemma {:induction false} StoryRun(g: State, es: seq<Event>, q: Request, fs: seq<Frame>, total: bytes)
    requires StreamInv(g) && Possible(g, es) && Story(g, q, fs, total)
    requires Under(es, Id(q)) <= fs && OthersConform(g, es, Id(q)) && Run(g, es).gen[q.slot] < q.base + GENS
    ensures Conforming(g, es) && Story(Run(g, es), q, fs[|Under(es, Id(q))|..], total)
    decreases |es|
  {
    if es == [] {
      assert fs[0..] == fs;
    } else {
      GenLater(g, es, q.slot);
      UnderStep(es, fs, Id(q));
      StoryStep(g, es[0], q, fs, total);
      StoryRun(Step(g, es[0]), es[1..], q, Left(fs, es[0], Id(q)), total);
    }
  }

  // ---- an orderly handler ----

  /** What a handler sent: nothing when the request did not decode. */
  function Delivered(id: nat, ok: bool, calls: seq<SdkStream.Call>): bytes
  {
    if ok then SdkStream.Sent(SdkStream.FRESH, id, calls) else []
  }

  lemma {:induction false} DataSnoc(fs: seq<Frame>, f: Frame)
    requires f.kind != RESPONSE_CHUNK
    ensures SdkStream.DataOf(fs + [f]) == SdkStream.DataOf(fs)
    decreases |fs|
  {
    if fs == [] {
      assert fs + [f] == [f];
    } else {
      assert (fs + [f])[1..] == fs[1..] + [f];
      DataSnoc(fs[1..], f);
    }
  }

  lemma {:induction false} ReplyData(id: nat, ok: bool, calls: seq<SdkStream.Call>, failed: bool)
    ensures SdkStream.DataOf(SdkStream.Reply(id, ok, calls, failed)) == Delivered(id, ok, calls)
  {
    if ok {
      var (f, out) := SdkStream.Run(SdkStream.FRESH, id, calls);
      var tail := SdkStream.Finish(f, id, true, failed);
      SdkStream.StreamedData(SdkStream.FRESH, id, calls);
      if tail == [] { assert out + tail == out; } else { DataSnoc(out, tail[0]); assert tail == [tail[0]]; }
    }
  }

  /** The frames under c's id are, so far, the SDK's reply of an orderly handler; the others follow the grammar; and the
      slot was not freed 2^20 times in between. */
  ghost predicate Served(g: State, es: seq<Event>, c: ConnId, ok: bool, calls: seq<SdkStream.Call>, failed: bool)
    requires Inv(g) && Possible(g, es)
  {
    && c in g.conns && g.conns[c].phase.Waiting? && g.conns[c].inflight
    && (ok ==> SdkStream.Orderly(SdkStream.FRESH, g.conns[c].reqId, calls))
    && Under(es, g.conns[c].reqId) <= SdkStream.Reply(g.conns[c].reqId, ok, calls, failed)
    && OthersConform(g, es, g.conns[c].reqId)
    && Run(g, es).gen[SlotOf(g.conns[c].reqId)] < g.gen[SlotOf(g.conns[c].reqId)] + GENS
  }

  /** Where the story starts. */
  lemma {:induction false} StoryStarts(g: State, c: ConnId, fs: seq<Frame>)
    requires Inv(g) && c in g.conns && g.conns[c].phase.Waiting? && g.conns[c].inflight
    requires SdkStream.WellFormed(fs, g.conns[c].reqId)
    ensures var s := SlotOf(g.conns[c].reqId);
      var q := Request(c, s, g.gen[s]);
      Id(q) == g.conns[c].reqId && Story(g, q, fs, SdkStream.DataOf(fs))
  {
    var s := SlotOf(g.conns[c].reqId);
    assert g.pending[s] == Some(c) && Holds(g, s, c);
  }

  lemma {:induction false} StoryHolds(r: State, q: Request, fs: seq<Frame>, total: bytes, k: Conn)
    requires Inv(r) && Story(r, q, fs, total) && Seen(r, q.c, k)
    ensures Holding(k, total)
  {
  }

  /** Then the run conforms, and a stream's record holds a prefix of what the handler sent, all of it once ended. */
  lemma {:induction false} HandlerConforms(g: State, es: seq<Event>, c: ConnId, ok: bool, calls: seq<SdkStream.Call>,
                                           failed: bool, k: Conn)
    requires StreamInv(g) && Possible(g, es) && Served(g, es, c, ok, calls, failed) && Seen(Run(g, es), c, k)
    ensures Conforming(g, es) && Holding(k, Delivered(g.conns[c].reqId, ok, calls))
  {
    var id := g.conns[c].reqId;
    var fs := SdkStream.Reply(id, ok, calls, failed);
    SdkStream.ReplyGrammar(id, ok, calls, failed);
    ReplyData(id, ok, calls, failed);
    StoryStarts(g, c, fs);
    var q := Request(c, SlotOf(id), g.gen[SlotOf(id)]);
    StoryRun(g, es, q, fs, Delivered(id, ok, calls));
    StoryHolds(Run(g, es), q, fs[|Under(es, id)|..], Delivered(id, ok, calls), k);
  }

  /** What de-chunking gives for a faithful record that holds a prefix of the data. */
  lemma {:induction false} RecordReaches(k: Conn, data: bytes, cap: nat)
    requires k.phase.Streaming? && k.streaming && !k.isWs && Chunked.Chunkable(k.log) && Holding(k, data)
    requires k.sent <= Expected(k) && |k.sent| >= |k.head|
    ensures var d := BodyOf(k, cap);
      && (d.Some? ==> d.value <= data) && (k.sent == Expected(k) && k.ended && |data| < cap ==> d == Some(data))
  {
    if k.sse {
      Chunked.PrefixSplit(k.head, Body(k), k.sent);
    } else {
      ChunkedReaches(k, data, cap, Chunked.Dechunk(k.sent[|k.head|..], cap, []));
    }
  }

  lemma {:induction false} ChunkedReaches(k: Conn, data: bytes, cap: nat, d: Option<bytes>)
    requires k.phase.Streaming? && k.streaming && !k.isWs && !k.sse && Chunked.Chunkable(k.log) && Holding(k, data)
    requires k.sent <= Expected(k) && |k.sent| >= |k.head|
    requires d == Chunked.Dechunk(k.sent[|k.head|..], cap, [])
    ensures (d.Some? ==> d.value <= data) && (k.sent == Expected(k) && k.ended && |data| < cap ==> d == Some(data))
  {
    ChunkedHolds(k, Concat(k.log), cap, d);
    assert d.Some? ==> d.value <= Concat(k.log) <= data;
  }

  lemma {:induction false} ChunkedHolds(k: Conn, all: bytes, cap: nat, d: Option<bytes>)
    requires k.phase.Streaming? && k.streaming && !k.isWs && !k.sse && Chunked.Chunkable(k.log) && all == Concat(k.log)
    requires k.sent <= Expected(k) && |k.sent| >= |k.head|
    requires d == Chunked.Dechunk(k.sent[|k.head|..], cap, [])
    ensures d.Some? ==> d.value <= all
    ensures k.sent == Expected(k) && k.ended && |all| < cap ==> d == Some(all)
  {
    BodySent(k);
    var n := SomeArrived(k.log, k.sent[|k.head|..], cap, d);
    FirstOnes(k.log, n, cap, d);
    WholeDecodes(k.log, k.sent[|k.head|..], cap, d);
  }

  lemma {:induction false} SomeArrived(log: seq<bytes>, body: bytes, cap: nat, d: Option<bytes>) returns (n: nat)
    requires Chunked.Chunkable(log) && body <= Concat(Chunked.Framed(log)) + Chunked.TERMINATOR
    requires d == Chunked.Dechunk(body, cap, [])
    ensures n <= |log| && d == Chunked.FirstOf(log, n, cap, [])
  {
    n := Chunked.Arrived(log, |body|);
    CutDecodes(log, body, cap, d, Chunked.FirstOf(log, n, cap, []));
  }

  lemma {:induction false} FirstOnes(log: seq<bytes>, n: nat, cap: nat, d: Option<bytes>)
    requires n <= |log| && d == Chunked.FirstOf(log, n, cap, [])
    ensures d.Some? ==> d.value <= Concat(log)
  {
    assert [] + Concat(log[..n]) == Concat(log[..n]);
    ConcatAppend(log[..n], log[n..]);
    assert log[..n] + log[n..] == log;
  }

  lemma {:induction false} SeenFaithful(r: State, c: ConnId, k: Conn)
    requires StreamInv(r) && Seen(r, c, k) && k.phase.Streaming?
    ensures k.streaming && !k.isWs && Chunked.Chunkable(k.log) && k.sent <= Expected(k)
    ensures c in r.closed && r.closed[c] == Gone(k, Finished) ==> k.sent == Expected(k) && k.ended
  {
  }

  /** What the client makes of the bytes after the head. */
  function BodyOf(k: Conn, cap: nat): Option<bytes>
    requires |k.sent| >= |k.head|
  {
    if k.sse then Some(k.sent[|k.head|..]) else Chunked.Dechunk(k.sent[|k.head|..], cap, [])
  }

  /** End to end, over every run: the body the client of such a stream decodes is a prefix of what the handler sent, and
      exactly what it sent when the connection closed because it finished. */
  lemma {:induction false} HandlerReaches(g: State, es: seq<Event>, c: ConnId, ok: bool, calls: seq<SdkStream.Call>,
                                          failed: bool, k: Conn, cap: nat)
    requires StreamInv(g) && Possible(g, es) && Served(g, es, c, ok, calls, failed) && Seen(Run(g, es), c, k)
    requires k.phase.Streaming? && |k.sent| >= |k.head|
    ensures BodyOf(k, cap).Some? ==> BodyOf(k, cap).value <= Delivered(g.conns[c].reqId, ok, calls)
    ensures c in Run(g, es).closed && Run(g, es).closed[c] == Gone(k, Finished)
            && |Delivered(g.conns[c].reqId, ok, calls)| < cap ==>
      BodyOf(k, cap) == Some(Delivered(g.conns[c].reqId, ok, calls))
  {
    HandlerConforms(g, es, c, ok, calls, failed, k);
    RunKeeps(g, es);
    SeenFaithful(Run(g, es), c, k);
    RecordReaches(k, Delivered(g.conns[c].reqId, ok, calls), cap);
  }
}
