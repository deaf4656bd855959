/** What a WebSocket client is sent: over every run, exactly its controller's messages, an answer to each of its
    pings and the close, in order, as a client reads them. */
module RelaySockets {
  import opened Bytes
  import opened Framing
  import opened Relay
  import opened RelayRun
  import opened RelayStreams
  import opened RelayHistory
  import opened RelayFates
  import Incremental
  import RelayOutbox
  import Chunked
  import Wire
  import Ws
  import WsPeer

  /** The frame an event has in store for client c: a controller's message, text or binary as it says; an empty close; a
      pong with the ping's data. */
  ghost function FrameFor(g: State, e: Event, c: ConnId): seq<Ws.WsFrame>
    requires Shape(g)
  {
    if For(g, e, c) then
      if e.kind == WS_MSG && Wire.DecodeWsMsg(e.payload).Some? then
        var (op, data) := Wire.DecodeWsMsg(e.payload).value;
        [Ws.WsFrame(true, if op == 2 then 2 else 1, data)]
      else if e.kind == WS_CLOSE then [Ws.WsFrame(true, 8, [])]
      else []
    else if e.WsFrameIn? && e.c == c && e.action.PongBack? then [Ws.WsFrame(true, 10, e.action.data)]
    else []
  }

  ghost predicate CloseFor(g: State, e: Event, c: ConnId)
    requires Shape(g)
  {
    For(g, e, c) && e.kind == WS_CLOSE
  }

  ghost function FramesFor(g: State, es: seq<Event>, c: ConnId): seq<Ws.WsFrame>
    requires Inv(g) && Possible(g, es)
    decreases |es|
  {
    if es == [] then [] else FrameFor(g, es[0], c) + FramesFor(Step(g, es[0]), es[1..], c)
  }

  ghost predicate ClosesFor(g: State, es: seq<Event>, c: ConnId)
    requires Inv(g) && Possible(g, es)
    decreases |es|
  {
    es != [] && (CloseFor(g, es[0], c) || ClosesFor(Step(g, es[0]), es[1..], c))
  }

  function Prints(fs: seq<Ws.WsFrame>): seq<bytes> { seq(|fs|, i requires 0 <= i < |fs| => WsPeer.Printed(fs[i])) }

  lemma {:induction false} PrintsAppend(a: seq<Ws.WsFrame>, b: seq<Ws.WsFrame>)
    ensures Prints(a + b) == Prints(a) + Prints(b)
  {
  }

  lemma {:induction false} PrintsConcat(fs: seq<Ws.WsFrame>)
    ensures Concat(Prints(fs)) == Incremental.PutAll(WsPeer.Printed, fs)
    decreases |fs|
  {
    if fs != [] {
      assert Prints(fs) == [WsPeer.Printed(fs[0])] + Prints(fs[1..]);
      PrintsConcat(fs[1..]);
    }
  }

  ghost predicate Linked(g: State, c: ConnId) { c in g.conns && g.conns[c].phase.WebSocket? }

  // ---- one step ----

  lemma {:induction false} WsPushTells(g: State, c: ConnId, frame: bytes, io: Io)
    requires Inv(g) && Linked(g, c) && g.conns[c].streaming
    ensures ToldBy(g, WsPush(g, c, frame, io), c, [frame], false)
  {
    var h := Update(g, c, g.conns[c].(log := g.conns[c].log + [frame]));
    PushMoves(h, c, frame, io);
    MovedTells(g, h, Push(h, c, frame, io), c, frame, [frame], false);
  }

  lemma {:induction false} WsMsgTells(g: State, c: ConnId, payload: bytes, env: Env)
    requires Inv(g) && Linked(g, c) && Faithful(g.conns[c]) && g.conns[c].inflight
    ensures var m := Wire.DecodeWsMsg(payload);
      ToldBy(g, WsDeliver(g, c, payload, env), c,
             if m.Some? then Prints([Ws.WsFrame(true, if m.value.0 == 2 then 2 else 1, m.value.1)]) else [], false)
  {
    var m := Wire.DecodeWsMsg(payload);
    if m.Some? {
      var f := Ws.WsFrame(true, if m.value.0 == 2 then 2 else 1, m.value.1);
      assert Prints([f]) == [WsPeer.Printed(f)];
      WsPushTells(g, c, WsPeer.Printed(f), env.io);
    } else {
      ToldNothing(g.conns[c], g.conns[c]);
    }
  }

  lemma {:induction false} WsCloseTells(g: State, c: ConnId, env: Env)
    requires Inv(g) && Linked(g, c) && Faithful(g.conns[c]) && g.conns[c].inflight
    ensures ToldBy(g, WsDeliverClose(g, c, env), c, Prints([Ws.WsFrame(true, 8, [])]), true)
  {
    var frame := WsPeer.Printed(Ws.WsFrame(true, 8, []));
    assert Prints([Ws.WsFrame(true, 8, [])]) == [frame];
    var m := Release(g, c);
    var h := Update(m, c, m.conns[c].(ended := true));
    var r := WsPush(h, c, frame, env.io);
    WsPushTells(h, c, frame, env.io);
    Afterwards(g, h, r, c, [frame]);
  }

  lemma {:induction false} Afterwards(g: State, h: State, r: State, c: ConnId, more: seq<bytes>)
    requires c in g.conns && c in h.conns && ToldBy(h, r, c, more, false)
    requires h.conns[c] == g.conns[c].(inflight := false, ended := true)
    ensures ToldBy(g, r, c, more, true)
  {
  }

  lemma {:induction false} FrameSpeaks(g: State, e: Event, c: ConnId)
    requires StreamInv(g) && Linked(g, c) && Conforms(g, e) && For(g, e, c)
    ensures ToldBy(g, Step(g, e), c, Prints(FrameFor(g, e, c)), CloseFor(g, e, c))
  {
    ResolvedInFlight(g, e.id);
    StepIsHandle(g, e, c);
    if e.kind == WS_MSG {
      WsMsgTells(g, c, e.payload, e.env);
    } else if e.kind == WS_CLOSE {
      WsCloseTells(g, c, e.env);
    } else {
      ToldNothing(g.conns[c], g.conns[c]);
    }
  }

  lemma {:induction false} OwnSpeaks(g: State, e: Event, c: ConnId)
    requires StreamInv(g) && Enabled(g, e) && Linked(g, c) && Whose(g, e) == Some(c) && !e.CtrlFrame?
    ensures ToldBy(g, Step(g, e), c, Prints(FrameFor(g, e, c)), false)
  {
    if e.Writable? {
      WritableMoves(g, c, e.io);
      ToldNothing(g.conns[c], g.conns[c]);
      MovedTells(g, g, Step(g, e), c, [], [], false);
    } else if e.Hangup? {
      ClosedTells(g, c, ClientGone);
    } else if e.action.PongBack? {
      var f := Ws.WsFrame(true, 10, e.action.data);
      assert Prints([f]) == [WsPeer.Printed(f)];
      WsPushTells(g, c, WsPeer.Printed(f), e.env.io);
    } else {
      ToldNothing(g.conns[c], g.conns[c]);
    }
  }

  /** One event, as a WebSocket client sees it. */
  lemma {:induction false} StepSpeaks(g: State, e: Event, c: ConnId)
    requires StreamInv(g) && Enabled(g, e) && Conforms(g, e) && Linked(g, c)
    ensures ToldBy(g, Step(g, e), c, Prints(FrameFor(g, e, c)), CloseFor(g, e, c))
  {
    if e.CtrlDied? {
      DeathTells(g, e.ct, e.envs, c);
    } else if Whose(g, e) != Some(c) {
      OthersSpeak(g, e, c);
    } else if e.CtrlFrame? {
      FrameSpeaks(g, e, c);
    } else {
      OwnSpeaks(g, e, c);
    }
  }

  lemma {:induction false} OthersSpeak(g: State, e: Event, c: ConnId)
    requires StreamInv(g) && Enabled(g, e) && !e.CtrlDied? && Whose(g, e) != Some(c) && Linked(g, c)
    ensures ToldBy(g, Step(g, e), c, [], false)
  {
    StepAgrees(g, e, c);
    ToldNothing(g.conns[c], g.conns[c]);
  }

  // ---- runs ----

  lemma {:induction false} NothingMore(g: State, es: seq<Event>, c: ConnId, x: Gone)
    requires Inv(g) && Possible(g, es) && IsClosed(g, c, x)
    ensures FramesFor(g, es, c) == [] && !ClosesFor(g, es, c)
    decreases |es|
  {
    if es != [] {
      ClosedStays(g, es[0], c, x);
      NotForClosed(g, es[0], c);
      NothingMore(Step(g, es[0]), es[1..], c, x);
    }
  }

  /** Over every run: a WebSocket's record grows by exactly the frames in store for it, in order, and it ends exactly if
      its controller closed it. */
  lemma {:induction false} RunSpeaks(g: State, es: seq<Event>, c: ConnId)
    requires StreamInv(g) && Possible(g, es) && Conforming(g, es) && Linked(g, c)
    ensures ToldBy(g, Run(g, es), c, Prints(FramesFor(g, es, c)), ClosesFor(g, es, c))
    decreases |es|
  {
    if es == [] {
      ToldNothing(g.conns[c], g.conns[c]);
    } else {
      var e, h, rest := es[0], Step(g, es[0]), es[1..];
      StepSpeaks(g, e, c);
      PrintsAppend(FrameFor(g, e, c), FramesFor(h, rest, c));
      if c in h.conns {
        StepKeeps(g, e);
        RunSpeaks(h, rest, c);
        Joined(g, h, Run(h, rest), c, Prints(FrameFor(g, e, c)), CloseFor(g, e, c), Prints(FramesFor(h, rest, c)),
               ClosesFor(h, rest, c));
      } else {
        NothingMore(h, rest, c, h.closed[c]);
        RunClosed(h, rest, c, h.closed[c]);
        Final(g, h, Run(h, rest), c, Prints(FrameFor(g, e, c)), CloseFor(g, e, c));
      }
    }
  }

  // ---- as the client reads it ----

  ghost predicate AllPrintable(fs: seq<Ws.WsFrame>) { forall i :: 0 <= i < |fs| ==> WsPeer.Printable(fs[i]) }

  lemma {:induction false} FramesPrintable(g: State, es: seq<Event>, c: ConnId)
    requires Inv(g) && Possible(g, es) && forall e :: e in es ==> RelayOutbox.Sized(e)
    ensures AllPrintable(FramesFor(g, es, c))
    decreases |es|
  {
    if es != [] {
      assert es[0] in es;
      OnePrintable(g, es[0], c);
      FramesPrintable(Step(g, es[0]), es[1..], c);
    }
  }

  lemma {:induction false} OnePrintable(g: State, e: Event, c: ConnId)
    requires Inv(g) && RelayOutbox.Sized(e)
    ensures AllPrintable(FrameFor(g, e, c))
  {
    if For(g, e, c) && Wire.DecodeWsMsg(e.payload).Some? { MessageSize(e.payload); }
  }

  lemma {:induction false} MessageSize(payload: bytes)
    requires Wire.DecodeWsMsg(payload).Some?
    ensures |Wire.DecodeWsMsg(payload).value.1| < 0x1_0000_0000
  {
  }

  /** The record of an upgraded connection whose frames are fs, as its client reads the bytes after the head. */
  lemma {:induction false} RecordReads(k: Conn, fs: seq<Ws.WsFrame>)
    requires k.phase.WebSocket? && k.streaming && k.isWs && k.log == Prints(fs) && AllPrintable(fs)
    requires k.sent <= Expected(k) && |k.sent| >= |k.head|
    ensures var read := Incremental.ParseAll(WsPeer.ClientRead, k.sent[|k.head|..]);
      read.items <= fs && (k.sent == Expected(k) ==> read == Incremental.Parsed(fs, [], false))
  {
    PrintsConcat(fs);
    Chunked.PrefixSplit(k.head, Concat(k.log), k.sent);
    WsPeer.ClientReads(fs, k.sent[|k.head|..]);
  }

  /** From the upgrade on, whatever events follow: the client has been sent a prefix of the head and reads, in
      order, the first of the frames in store for it; when its connection finished, the controller had closed it and
      the client reads all of them. */
  lemma {:induction false} SocketReaches(g: State, e: Event, es: seq<Event>, k: Conn)
    requires StreamInv(g) && Enabled(g, e) && e.WsUpgrade? && Refusal(g, e.target, e.request, e.queued).None?
    requires e.c in Step(g, e).conns && Possible(Step(g, e), es) && Conforming(Step(g, e), es)
    requires (forall x :: x in es ==> RelayOutbox.Sized(x)) && Seen(Run(Step(g, e), es), e.c, k)
    ensures k.head == e.head && (|k.sent| < |e.head| ==> k.sent <= e.head)
    ensures |k.sent| >= |e.head| ==>
      var fs, read := FramesFor(Step(g, e), es, e.c), Incremental.ParseAll(WsPeer.ClientRead, k.sent[|e.head|..]);
      && k.sent[..|e.head|] == e.head && read.items <= fs
      && (e.c in Run(Step(g, e), es).closed && Run(Step(g, e), es).closed[e.c] == Gone(k, Finished) ==>
            ClosesFor(Step(g, e), es, e.c) && read == Incremental.Parsed(fs, [], false))
  {
    var h, c := Step(g, e), e.c;
    var fs := FramesFor(h, es, c);
    UpgradeFate(g, c, e.target, e.request, e.queued, e.head, e.env);
    StepKeeps(g, e);
    RunSpeaks(h, es, c);
    RunKeeps(h, es);
    FramesPrintable(h, es, c);
    SocketRecord(h.conns[c], k, e.head, fs, ClosesFor(h, es, c));
    SocketSent(Run(h, es), c, k);
    if |k.sent| >= |k.head| { RecordReads(k, fs); }
  }

  lemma {:induction false} SocketRecord(k0: Conn, k: Conn, head: bytes, fs: seq<Ws.WsFrame>, end: bool)
    requires JustUpgraded(k0, head) && Told(k0, k, Prints(fs), end)
    ensures k.head == head && k.log == Prints(fs) && k.ended == end && k.streaming && k.isWs
  {
    assert [] + Prints(fs) == Prints(fs);
  }

  lemma {:induction false} SocketSent(r: State, c: ConnId, k: Conn)
    requires StreamInv(r) && Seen(r, c, k)
    ensures k.sent <= Expected(k) && (|k.sent| >= |k.head| ==> k.sent[..|k.head|] == k.head)
    ensures |k.sent| < |k.head| ==> k.sent <= k.head
    ensures c in r.closed && r.closed[c] == Gone(k, Finished) ==> k.sent == Expected(k) && (k.streaming ==> k.ended)
  {
  }
}
