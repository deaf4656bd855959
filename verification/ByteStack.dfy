/** The whole stack on bytes: what a controller's SDK writes to its socket, chopped as the gateway's reads happen to
    chop it, drives the relay, and reaches the client. */
module ByteStack {
  import opened Bytes
  import opened Framing
  import opened Relay
  import opened RelayRun
  import opened RelayStreams
  import opened EndToEnd
  import Incremental
  import SdkStream

  /** A REQUEST and what its handler did. */
  datatype Job = Job(id: nat, ok: bool, calls: seq<SdkStream.Call>, failed: bool)

  function ReplyTo(j: Job): seq<Frame> { SdkStream.Reply(j.id, j.ok, j.calls, j.failed) }

  /** The frames of a session: the serve loop answers one REQUEST after the other. */
  function Replies(js: seq<Job>): seq<Frame> { if js == [] then [] else ReplyTo(js[0]) + Replies(js[1..]) }

  lemma {:induction false} PutAllAppend(a: seq<Frame>, b: seq<Frame>)
    ensures Incremental.PutAll(PutFrame, a + b) == Incremental.PutAll(PutFrame, a) + Incremental.PutAll(PutFrame, b)
    decreases |a|
  {
    if a == [] {
      assert a + b == b;
    } else {
      assert (a + b)[1..] == a[1..] + b;
      PutAllAppend(a[1..], b);
      Assoc(PutFrame(a[0]), Incremental.PutAll(PutFrame, a[1..]), Incremental.PutAll(PutFrame, b));
    }
  }

  lemma {:induction false} RepliesSnoc(js: seq<Job>, j: Job)
    ensures Replies(js + [j]) == Replies(js) + ReplyTo(j)
    decreases |js|
  {
    if js == [] {
      assert js + [j] == [j] && [j][1..] == [];
    } else {
      assert (js + [j])[1..] == js[1..] + [j];
      RepliesSnoc(js[1..], j);
      Assoc(ReplyTo(js[0]), Replies(js[1..]), ReplyTo(j));
    }
  }

  /** The serve loop over a session: its bytes are those of the replies. */
  method ServeAll(js: seq<Job>) returns (out: bytes)
    ensures out == Incremental.PutAll(PutFrame, Replies(js))
  {
    out := [];
    var i := 0;
    while i < |js|
      invariant 0 <= i <= |js| && out == Incremental.PutAll(PutFrame, Replies(js[..i]))
    {
      var more := SdkStream.Serve(js[i].id, js[i].ok, js[i].calls, js[i].failed);
      RepliesSnoc(js[..i], js[i]);
      PutAllAppend(Replies(js[..i]), ReplyTo(js[i]));
      assert js[..i + 1] == js[..i] + [js[i]];
      out := out + more;
      i := i + 1;
    }
    assert js[..i] == js;
  }

  // ---- the reader sees those frames ----

  ghost predicate AllSendable(fs: seq<Frame>) { forall f :: f in fs ==> Sendable(f) }

  lemma {:induction false} DoSendable(f: SdkStream.Flags, id: nat, c: SdkStream.Call)
    requires id < 0x1_0000_0000
    ensures AllSendable(SdkStream.Do(f, id, c).1)
  {
  }

  lemma {:induction false} RunSendable(f: SdkStream.Flags, id: nat, calls: seq<SdkStream.Call>)
    requires id < 0x1_0000_0000
    ensures AllSendable(SdkStream.Run(f, id, calls).1)
    decreases |calls|
  {
    if calls != [] {
      DoSendable(f, id, calls[0]);
      RunSendable(SdkStream.Do(f, id, calls[0]).0, id, calls[1..]);
    }
  }

  lemma {:induction false} ReplySendable(j: Job)
    requires j.id < 0x1_0000_0000
    ensures AllSendable(ReplyTo(j))
  {
    RunSendable(SdkStream.FRESH, j.id, j.calls);
    assert |SdkStream.OneShot(j.ok, j.failed).body| < 100;
  }

  lemma {:induction false} RepliesSendable(js: seq<Job>)
    requires forall j :: j in js ==> j.id < 0x1_0000_0000
    ensures AllSendable(Replies(js))
    decreases |js|
  {
    if js != [] {
      assert js[0] in js;
      ReplySendable(js[0]);
      RepliesSendable(js[1..]);
    }
  }

  /** The frames the gateway has dispatched after some read events on a controller's socket. */
  ghost function ReadFrom(events: seq<seq<Recv>>): seq<Frame>
  {
    ReadEvents(CTRL_MAX_RBUF, ReadFrame, Incremental.Parsed([], [], false), events).items
  }

  ghost predicate Alive(events: seq<seq<Recv>>)
  {
    Survives(CTRL_MAX_RBUF, ReadFrame, Incremental.Parsed([], [], false), events)
  }

  /** However much of a session's bytes has arrived, and however chopped, the frames dispatched are a prefix of its
      frames, and all of them once all has arrived. */
  lemma {:induction false} SessionIsRead(js: seq<Job>, events: seq<seq<Recv>>)
    requires (forall j :: j in js ==> j.id < 0x1_0000_0000) && Alive(events)
    requires Concat(Batches(events)) <= Incremental.PutAll(PutFrame, Replies(js))
    ensures ReadFrom(events) <= Replies(js)
    ensures Concat(Batches(events)) == Incremental.PutAll(PutFrame, Replies(js)) ==> ReadFrom(events) == Replies(js)
  {
    DispatchIgnoresBatching(events);
    RepliesSendable(js);
    FramesRead(Replies(js), Concat(Batches(events)));
  }

  lemma {:induction false} FramesRead(fs: seq<Frame>, b: bytes)
    requires AllSendable(fs) && b <= Incremental.PutAll(PutFrame, fs)
    ensures Incremental.ParseAll(ReadFrame, b).items <= fs
    ensures b == Incremental.PutAll(PutFrame, fs) ==> Incremental.ParseAll(ReadFrame, b).items == fs
  {
    var all := Incremental.PutAll(PutFrame, fs);
    ReadersAreFinal();
    forall i | 0 <= i < |fs| ensures Incremental.Reads(ReadFrame, PutFrame, fs[i]) {
      FramesAreRead(fs[i]);
    }
    Incremental.ReadBack(ReadFrame, PutFrame, fs, []);
    assert all + [] == all && fs + [] == fs;
    assert b + all[|b|..] == all;
    Incremental.ParsePrefix(ReadFrame, b, all[|b|..]);
  }

  // ---- frames under one id ----

  function Only(fs: seq<Frame>, id: nat): seq<Frame>
  {
    if fs == [] then [] else if fs[0].id == id then [fs[0]] + Only(fs[1..], id) else Only(fs[1..], id)
  }

  lemma {:induction false} OnlyAppend(a: seq<Frame>, b: seq<Frame>, id: nat)
    ensures Only(a + b, id) == Only(a, id) + Only(b, id)
    decreases |a|
  {
    if a == [] {
      assert a + b == b;
    } else {
      assert (a + b)[1..] == a[1..] + b;
      OnlyAppend(a[1..], b, id);
    }
  }

  lemma {:induction false} OnlyPrefix(a: seq<Frame>, b: seq<Frame>, id: nat)
    requires a <= b
    ensures Only(a, id) <= Only(b, id)
  {
    assert b == a + b[|a|..];
    OnlyAppend(a, b[|a|..], id);
  }

  ghost predicate AllUnder(fs: seq<Frame>, id: nat) { forall f :: f in fs ==> f.id == id }

  lemma {:induction false} OnlyAll(fs: seq<Frame>, own: nat, id: nat)
    requires AllUnder(fs, own)
    ensures Only(fs, id) == if id == own then fs else []
    decreases |fs|
  {
    if fs != [] {
      assert fs[0] in fs;
      OnlyAll(fs[1..], own, id);
      assert fs == [fs[0]] + fs[1..];
    }
  }

  lemma {:induction false} RunUnder(f: SdkStream.Flags, id: nat, calls: seq<SdkStream.Call>)
    ensures AllUnder(SdkStream.Run(f, id, calls).1, id)
    decreases |calls|
  {
    if calls != [] { RunUnder(SdkStream.Do(f, id, calls[0]).0, id, calls[1..]); }
  }

  lemma {:induction false} ReplyUnder(j: Job)
    ensures AllUnder(ReplyTo(j), j.id)
  {
    RunUnder(SdkStream.FRESH, j.id, j.calls);
  }

  /** In a session that answers an id once, the frames under it are that answer. */
  lemma {:induction false} OnlyOf(js: seq<Job>, k: nat)
    requires k < |js| && forall i :: 0 <= i < |js| && i != k ==> js[i].id != js[k].id
    ensures Only(Replies(js), js[k].id) == ReplyTo(js[k])
    decreases |js|
  {
    var id, rest := js[k].id, js[1..];
    ReplyUnder(js[0]);
    OnlyAll(ReplyTo(js[0]), js[0].id, id);
    OnlyAppend(ReplyTo(js[0]), Replies(rest), id);
    if k == 0 {
      OnlyNone(rest, id);
      assert ReplyTo(js[0]) + [] == ReplyTo(js[0]);
    } else {
      assert rest[k - 1] == js[k];
      OnlyOf(rest, k - 1);
      assert [] + ReplyTo(js[k]) == ReplyTo(js[k]);
    }
  }

  lemma {:induction false} OnlyNone(js: seq<Job>, id: nat)
    requires forall j :: j in js ==> j.id != id
    ensures Only(Replies(js), id) == []
    decreases |js|
  {
    if js != [] {
      assert js[0] in js;
      ReplyUnder(js[0]);
      OnlyAll(ReplyTo(js[0]), js[0].id, id);
      OnlyAppend(ReplyTo(js[0]), Replies(js[1..]), id);
      OnlyNone(js[1..], id);
    }
  }

  // ---- end to end ----

  /** Connection c waits for the k-th answer of its controller's session; the bytes of the session that have arrived are
      read in these events, and the frames under c's id that reach the relay are those. */
  ghost predicate Fed(g: State, es: seq<Event>, c: ConnId, js: seq<Job>, k: nat, events: seq<seq<Recv>>)
    requires Inv(g) && Possible(g, es)
  {
    && k < |js| && (forall j :: j in js ==> j.id < 0x1_0000_0000)
    && (forall i :: 0 <= i < |js| && i != k ==> js[i].id != js[k].id)
    && c in g.conns && g.conns[c].phase.Waiting? && g.conns[c].inflight && g.conns[c].reqId == js[k].id
    && (js[k].ok ==> SdkStream.Orderly(SdkStream.FRESH, js[k].id, js[k].calls))
    && Alive(events) && Concat(Batches(events)) <= Incremental.PutAll(PutFrame, Replies(js))
    && Under(es, js[k].id) == Only(ReadFrom(events), js[k].id)
    && OthersConform(g, es, js[k].id)
    && Run(g, es).gen[SlotOf(js[k].id)] < g.gen[SlotOf(js[k].id)] + GENS
  }

  lemma {:induction false} FedIsServed(g: State, es: seq<Event>, c: ConnId, js: seq<Job>, k: nat,
                                       events: seq<seq<Recv>>)
    requires Inv(g) && Possible(g, es) && Fed(g, es, c, js, k, events)
    ensures Served(g, es, c, js[k].ok, js[k].calls, js[k].failed)
  {
    SessionIsRead(js, events);
    OnlyPrefix(ReadFrom(events), Replies(js), js[k].id);
    OnlyOf(js, k);
  }

  /** From the bytes the SDK writes to the bytes the client decodes, over every run, every batching and every partial
      send: a prefix of what the handler sent, and exactly that when the connection finished. */
  lemma {:induction false} BytesReach(g: State, es: seq<Event>, c: ConnId, js: seq<Job>, n: nat, events: seq<seq<Recv>>,
                                      k: Conn, cap: nat)
    requires StreamInv(g) && Possible(g, es) && Fed(g, es, c, js, n, events) && Seen(Run(g, es), c, k)
    requires k.phase.Streaming? && |k.sent| >= |k.head|
    ensures var data := Delivered(js[n].id, js[n].ok, js[n].calls);
      && (BodyOf(k, cap).Some? ==> BodyOf(k, cap).value <= data)
      && (c in Run(g, es).closed && Run(g, es).closed[c] == Gone(k, Finished) && |data| < cap ==>
            BodyOf(k, cap) == Some(data))
  {
    FedIsServed(g, es, c, js, n, events);
    HandlerReaches(g, es, c, js[n].ok, js[n].calls, js[n].failed, k, cap);
  }
}
