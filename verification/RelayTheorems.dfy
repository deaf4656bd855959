/** What holds over every run of the relay: the slot census, the life of a request id, isolation between requests,
    and the effect of a controller's death. */
module RelayTheorems {
  import opened Bytes
  import opened Relay
  import opened RelayRun

  // ---- free slots plus requests in flight make 4096 ----

  ghost function InFlight(g: State): set<ConnId> { set c | c in g.conns && g.conns[c].inflight }

  ghost function FreeSet(p: seq<Option<ConnId>>, n: nat): set<nat>
    requires n <= |p|
  {
    if n == 0 then {} else if p[n - 1].None? then FreeSet(p, n - 1) + {n - 1} else FreeSet(p, n - 1)
  }

  ghost function HeldSet(p: seq<Option<ConnId>>, n: nat): set<ConnId>
    requires n <= |p|
  {
    if n == 0 then {} else if p[n - 1].Some? then HeldSet(p, n - 1) + {p[n - 1].value} else HeldSet(p, n - 1)
  }

  ghost predicate HeldBelow(p: seq<Option<ConnId>>, n: nat, c: ConnId)
    requires n <= |p|
  {
    exists s :: 0 <= s < n && p[s] == Some(c)
  }

  lemma {:induction false} InFreeSet(p: seq<Option<ConnId>>, n: nat, s: nat)
    requires n <= |p|
    ensures s in FreeSet(p, n) <==> s < n && p[s].None?
  {
    if n > 0 { InFreeSet(p, n - 1, s); }
  }

  lemma {:induction false} InHeldSet(p: seq<Option<ConnId>>, n: nat, c: ConnId)
    requires n <= |p|
    ensures c in HeldSet(p, n) <==> HeldBelow(p, n, c)
  {
    if n > 0 {
      InHeldSet(p, n - 1, c);
      assert HeldBelow(p, n, c) <==> HeldBelow(p, n - 1, c) || p[n - 1] == Some(c);
    }
  }

  lemma {:induction false} OneMore(a: set<nat>, x: nat)
    requires x !in a
    ensures |a + {x}| == |a| + 1
  {
  }

  lemma {:induction false} EachSlotCounts(p: seq<Option<ConnId>>, n: nat)
    requires n <= |p|
    requires forall s, t :: 0 <= s < t < |p| && p[s].Some? ==> p[s] != p[t]
    ensures |FreeSet(p, n)| + |HeldSet(p, n)| == n
  {
    if n > 0 {
      EachSlotCounts(p, n - 1);
      if p[n - 1].None? {
        InFreeSet(p, n - 1, n - 1);
        OneMore(FreeSet(p, n - 1), n - 1);
      } else {
        InHeldSet(p, n - 1, p[n - 1].value);
        OneMore(HeldSet(p, n - 1), p[n - 1].value);
      }
    }
  }

  /** In every reachable state the free stack and the requests in flight account for all slots. */
  lemma {:induction false} Census(g: State)
    requires Inv(g)
    ensures |g.free| + |InFlight(g)| == SLOTS
  {
    forall s, t | 0 <= s < t < SLOTS && g.pending[s].Some? ensures g.pending[s] != g.pending[t] {
      assert Holds(g, s, g.pending[s].value);
      assert g.pending[t].Some? ==> Holds(g, t, g.pending[t].value);
    }
    EachSlotCounts(g.pending, SLOTS);
    forall s ensures s in FreeSet(g.pending, SLOTS) <==> s in g.free {
      InFreeSet(g.pending, SLOTS, s);
    }
    DistinctSize(g.free, FreeSet(g.pending, SLOTS));
    HeldAreInFlight(g);
  }

  lemma {:induction false} HeldAreInFlight(g: State)
    requires Inv(g)
    ensures HeldSet(g.pending, SLOTS) == InFlight(g)
  {
    forall c | c in HeldSet(g.pending, SLOTS) ensures c in InFlight(g) {
      InHeldSet(g.pending, SLOTS, c);
      var s :| 0 <= s < SLOTS && g.pending[s] == Some(c);
      assert Holds(g, s, c);
    }
    forall c | c in InFlight(g) ensures c in HeldSet(g.pending, SLOTS) {
      assert g.pending[SlotOf(g.conns[c].reqId)] == Some(c);
      InHeldSet(g.pending, SLOTS, c);
    }
  }

  /** The invariant, and with it the census, over every run from the start. */
  lemma {:induction false} EveryRun(es: seq<Event>)
    requires Possible(Init(), es)
    ensures Inv(Run(Init(), es))
    ensures |Run(Init(), es).free| + |InFlight(Run(Init(), es))| == SLOTS
  {
    Census(Run(Init(), es));
  }

  // ---- the life of a request id ----

  lemma {:induction false} GenerationWraps(gen: nat, n: nat)
    ensures (gen + n) % GENS == gen % GENS <==> n % GENS == 0
    ensures 0 < n < GENS ==> n % GENS != 0
  {
    assert (gen + n) % GENS == (gen % GENS + n % GENS) % GENS;
  }

  lemma {:induction false} IdResolves(r: State, gen: nat, s: nat)
    requires Shape(r) && s < SLOTS
    ensures ConnForId(r, IdFor(gen, s)) == if r.gen[s] % GENS == gen % GENS then r.pending[s] else None
  {
    IdParts(gen, s);
  }

  /** What an id issued for slot s in state g resolves to in a later state. */
  ghost predicate IdFate(g: State, r: State, s: nat)
    requires Shape(g) && Shape(r) && s < SLOTS
  {
    var now := ConnForId(r, IdFor(g.gen[s], s));
    var freed := r.gen[s] as int - g.gen[s] as int;
    && freed >= 0
    && now == (if freed % GENS == 0 then r.pending[s] else None)
    && (0 < freed < GENS ==> now == None)
    && (freed == 0 && g.pending[s].Some? ==> now == g.pending[s])
  }

  lemma {:induction false} IdLater(g: State, r: State, s: nat)
    requires Shape(g) && Shape(r) && Advances(g, r) && s < SLOTS
    ensures IdFate(g, r, s)
  {
    GenerationWraps(g.gen[s], r.gen[s] - g.gen[s]);
    IdResolves(r, g.gen[s], s);
  }

  /** An id issued for slot s resolves, after any run, exactly when the slot is held and was freed a multiple of 2^20
      times since. In particular it resolves to nothing while the count is between 1 and 2^20 - 1, and to its own
      connection as long as the slot was not freed. */
  lemma {:induction false} IdOverRun(g: State, es: seq<Event>, s: nat)
    requires Inv(g) && Possible(g, es) && s < SLOTS
    ensures IdFate(g, Run(g, es), s)
  {
    IdLater(g, Run(g, es), s);
  }

  // ---- isolation ----

  /** A frame from a controller reaches at most the connection that is in flight under exactly its id; every other
      connection, open or closed, and every other slot is as before. */
  lemma {:induction false} FrameIsolation(g: State, e: Event)
    requires Inv(g) && e.CtrlFrame? && e.id < 0x1_0000_0000
    ensures var r := Step(g, e);
      match ConnForId(g, e.id)
      case None => r == g
      case Some(c) =>
        && c in g.conns && g.conns[c].inflight && g.conns[c].reqId == e.id
        && (forall d :: d != c ==> Agree(g, r, d))
        && (forall s :: 0 <= s < SLOTS && s != SlotOf(e.id) ==> r.pending[s] == g.pending[s] && r.gen[s] == g.gen[s])
  {
    var r := Step(g, e);
    if ConnForId(g, e.id).Some? {
      var c, s := ConnForId(g, e.id).value, SlotOf(e.id);
      assert Holds(g, s, c) && Good(g, r, c);
      assert e.id == e.id / SLOTS * SLOTS + s;
      forall d | d != c ensures Agree(g, r, d) { OthersAgree(g, r, c, d); }
      forall t | 0 <= t < SLOTS && t != s ensures r.pending[t] == g.pending[t] && r.gen[t] == g.gen[t] {
        assert g.pending[t].Some? ==> Holds(g, t, g.pending[t].value);
      }
    }
  }

  /** A frame for a request that is over changes nothing, whoever holds its slot by then: over any run in which the
      slot was freed at least once and fewer than 2^20 times. */
  lemma {:induction false} LateFrameIsDropped(g: State, es: seq<Event>, c: ConnId, e: Event)
    requires Inv(g) && Possible(g, es) && c in g.conns && g.conns[c].inflight
    requires e.CtrlFrame? && e.id == g.conns[c].reqId
    requires 0 < Run(g, es).gen[SlotOf(e.id)] - g.gen[SlotOf(e.id)] < GENS
    ensures Step(Run(g, es), e) == Run(g, es)
  {
    var s := SlotOf(e.id);
    assert g.pending[s] == Some(c) && Holds(g, s, c);
    IdOverRun(g, es, s);
  }

  // ---- a controller dies ----

  /** No slot waits on it any more; whoever did is cut off where its response stood, or answered with one 502; every
      other slot and connection is untouched. */
  lemma {:induction false} ControllerDeath(g: State, ct: CtrlId, envs: seq<Env>)
    requires Inv(g) && |envs| == SLOTS
    ensures var r := Died(g, ct, envs);
      && ct !in r.ctrls && Unwaited(r, ct)
      && (forall c :: c in g.conns ==>
            if g.conns[c].inflight && g.conns[c].ctrl == Some(ct)
            then Fate(g.conns[c], r, c, envs[SlotOf(g.conns[c].reqId)])
            else c in r.conns && r.conns[c] == g.conns[c])
      && SlotsSwept(g, r, ct, SLOTS)
  {
    var h, r := Sweep(g, ct, envs, |envs|), Died(g, ct, envs);
    SweepEffect(g, ct, envs, |envs|);
    NobodyWaits(g, ct, envs);
    forall c | c in g.conns
      ensures if g.conns[c].inflight && g.conns[c].ctrl == Some(ct)
              then Fate(g.conns[c], r, c, envs[SlotOf(g.conns[c].reqId)])
              else c in r.conns && r.conns[c] == g.conns[c]
    {
      assert Swept(g, h, ct, envs, SLOTS, c);
    }
  }
}
