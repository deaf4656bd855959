/** Round-robin choice among a service's replicas. */
module RoundRobin {
  import opened Bits
  import opened Bytes

  /** The slots svc_pick looks at. */
  function Slots(replicas: int): (n: nat) ensures n > 0 { if replicas > 0 then replicas else 1 }

  /** The first live slot among rr + k, rr + k + 1, ..., rr + n - 1, modulo n. */
  function Scan(live: seq<bool>, n: nat, rr: nat, k: nat): (r: Option<nat>)
    requires 0 < n <= |live|
    ensures r.Some? ==> r.value < n && live[r.value]
    decreases n - k
  {
    if k >= n then None
    else if live[(rr + k) % n] then Some((rr + k) % n)
    else Scan(live, n, rr, k + 1)
  }

  function Pick(live: seq<bool>, n: nat, rr: nat): (r: Option<nat>)
    requires 0 < n <= |live|
    ensures r.Some? ==> r.value < n && live[r.value]
  {
    Scan(live, n, rr, 0)
  }

  class Service {
    const replicas: int
    var conns: seq<bool>   // which replicas are connected
    var rr: nat

    constructor (replicas: int, conns: seq<bool>, rr: nat)
      ensures this.replicas == replicas && this.conns == conns && this.rr == rr
    {
      this.replicas, this.conns, this.rr := replicas, conns, rr;
    }

    /** svc_pick; the cursor moves past the replica that was chosen. */
    method Choose() returns (r: Option<nat>)
      requires Slots(replicas) <= |conns|
      modifies `rr
      ensures r == Pick(conns, Slots(replicas), old(rr))
      ensures rr == if r.Some? then (r.value + 1) % Slots(replicas) else old(rr)
    {
      var n, k := Slots(replicas), 0;
      r := None;
      while k < n && r.None?
        invariant 0 <= k <= n && rr == old(rr)
        invariant r.None? ==> Pick(conns, n, rr) == Scan(conns, n, rr, k)
        invariant r.Some? ==> Pick(conns, n, rr) == r
        decreases n - k, r.None?
      {
        var i := (rr + k) % n;
        if conns[i] { r := Some(i); } else { k := k + 1; }
      }
      if r.Some? { rr := (r.value + 1) % n; }
    }
  }

  /** The choices of m picks in a row. */
  function Picks(live: seq<bool>, n: nat, rr: nat, m: nat): seq<nat>
    requires 0 < n <= |live|
    decreases m
  {
    if m == 0 then []
    else
      match Pick(live, n, rr)
      case None => []
      case Some(i) => [i] + Picks(live, n, (i + 1) % n, m - 1)
  }

  // ---- one turn of the wheel ----

  /** The offsets v, ..., n - 1 from the start s whose slots are live, in order. */
  function Lives(live: seq<bool>, n: nat, s: nat, v: nat): (vs: seq<nat>)
    requires 0 < n <= |live|
    ensures forall x :: x in vs ==> v <= x < n && live[(s + x) % n]
    decreases n - v
  {
    if v >= n then [] else (if live[(s + v) % n] then [v] else []) + Lives(live, n, s, v + 1)
  }

  function Slot(n: nat, s: nat, vs: seq<nat>): (r: seq<nat>)
    requires n > 0
    ensures |r| == |vs| && forall i :: 0 <= i < |r| ==> r[i] == (s + vs[i]) % n
  {
    seq(|vs|, i requires 0 <= i < |vs| => (s + vs[i]) % n)
  }

  lemma {:induction false} ModAdd(a: nat, b: nat, n: nat)
    requires n > 0
    ensures (a % n + b) % n == (a + b) % n
  {
    var q := a / n;
    assert a + b == q * n + (a % n + b);
    ModShift(a % n + b, q, n);
  }

  lemma {:induction false} ModShift(x: nat, q: nat, n: nat)
    requires n > 0
    ensures (q * n + x) % n == x % n
    decreases q
  {
    if q > 0 {
      ModShift(x, q - 1, n);
      assert q * n + x == (q - 1) * n + x + n;
      ModOnce((q - 1) * n + x, n);
    }
  }

  lemma {:induction false} ModOnce(y: nat, n: nat)
    requires n > 0
    ensures (y + n) % n == y % n
  {
    var q, r := y / n, y % n;
    assert y + n == (q + 1) * n + r;
    DivIs(y + n, n, q + 1, r);
  }

  /** The k-th slot from the cursor on, going round. */
  function Around(n: nat, rr: nat, k: nat): (i: nat)
    requires n > 0
    ensures i < n
  {
    (rr + k) % n
  }

  /** The pick is the first live replica from the cursor on, going round. */
  lemma {:induction false} PickIsNext(live: seq<bool>, n: nat, rr: nat, k: nat)
    requires 0 < n <= |live| && k < n && live[Around(n, rr, k)]
    requires forall j :: 0 <= j < k ==> !live[Around(n, rr, j)]
    ensures Pick(live, n, rr) == Some(Around(n, rr, k))
  {
    ScanReaches(live, n, rr, 0, k);
  }

  lemma {:induction false} ScanReaches(live: seq<bool>, n: nat, rr: nat, i: nat, k: nat)
    requires 0 < n <= |live| && i <= k < n && live[Around(n, rr, k)]
    requires forall j :: i <= j < k ==> !live[Around(n, rr, j)]
    ensures Scan(live, n, rr, i) == Some(Around(n, rr, k))
    decreases k - i
  {
    assert live[Around(n, rr, i)] <==> i == k;
    if i < k { ScanReaches(live, n, rr, i + 1, k); }
  }

  /** A scan from the slot at offset v finds the first live offset at or after it. */
  lemma {:induction false} ScanFinds(live: seq<bool>, n: nat, s: nat, v: nat, rr: nat, k: nat)
    requires 0 < n <= |live| && rr % n == (s + v) % n && v + k <= n && Lives(live, n, s, v + k) != []
    ensures Scan(live, n, rr, k) == Some((s + Lives(live, n, s, v + k)[0]) % n)
    decreases n - k
  {
    SameSlot(n, s + v, rr, k);
    assert s + v + k == s + (v + k);
    if !live[(rr + k) % n] { ScanFinds(live, n, s, v, rr, k + 1); }
  }

  lemma {:induction false} SameSlot(n: nat, t: nat, rr: nat, k: nat)
    requires n > 0 && rr % n == t % n
    ensures (rr + k) % n == (t + k) % n
  {
    ModAdd(rr, k, n);
    ModAdd(t, k, n);
  }

  lemma {:induction false} NextLives(live: seq<bool>, n: nat, s: nat, v: nat)
    requires 0 < n <= |live| && Lives(live, n, s, v) != []
    ensures var vs := Lives(live, n, s, v); v <= vs[0] < n && Lives(live, n, s, vs[0] + 1) == vs[1..]
    decreases n - v
  {
    if v < n && !live[(s + v) % n] {
      assert Lives(live, n, s, v) == Lives(live, n, s, v + 1);
      NextLives(live, n, s, v + 1);
    }
  }

  /** As many picks as there are live offsets from v on choose exactly those, in order. */
  lemma {:induction false} PicksAre(live: seq<bool>, n: nat, s: nat, v: nat, rr: nat)
    requires 0 < n <= |live| && rr % n == (s + v) % n
    ensures var vs := Lives(live, n, s, v); Picks(live, n, rr, |vs|) == Slot(n, s, vs)
    decreases n - v
  {
    var vs := Lives(live, n, s, v);
    if vs != [] {
      var x, i := OnePick(live, n, s, v, rr);
      PicksAre(live, n, s, x + 1, (i + 1) % n);
      SlotCons(n, s, vs);
    }
  }

  /** The first pick, and where the cursor and the offsets go on from. */
  lemma {:induction false} OnePick(live: seq<bool>, n: nat, s: nat, v: nat, rr: nat) returns (x: nat, i: nat)
    requires 0 < n <= |live| && rr % n == (s + v) % n && Lives(live, n, s, v) != []
    ensures var vs := Lives(live, n, s, v);
      && v <= x < n && x == vs[0] && i == (s + x) % n && Lives(live, n, s, x + 1) == vs[1..]
      && (i + 1) % n % n == (s + (x + 1)) % n
      && Picks(live, n, rr, |vs|) == [i] + Picks(live, n, (i + 1) % n, |vs[1..]|)
  {
    x := Lives(live, n, s, v)[0];
    i := (s + x) % n;
    ScanFinds(live, n, s, v, rr, 0);
    NextLives(live, n, s, v);
    CursorMoves(n, s, x);
  }

  lemma {:induction false} SlotCons(n: nat, s: nat, vs: seq<nat>)
    requires n > 0 && vs != []
    ensures Slot(n, s, vs) == [(s + vs[0]) % n] + Slot(n, s, vs[1..])
  {
  }

  lemma {:induction false} CursorMoves(n: nat, s: nat, x: nat)
    requires n > 0
    ensures ((s + x) % n + 1) % n % n == (s + (x + 1)) % n
  {
    ModAdd(s + x, 1, n);
    DivIs((s + (x + 1)) % n, n, 0, (s + (x + 1)) % n);
  }

  // ---- fairness ----

  lemma {:induction false} LivesAll(live: seq<bool>, n: nat, s: nat, v: nat, x: nat)
    requires 0 < n <= |live| && v <= x < n && live[(s + x) % n]
    ensures x in Lives(live, n, s, v)
    decreases n - v
  {
    if v < x { LivesAll(live, n, s, v + 1, x); }
  }

  ghost predicate Increasing(vs: seq<nat>) { forall a, b :: 0 <= a < b < |vs| ==> vs[a] < vs[b] }

  lemma {:induction false} IncreasingCons(v: nat, vs: seq<nat>)
    requires Increasing(vs) && forall x :: x in vs ==> v < x
    ensures Increasing([v] + vs)
  {
    var ws := [v] + vs;
    forall a, b | 0 <= a < b < |ws| ensures ws[a] < ws[b] {
      assert ws[b] == vs[b - 1] && vs[b - 1] in vs;
    }
  }

  lemma {:induction false} LivesIncrease(live: seq<bool>, n: nat, s: nat, v: nat)
    requires 0 < n <= |live|
    ensures Increasing(Lives(live, n, s, v))
    decreases n - v
  {
    if v < n {
      LivesIncrease(live, n, s, v + 1);
      IncreasingCons(v, Lives(live, n, s, v + 1));
      assert [] + Lives(live, n, s, v + 1) == Lives(live, n, s, v + 1);
    }
  }

  /** The offset of a slot. */
  lemma {:induction false} OffsetOf(n: nat, s: nat, i: nat) returns (x: nat)
    requires i < n
    ensures x < n && (s + x) % n == i
  {
    var r := s % n;
    x := if r <= i then i - r else i + n - r;
    ModAdd(s, x, n);
    if r <= i { DivIs(r + x, n, 0, i); } else { DivIs(r + x, n, 1, i); }
  }

  /** Different offsets are different slots. */
  lemma {:induction false} OffsetsDiffer(n: nat, s: nat, x: nat, y: nat)
    requires x < y < n
    ensures (s + x) % n != (s + y) % n
  {
    var r := s % n;
    ModAdd(s, x, n);
    ModAdd(s, y, n);
    Reduced(n, r, x);
    Reduced(n, r, y);
  }

  lemma {:induction false} Reduced(n: nat, r: nat, x: nat)
    requires r < n && x < n
    ensures (r + x) % n == if r + x < n then r + x else r + x - n
  {
    if r + x < n { DivIs(r + x, n, 0, r + x); } else { DivIs(r + x, n, 1, r + x - n); }
  }

  ghost predicate Distinct(ps: seq<nat>) { forall a, b :: 0 <= a < b < |ps| ==> ps[a] != ps[b] }

  ghost function LiveSet(live: seq<bool>, n: nat): set<nat>
    requires n <= |live|
  {
    set i: nat | i < n && live[i]
  }

  lemma {:induction false} TurnDistinct(n: nat, rr: nat, vs: seq<nat>)
    requires n > 0 && Increasing(vs) && forall x :: x in vs ==> x < n
    ensures Distinct(Slot(n, rr, vs))
  {
    var ps := Slot(n, rr, vs);
    forall a, b | 0 <= a < b < |ps| ensures ps[a] != ps[b] {
      assert vs[b] in vs;
      OffsetsDiffer(n, rr, vs[a], vs[b]);
    }
  }

  lemma {:induction false} TurnReaches(live: seq<bool>, n: nat, rr: nat, vs: seq<nat>, i: nat)
    requires 0 < n <= |live| && vs == Lives(live, n, rr, 0)
    ensures i in Slot(n, rr, vs) <==> i in LiveSet(live, n)
  {
    var ps := Slot(n, rr, vs);
    if i in LiveSet(live, n) {
      var x := OffsetOf(n, rr, i);
      LivesAll(live, n, rr, 0, x);
      var a :| 0 <= a < |vs| && vs[a] == x;
      assert ps[a] == i;
    }
    if i in ps {
      var a :| 0 <= a < |ps| && ps[a] == i;
      assert vs[a] in vs && i == (rr + vs[a]) % n;
      Below(rr + vs[a], n);
    }
  }

  lemma {:induction false} Below(x: nat, n: nat)
    requires n > 0
    ensures 0 <= x % n < n
  {
  }

  lemma {:induction false} TurnIsFair(live: seq<bool>, n: nat, rr: nat)
    requires 0 < n <= |live|
    ensures var ps := Slot(n, rr, Lives(live, n, rr, 0));
      Distinct(ps) && forall i :: i in ps <==> i in LiveSet(live, n)
  {
    var vs := Lives(live, n, rr, 0);
    LivesIncrease(live, n, rr, 0);
    TurnDistinct(n, rr, vs);
    forall i: nat ensures i in Slot(n, rr, vs) <==> i in LiveSet(live, n) {
      TurnReaches(live, n, rr, vs, i);
    }
  }

  /** From any cursor, even one left over from more slots, as many picks in a row as there are live replicas choose each
      of them exactly once. */
  lemma {:induction false} Fair(live: seq<bool>, n: nat, rr: nat)
    requires 0 < n <= |live|
    ensures var l := LiveSet(live, n); var ps := Picks(live, n, rr, |l|);
      |ps| == |l| && Distinct(ps) && forall i :: i in ps <==> i in l
  {
    var vs := Lives(live, n, rr, 0);
    TurnIsFair(live, n, rr);
    DistinctSize(Slot(n, rr, vs), LiveSet(live, n));
    PicksAre(live, n, rr, 0, rr);
  }

  /** A replica is chosen exactly when one of the slots is live. */
  lemma {:induction false} PicksIfLive(live: seq<bool>, n: nat, rr: nat)
    requires 0 < n <= |live|
    ensures Pick(live, n, rr).Some? <==> exists i :: 0 <= i < n && live[i]
  {
    var r := Pick(live, n, rr);
    if r.Some? { assert live[r.value]; }
    if i: nat :| i < n && live[i] {
      var x := OffsetOf(n, rr, i);
      LivesAll(live, n, rr, 0, x);
      ScanFinds(live, n, rr, 0, rr, 0);
    }
  }
}
