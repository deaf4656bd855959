/** A request that arrives in pieces: process_request decides after every batch, and when that is the decision on the
    whole request. */
module HttpArrival {
  import opened Bytes
  import opened Http
  import opened HttpGrammar

  /** The first decision other than waiting, deciding after each batch; the connection stays open meanwhile. */
  function FirstDecision(sofar: string, batches: seq<string>, maxBody: nat, room: nat): Decision
    decreases |batches|
  {
    if batches == [] then Wait else
    var buf := sofar + batches[0];
    var d := Decide(buf, false, maxBody, room);
    if d.Wait? then FirstDecision(buf, batches[1..], maxBody, room) else d
  }

  /** A proper prefix either holds the end of the head, or stops at most three bytes after it began. */
  lemma {:induction false} PrefixHead(p: string, more: string, eoh: nat)
    requires Find(p + more, EOH, 0) == Some(eoh)
    ensures Find(p, EOH, 0).Some? <==> |p| >= eoh + 4
    ensures |p| >= eoh + 4 ==> Find(p, EOH, 0) == Some(eoh)
  {
    var buf := p + more;
    if |p| >= eoh + 4 {
      assert p[..eoh + 4] == buf[..eoh + 4];
      FindPrefix(buf, p, EOH, eoh);
    } else {
      forall i ensures !OccursAt(p, EOH, i) {
        if 0 <= i && i + 4 <= |p| {
          assert p[i..i + 4] == buf[i..i + 4];
          assert !OccursAt(buf, EOH, i);
        }
      }
    }
  }

  /** While the head is incomplete and short enough the decision is to wait. */
  lemma {:induction false} WaitsForHead(p: string, more: string, maxBody: nat, room: nat, eoh: nat)
    requires Find(p + more, EOH, 0) == Some(eoh) && |p| < eoh + 4 && |p + more| <= room && eoh + 3 <= MAX_HEADER_BYTES
    ensures Decide(p, false, maxBody, room).Wait?
  {
    PrefixHead(p, more, eoh);
  }

  lemma {:induction false} DecidesAlike(sofar: string, batches: seq<string>, buf: string, maxBody: nat, room: nat,
                                        eoh: nat)
    requires sofar + Concat(batches) == buf && |buf| <= room && Find(buf, EOH, 0) == Some(eoh)
    requires eoh + 3 <= MAX_HEADER_BYTES && !Decide(buf, false, maxBody, room).Wait?
    requires Decide(sofar, false, maxBody, room).Wait?
    ensures FirstDecision(sofar, batches, maxBody, room) == Decide(buf, false, maxBody, room)
    decreases |batches|
  {
    assert sofar + [] == sofar;
    if batches != [] {
      var p, more := sofar + batches[0], Concat(batches[1..]);
      Assoc(sofar, batches[0], more);
      if |p| < eoh + 4 {
        WaitsForHead(p, more, maxBody, room, eoh);
      } else {
        PrefixHead(p, more, eoh);
      }
      if Decide(p, false, maxBody, room).Wait? {
        DecidesAlike(p, batches[1..], buf, maxBody, room, eoh);
      } else {
        DecisionsStand(p, more, false, maxBody, room);
      }
    }
  }

  /** The head arrives in one batch but for its last byte: over 32768 bytes without their end are an error. */
  lemma {:induction false} LongHeadRejected(p: string, q: string, maxBody: nat, room: nat, eoh: nat)
    requires Find(p + q, EOH, 0) == Some(eoh) && |p| == eoh + 3 > MAX_HEADER_BYTES
    ensures FirstDecision([], [p, q], maxBody, room) == Reject(400) && Concat([p, q]) == p + q
  {
    assert [] + p == p;
    PrefixHead(p, q, eoh);
    assert [p, q][1..] == [q] && Concat([q]) == q + Concat<char>([]);
  }

  /** A request that is accepted whole is decided the same for every way of splitting it into batches exactly when its
      head without the last byte is within the 32 KiB limit. */
  lemma {:induction false} SplitInvariant(buf: string, maxBody: nat, room: nat, eoh: nat)
    requires Find(buf, EOH, 0) == Some(eoh) && |buf| <= room && Decide(buf, false, maxBody, room).Dispatch?
    ensures (forall batches :: Concat(batches) == buf ==>
               FirstDecision([], batches, maxBody, room) == Decide(buf, false, maxBody, room))
      <==> eoh + 3 <= MAX_HEADER_BYTES
  {
    var d := Decide(buf, false, maxBody, room);
    if eoh + 3 <= MAX_HEADER_BYTES {
      forall batches | Concat(batches) == buf ensures FirstDecision([], batches, maxBody, room) == d {
        EverySplit(batches, buf, maxBody, room, eoh);
      }
    } else {
      var p, q := buf[..eoh + 3], buf[eoh + 3..];
      assert p + q == buf;
      LongHeadRejected(p, q, maxBody, room, eoh);
    }
  }

  lemma {:induction false} EverySplit(batches: seq<string>, buf: string, maxBody: nat, room: nat, eoh: nat)
    requires Concat(batches) == buf && |buf| <= room && Find(buf, EOH, 0) == Some(eoh)
    requires eoh + 3 <= MAX_HEADER_BYTES && !Decide(buf, false, maxBody, room).Wait?
    ensures FirstDecision([], batches, maxBody, room) == Decide(buf, false, maxBody, room)
  {
    assert [] + Concat(batches) == buf && [] + buf == buf;
    WaitsForHead([], buf, maxBody, room, eoh);
    DecidesAlike([], batches, buf, maxBody, room, eoh);
  }

  // ---- a request with its body ----

  /** These bytes are a complete head of r, whatever follows them. */
  ghost predicate Announces(head: string, r: Request)
  {
    |head| >= 4 && Find(head, EOH, 0) == Some(|head| - 4) && forall t :: ParsesAs(head, t, r)
  }

  ghost predicate ParsesAs(head: string, t: string, r: Request) { Parse(head + t) == Ok(r, |head|) }

  lemma {:induction false} PrintedAnnounces(r: Request, ws: seq<Spacing>, head: string)
    requires Good(r, ws) && head == Printed(r, ws)
    ensures Announces(head, r)
  {
    forall t ensures ParsesAs(head, t, r) { PrintedParses(r, ws, t); }
    EndFound(head, r);
  }

  lemma {:induction false} EndFound(head: string, r: Request)
    requires ParsesAs(head, [], r)
    ensures |head| >= 4 && Find(head, EOH, 0) == Some(|head| - 4)
  {
    assert head + [] == head;
  }

  /** The request that head announces, with its body, is acceptable and within room. */
  ghost predicate Fitting(head: string, r: Request, body: string, maxBody: nat, room: nat)
  {
    && Announces(head, r) && |body| == BodyLen(r) && !TooLarge(r, maxBody)
    && |head| <= MAX_HEADER_BYTES + 1 && |head| + |body| < room <= SIZE_MAX
  }

  function Due(head: string, r: Request, body: string, arrived: nat): Decision
  {
    if arrived < |head| + |body| then Wait else Dispatch(r, |head|)
  }

  /** Any prefix of a request and its body waits until both are here, and is then dispatched, whatever follows. */
  lemma {:induction false} PrefixDecision(head: string, r: Request, body: string, p: string, more: string, maxBody: nat,
                                          room: nat)
    requires Fitting(head, r, body, maxBody, room) && head + body <= p + more && |p + more| < room
    ensures Decide(p, false, maxBody, room) == Due(head, r, body, |p|)
  {
    var all := p + more;
    assert all[..|head|] == head;
    if |p| >= |head| {
      assert p == head + p[|head|..];
      assert ParsesAs(head, p[|head|..], r);
      DispatchIff(p, false, maxBody, room, r, |head|);
      OtherwiseIff(p, false, maxBody, room);
    } else {
      assert head == p + head[|p|..];
      PrefixHead(p, head[|p|..], |head| - 4);
      OtherwiseIff(p, false, maxBody, room);
    }
  }

  lemma {:induction false} WaitsUntil(head: string, r: Request, body: string, sofar: string, batches: seq<string>,
                                      k: nat, maxBody: nat, room: nat)
    requires Fitting(head, r, body, maxBody, room) && k < |batches|
    requires head + body <= sofar + Concat(batches) && |sofar + Concat(batches)| < room
    requires |sofar + Concat(batches[..k])| < |head| + |body| <= |sofar + Concat(batches[..k + 1])|
    ensures FirstDecision(sofar, batches[..k], maxBody, room) == Wait
    ensures FirstDecision(sofar, batches, maxBody, room) == Dispatch(r, |head|)
    decreases k
  {
    var buf, rest := sofar + batches[0], batches[1..];
    Assoc(sofar, batches[0], Concat(rest));
    PrefixDecision(head, r, body, buf, Concat(rest), maxBody, room);
    assert batches[..k + 1][1..] == rest[..k];
    Assoc(sofar, batches[0], Concat(rest[..k]));
    if k > 0 {
      assert batches[..k][0] == batches[0] && batches[..k][1..] == rest[..k - 1];
      Assoc(sofar, batches[0], Concat(rest[..k - 1]));
      WaitsUntil(head, r, body, buf, rest, k - 1, maxBody, room);
    }
  }

  /** However a well-formed request and its body are split into batches, within the limits and the room: nothing is done
      before the last byte of the body is here, and then the request is dispatched, with its body after its head in the
      buffer. */
  lemma {:induction false} DispatchedWithBody(r: Request, ws: seq<Spacing>, body: string, batches: seq<string>, k: nat,
                                              maxBody: nat, room: nat)
    requires Good(r, ws) && |body| == BodyLen(r) && !TooLarge(r, maxBody) && k < |batches|
    requires |Printed(r, ws)| <= MAX_HEADER_BYTES + 1
    requires Printed(r, ws) + body <= Concat(batches) && |Concat(batches)| < room <= SIZE_MAX
    requires |Concat(batches[..k])| < |Printed(r, ws)| + |body| <= |Concat(batches[..k + 1])|
    ensures FirstDecision([], batches[..k], maxBody, room) == Wait
    ensures FirstDecision([], batches, maxBody, room) == Dispatch(r, |Printed(r, ws)|)
    ensures Printed(r, ws) + body <= Concat(batches[..k + 1])
  {
    var head := Printed(r, ws);
    PrintedAnnounces(r, ws, head);
    assert forall s: string :: [] + s == s;
    WaitsUntil(head, r, body, [], batches, k, maxBody, room);
    assert batches == batches[..k + 1] + batches[k + 1..];
    ConcatAppend(batches[..k + 1], batches[k + 1..]);
    PrefixOf(head + body, Concat(batches[..k + 1]), Concat(batches[k + 1..]));
  }

  lemma {:induction false} PrefixOf(a: string, b: string, t: string)
    requires a <= b + t && |a| <= |b|
    ensures a <= b
  {
    assert (b + t)[..|a|] == b[..|a|];
  }

  // ---- a request that is accepted whole and refused in two batches ----

  const ROOM := 65536

  /** A GET with one field of n characters. */
  function LongRequest(n: nat): Request
  {
    Request("GET", "/", 1, [Header("x", seq(n, _ => 'a'))], None)
  }

  function LongText(n: nat): string { Printed(LongRequest(n), [Spacing([], [])]) }

  lemma {:induction false} PlainWithoutCr(l: string)
    requires '\r' !in l
    ensures Plain(l)
  {
    forall i ensures !OccursAt(l, CRLF, i) { CrlfOccurs(l, i); }
  }

  lemma {:induction false} LongIsGood(n: nat)
    requires n > 0
    ensures Good(LongRequest(n), [Spacing([], [])])
    ensures |LongText(n)| == n + 22
  {
    var r, ws := LongRequest(n), [Spacing([], [])];
    var h := r.headers[0];
    PlainWithoutCr(StartLine(r));
    PlainWithoutCr(FieldLine(h, ws[0]));
    assert GoodField(h, ws[0]);
    assert !IsLength(h);
    assert Exact(Fields(r.headers, r.length));
    LongLength(n);
  }

  lemma {:induction false} LongLength(n: nat)
    ensures |LongText(n)| == n + 22
  {
    var r, ws := LongRequest(n), [Spacing([], [])];
    var ls := [StartLine(r)] + FieldLines(r.headers, ws);
    assert ls[1..] == FieldLines(r.headers, ws) && ls[1..][1..] == [];
    assert |Lines(ls[1..])| == |ls[1]| + 2;
  }

  lemma {:induction false} WholeAccepted(buf: string, r: Request, maxBody: nat, room: nat)
    requires Parse(buf) == Ok(r, |buf|) && r.length.None?
    ensures |buf| >= 4 && Find(buf, EOH, 0) == Some(|buf| - 4)
    ensures FirstDecision([], [buf], maxBody, room) == Dispatch(r, |buf|)
  {
    assert [] + buf == buf;
  }

  lemma {:induction false} LongParses(n: nat)
    requires 0 < n
    ensures Parse(LongText(n)) == Ok(LongRequest(n), |LongText(n)|) && |LongText(n)| == n + 22
  {
    LongIsGood(n);
    PrintedParses(LongRequest(n), [Spacing([], [])], []);
    assert LongText(n) + [] == LongText(n);
  }

  /** In one batch, within the 64 KiB buffer, the request is dispatched ... */
  lemma {:induction false} LongDispatched(n: nat)
    requires 0 < n && n + 22 <= ROOM
    ensures FirstDecision([], [LongText(n)], 0, ROOM) == Dispatch(LongRequest(n), n + 22)
  {
    LongParses(n);
    WholeAccepted(LongText(n), LongRequest(n), 0, ROOM);
  }

  lemma {:induction false} LongHeadEnd(n: nat) returns (buf: string)
    requires n > 0
    ensures buf == LongText(n) && |buf| == n + 22 && Find(buf, EOH, 0) == Some(n + 18)
  {
    buf := LongText(n);
    LongParses(n);
    WholeAccepted(buf, LongRequest(n), 0, ROOM);
  }

  /** ... and cut before its last byte it is a 400. */
  lemma {:induction false} LongCutRejected(n: nat) returns (p: string, q: string)
    requires n + 21 > MAX_HEADER_BYTES
    ensures p + q == LongText(n) && |q| == 1 && FirstDecision([], [p, q], 0, ROOM) == Reject(400)
  {
    var buf := LongHeadEnd(n);
    p, q := buf[..n + 21], buf[n + 21..];
    assert p + q == buf;
    LongHeadRejected(p, q, 0, ROOM, n + 18);
  }
}
