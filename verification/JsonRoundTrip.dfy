/** Parsing what was printed gives the value back, for every value within the parser's limits. */
module JsonRoundTrip {
  import opened Bytes
  import opened Decimals
  import opened Json

  /** Within the limits of the parser, below `depth` open containers: at most 32 levels, at most 64 members in a
      container, numbers whole and below 10^15 in magnitude. Strings are arbitrary. */
  ghost predicate Fits(v: Json, depth: nat)
    decreases v
  {
    && depth < MAX_DEPTH
    && match v
       case Num(n) => Whole(n)
       case Arr(items) => |items| <= MAX_MEMBERS && forall x :: x in items ==> Fits(x, depth + 1)
       case Obj(members) => |members| <= MAX_MEMBERS && forall m :: m in members ==> Fits(m.val, depth + 1)
       case _ => true
  }

  /** The text from p on starts with t. */
  ghost predicate Stands(s: string, t: string, p: nat)
  {
    p + |t| <= |s| && forall i :: 0 <= i < |t| ==> s[p + i] == t[i]
  }

  lemma {:induction false} Split(s: string, a: string, b: string, p: nat)
    requires Stands(s, a + b, p)
    ensures Stands(s, a, p) && Stands(s, b, p + |a|)
  {
    var t := a + b;
    assert forall i :: 0 <= i < |a| ==> s[p + i] == t[i] == a[i];
    forall i | 0 <= i < |b| ensures s[p + |a| + i] == b[i] {
      assert s[p + (|a| + i)] == t[|a| + i];
    }
  }

  lemma {:induction false} First(s: string, a: string, p: nat)
    requires Stands(s, a, p) && a != []
    ensures p < |s| && s[p] == a[0]
  {
    assert s[p + 0] == a[0];
  }

  lemma {:induction false} NoWs(s: string, p: nat)
    requires p < |s| && !IsWs(s[p])
    ensures SkipWs(s, p) == p
  {
  }

  // ---- strings ----

  lemma {:induction false} HexCharValue(d: nat)
    requires d < 16
    ensures HexValue(HexChar(d)) == Some(d)
  {
  }

  lemma {:induction false} UnitControl(s: string, p: nat, c: char)
    requires c < 32 as char && p + 6 <= |s|
    requires s[p] == '\\' && s[p + 1] == 'u' && s[p + 2] == '0' && s[p + 3] == '0'
    requires s[p + 4] == HexChar(c as nat / 16) && s[p + 5] == HexChar(c as nat % 16)
    ensures Unit(s, p) == Some(([c], p + 6))
  {
    HexCharValue(c as nat / 16);
    HexCharValue(c as nat % 16);
    assert HexValue('0') == Some(0);
    assert HexRun(s, p + 2, 1) == Some(0) && HexRun(s, p + 2, 2) == Some(0);
    assert HexRun(s, p + 2, 3) == Some(c as nat / 16);
    assert HexRun(s, p + 2, 4) == Some(c as nat);
  }

  lemma {:induction false} UnitEscape(s: string, p: nat, c: char)
    requires Stands(s, Escape(c), p)
    ensures p < |s| && s[p] != '"' && Unit(s, p) == Some(([c], p + |Escape(c)|))
  {
    var e := Escape(c);
    assert s[p + 0] == e[0];
    if |e| == 6 {
      assert s[p + 1] == e[1] && s[p + 2] == e[2] && s[p + 3] == e[3] && s[p + 4] == e[4] && s[p + 5] == e[5];
      UnitControl(s, p, c);
    } else if |e| == 2 {
      assert s[p + 1] == e[1];
      assert Simple(e[1]) == Some(c);
    }
  }

  /** Where c's spelling stands, unit reads c. */
  ghost predicate ReadsBack(unit: Units, esc: char -> string, s: string, p: nat, c: char)
  {
    Stands(s, esc(c), p) ==> p < |s| && s[p] != '"' && esc(c) != [] && unit(s, p) == Some(([c], p + |esc(c)|))
  }

  ghost predicate Readable(unit: Units, esc: char -> string)
  {
    forall s, p: nat, c :: ReadsBack(unit, esc, s, p, c)
  }

  lemma {:induction false} EscapeReadable()
    ensures Readable(Unit, Escape)
  {
    forall s, p: nat, c ensures ReadsBack(Unit, Escape, s, p, c) {
      if Stands(s, Escape(c), p) { UnitEscape(s, p, c); }
    }
  }

  lemma {:induction false} BodyText(unit: Units, esc: char -> string, s: string, p: nat,
                                    x: string, i: nat)
    requires Readable(unit, esc) && i <= |x| && Stands(s, Spelled(esc, x, i) + ['"'], p)
    ensures Body(unit, s, p) == Some((x[i..], p + |Spelled(esc, x, i)| + 1))
    decreases |x| - i
  {
    if i == |x| {
      assert [] + ['"'] == ['"'];
      First(s, ['"'], p);
      assert x[i..] == [];
    } else {
      var e, t := esc(x[i]), Spelled(esc, x, i + 1);
      Assoc(e, t, ['"']);
      Split(s, e, t + ['"'], p);
      assert ReadsBack(unit, esc, s, p, x[i]);
      BodyText(unit, esc, s, p + |e|, x, i + 1);
      SuffixCons(x, i);
    }
  }

  lemma {:induction false} QuotedText(s: string, p: nat, x: string)
    requires Stands(s, Quoted(x), p)
    ensures p < |s| && s[p] == '"' && StringAt(s, p + 1) == Some((x, p + |Quoted(x)|))
  {
    EscapeReadable();
    QuotedBody(Unit, Escape, s, p, x);
  }

  lemma {:induction false} QuotedBody(unit: Units, esc: char -> string, s: string,
                                      p: nat, x: string)
    requires Readable(unit, esc)
    requires Stands(s, ['"'] + Spelled(esc, x, 0) + ['"'], p)
    ensures p < |s| && s[p] == '"' && Body(unit, s, p + 1) == Some((x, p + |Spelled(esc, x, 0)| + 2))
  {
    var e := Spelled(esc, x, 0);
    Assoc(['"'], e, ['"']);
    Split(s, ['"'], e + ['"'], p);
    First(s, ['"'], p);
    BodyText(unit, esc, s, p + 1, x, 0);
    assert x[0..] == x;
  }

  // ---- numbers ----

  predicate Stops(s: string, e: nat) { e <= |s| && (e == |s| || !NumChar(s[e])) }

  lemma {:induction false} NumRun(s: string, p: nat, e: nat)
    requires p <= e && Stops(s, e) && forall i :: p <= i < e ==> NumChar(s[i])
    ensures NumEnd(s, p) == e
    decreases e - p
  {
    if p < e { NumRun(s, p + 1, e); }
  }

  lemma {:induction false} IntegerLength(n: int)
    requires -WHOLE < n < WHOLE
    ensures |Integer(n)| <= NUM_BUF
  {
    assert Pow10(15) == WHOLE;
    NumeralLength(if n < 0 then -n else n, 15);
  }

  lemma {:induction false} NumberText(c: Libc, s: string, p: nat, n: real, depth: nat)
    requires ReadsIntegers(c) && Whole(n) && depth < MAX_DEPTH
    requires Stands(s, Number(c, n), p) && Stops(s, p + |Number(c, n)|)
    ensures Value(c, s, p, depth) == Some((Num(n), p + |Number(c, n)|))
  {
    var t := Integer(n.Floor);
    var e := p + |t|;
    forall i | p <= i < e ensures s[i] == t[i - p] && NumChar(s[i]) {
      assert s[p + (i - p)] == t[i - p];
    }
    assert s[p..e] == t;
    NumRun(s, p, e);
    assert ReadsInteger(c, n.Floor);
    IntegerLength(n.Floor);
    NoWs(s, p);
  }

  // ---- values ----

  /** parse_value at p returns v and leaves off at e. */
  ghost predicate ParsedAs(c: Libc, s: string, p: nat, depth: nat, v: Json, e: nat)
  {
    p <= |s| && Value(c, s, p, depth) == Some((v, e))
  }

  lemma {:induction false} WordText(c: Libc, s: string, p: nat, v: Json, depth: nat)
    requires (v.Null? || v.Bool?) && depth < MAX_DEPTH && Stands(s, Text(c, v), p)
    ensures ParsedAs(c, s, p, depth, v, p + |Text(c, v)|)
  {
    First(s, Text(c, v), p);
    NoWs(s, p);
    assert s[p..p + |Text(c, v)|] == Text(c, v);
  }

  lemma {:induction false} StrText(c: Libc, s: string, p: nat, x: string, depth: nat)
    requires depth < MAX_DEPTH && Stands(s, Quoted(x), p)
    ensures Value(c, s, p, depth) == Some((Str(x), p + |Quoted(x)|))
  {
    QuotedText(s, p, x);
    NoWs(s, p);
  }

  // ---- containers ----

  lemma {:induction false} ArrayOpen(c: Libc, s: string, p: nat, depth: nat)
    requires p + 1 < |s| && s[p] == '[' && !IsWs(s[p + 1]) && s[p + 1] != ']' && depth < MAX_DEPTH
    ensures Value(c, s, p, depth) == ArrayFrom(ValuesAfter(c, s, p, depth + 1), s, p + 1, [])
  {
    NoWs(s, p);
    NoWs(s, p + 1);
  }

  lemma {:induction false} ArrayStep(vals: Values, s: string, p: nat, acc: seq<Json>, v: Json, q: nat)
    requires p < q < |s| && p < |vals| && vals[p] == Some((v, q)) && s[q] in {',', ']'}
    ensures s[q] == ',' ==> ArrayFrom(vals, s, p, acc) == ArrayFrom(vals, s, q + 1, Keep(acc, v))
    ensures s[q] == ']' ==> ArrayFrom(vals, s, p, acc) == Some((Arr(Keep(acc, v)), q + 1))
  {
    NoWs(s, q);
  }

  lemma {:induction false} ObjectOpen(c: Libc, s: string, p: nat, depth: nat)
    requires p + 1 < |s| && s[p] == '{' && s[p + 1] == '"' && depth < MAX_DEPTH
    ensures Value(c, s, p, depth) == ObjectFrom(KeyAt, ValuesAfter(c, s, p, depth + 1), s, p + 1, [])
  {
    NoWs(s, p);
    NoWs(s, p + 1);
  }

  lemma {:induction false} KeyStep(s: string, p: nat, k: string, d: nat)
    requires p + 1 <= d < |s| && s[p] == '"' && StringAt(s, p + 1) == Some((k, d)) && s[d] == ':'
    ensures KeyAt(s, p) == Some((k, d + 1))
  {
    NoWs(s, p);
    NoWs(s, d);
  }

  lemma {:induction false} ObjectStep(keyAt: Units, vals: Values, s: string, p: nat, acc: seq<Member>, k: string,
                                      e: nat, v: Json, q: nat)
    requires p < e < q < |s| && keyAt(s, p) == Some((k, e))
    requires e < |vals| && vals[e] == Some((v, q)) && s[q] in {',', '}'}
    ensures s[q] == ',' ==>
      ObjectFrom(keyAt, vals, s, p, acc) == ObjectFrom(keyAt, vals, s, q + 1, Keep(acc, Member(k, v)))
    ensures s[q] == '}' ==> ObjectFrom(keyAt, vals, s, p, acc) == Some((Obj(Keep(acc, Member(k, v))), q + 1))
  {
    NoWs(s, q);
  }

  /** What a value's text starts with. */
  lemma {:induction false} TextStart(c: Libc, v: Json, depth: nat)
    requires Fits(v, depth)
    ensures var t := Text(c, v); t != [] && !IsWs(t[0]) && t[0] != ']' && t[0] != ','
  {
  }

  /** Where the text t of x stands, the value read is x. */
  ghost predicate ReadAs(vals: Values, s: string, t: string, x: Json, q: nat)
  {
    Stands(s, t, q) && Stops(s, q + |t|) ==> q < |vals| && t != [] && vals[q] == Some((x, q + |t|))
  }

  ghost predicate AllRead(vals: Values, s: string, ts: seq<string>, xs: seq<Json>, p: nat)
    requires |ts| == |xs|
  {
    forall i, q: nat :: 0 <= i < |ts| && p <= q ==> ReadAs(vals, s, ts[i], xs[i], q)
  }

  lemma {:induction false} ItemText(vals: Values, s: string, p: nat, acc: seq<Json>, t: string, x: Json, close: string)
    requires ReadAs(vals, s, t, x, p) && Stands(s, t + close, p) && close != [] && close[0] in {',', ']'}
    ensures p + |t| < |s| && s[p + |t|] == close[0] && t != []
    ensures close[0] == ',' ==> ArrayFrom(vals, s, p, acc) == ArrayFrom(vals, s, p + |t| + 1, Keep(acc, x))
    ensures close[0] == ']' ==> ArrayFrom(vals, s, p, acc) == Some((Arr(Keep(acc, x)), p + |t| + 1))
  {
    Split(s, t, close, p);
    First(s, close, p + |t|);
    ArrayStep(vals, s, p, acc, x, p + |t|);
  }

  /** rs[i] is the rest of a container after its i-th member. */
  ghost predicate Chain(ts: seq<string>, rs: seq<string>, close: char)
  {
    |rs| == |ts| && forall i :: 0 <= i < |ts| ==> Link(ts, rs, close, i)
  }

  ghost predicate Link(ts: seq<string>, rs: seq<string>, close: char, i: nat)
    requires i < |ts| == |rs|
  {
    if i + 1 == |ts| then rs[i] == [close] else rs[i] == [','] + (ts[i + 1] + rs[i + 1])
  }

  lemma {:induction false} LinkIs(ts: seq<string>, rs: seq<string>, close: char, i: nat)
    requires Chain(ts, rs, close) && i < |ts|
    ensures rs[i] != [] && rs[i][0] == if i + 1 == |ts| then close else ','
    ensures i + 1 == |ts| ==> |rs[i]| == 1
    ensures i + 1 < |ts| ==> rs[i] == [','] + (ts[i + 1] + rs[i + 1]) && |rs[i]| == 1 + |ts[i + 1]| + |rs[i + 1]|
  {
    assert Link(ts, rs, close, i);
  }

  function Rest(ts: seq<string>, close: char, i: nat): string { Joined(ts, i + 1) + [close] }

  lemma {:induction false} RestIs(ts: seq<string>, close: char, i: nat)
    requires i < |ts|
    ensures i + 1 == |ts| ==> Rest(ts, close, i) == [close]
    ensures i + 1 < |ts| ==> Rest(ts, close, i) == [','] + (ts[i + 1] + Rest(ts, close, i + 1))
  {
    if i + 1 < |ts| {
      Assoc([','], ts[i + 1], Joined(ts, i + 2));
      Assoc([','], ts[i + 1] + Joined(ts, i + 2), [close]);
      Assoc(ts[i + 1], Joined(ts, i + 2), [close]);
    }
  }

  lemma {:induction false} Rests(ts: seq<string>, close: char) returns (rs: seq<string>)
    ensures Chain(ts, rs, close)
    ensures ts != [] ==> Joined(ts, 0) + [close] == ts[0] + rs[0]
  {
    rs := seq(|ts|, i requires 0 <= i < |ts| => Rest(ts, close, i));
    forall i | 0 <= i < |ts| ensures Link(ts, rs, close, i) {
      RestIs(ts, close, i);
    }
    if ts != [] {
      assert [] + ts[0] == ts[0];
      Assoc(ts[0], Joined(ts, 1), [close]);
    }
  }

  lemma {:induction false} Skip(s: string, t: string, rest: string, p: nat)
    requires Stands(s, t + ([','] + rest), p)
    ensures Stands(s, rest, p + |t| + 1)
  {
    Split(s, t, [','] + rest, p);
    Split(s, [','], rest, p + |t|);
  }

  lemma {:induction false} KeepNext<T>(xs: seq<T>, i: nat)
    requires i < |xs| <= MAX_MEMBERS
    ensures Keep(xs[..i], xs[i]) == xs[..i + 1]
  {
  }

  lemma {:induction false} ItemsText(vals: Values, s: string, p: nat, ts: seq<string>, rs: seq<string>, xs: seq<Json>,
                                     i: nat, e: nat)
    requires |ts| == |xs| && i < |xs| <= MAX_MEMBERS && AllRead(vals, s, ts, xs, p) && Chain(ts, rs, ']')
    requires Stands(s, ts[i] + rs[i], p) && e == p + |ts[i]| + |rs[i]|
    ensures ArrayFrom(vals, s, p, xs[..i]) == Some((Arr(xs), e))
    decreases |xs| - i
  {
    var t := ts[i];
    LinkIs(ts, rs, ']', i);
    assert ReadAs(vals, s, t, xs[i], p);
    ItemText(vals, s, p, xs[..i], t, xs[i], rs[i]);
    KeepNext(xs, i);
    if i + 1 < |ts| {
      Skip(s, t, ts[i + 1] + rs[i + 1], p);
      ItemsText(vals, s, p + |t| + 1, ts, rs, xs, i + 1, e);
    } else {
      assert xs[..i + 1] == xs;
    }
  }

  /** A member's text: its key is read, and then its value. */
  lemma {:induction false} MemberParts(s: string, p: nat, k: string, t: string, rest: string) returns (e: nat)
    requires Stands(s, MemberText(k, t) + rest, p)
    ensures e == p + |Quoted(k)| + 1 && e + |t| == p + |MemberText(k, t)|
    ensures KeyAt(s, p) == Some((k, e)) && Stands(s, t + rest, e)
  {
    var q := Quoted(k);
    e := p + |q| + 1;
    Assoc(q + [':'], t, rest);
    Split(s, q + [':'], t + rest, p);
    Split(s, q, [':'], p);
    First(s, [':'], p + |q|);
    QuotedText(s, p, k);
    KeyStep(s, p, k, p + |q|);
  }

  /** Where the text u of a member stands, its key and its value are read. */
  ghost predicate MemberRead(keyAt: Units, vals: Values, s: string, u: string, m: Member, q: nat)
  {
    Stands(s, u, q) && Stops(s, q + |u|) ==>
      exists e: nat ::
        q < e < q + |u| && keyAt(s, q) == Some((m.key, e)) && e < |vals| && vals[e] == Some((m.val, q + |u|))
  }

  lemma {:induction false} MemberIsRead(vals: Values, s: string, k: string, t: string, x: Json, q: nat)
    requires forall q': nat :: q <= q' ==> ReadAs(vals, s, t, x, q')
    ensures MemberRead(KeyAt, vals, s, MemberText(k, t), Member(k, x), q)
  {
    if Stands(s, MemberText(k, t), q) && Stops(s, q + |MemberText(k, t)|) {
      assert MemberText(k, t) + [] == MemberText(k, t) && t + [] == t;
      var e := MemberParts(s, q, k, t, []);
      assert ReadAs(vals, s, t, x, e);
    }
  }

  lemma {:induction false} OneMember(keyAt: Units, vals: Values, s: string, p: nat, acc: seq<Member>, u: string,
                                     m: Member, rest: string)
    requires MemberRead(keyAt, vals, s, u, m, p)
    requires Stands(s, u + rest, p) && rest != [] && rest[0] in {',', '}'}
    ensures u != [] && p + |u| < |s| && s[p + |u|] == rest[0]
    ensures rest[0] == ',' ==>
      ObjectFrom(keyAt, vals, s, p, acc) == ObjectFrom(keyAt, vals, s, p + |u| + 1, Keep(acc, m))
    ensures rest[0] == '}' ==> ObjectFrom(keyAt, vals, s, p, acc) == Some((Obj(Keep(acc, m)), p + |u| + 1))
  {
    Split(s, u, rest, p);
    First(s, rest, p + |u|);
    assert Stops(s, p + |u|);
    var e: nat :| p < e < p + |u| && keyAt(s, p) == Some((m.key, e)) && e < |vals| && vals[e] == Some((m.val, p + |u|));
    ObjectStep(keyAt, vals, s, p, acc, m.key, e, m.val, p + |u|);
  }

  ghost predicate AllMembersRead(keyAt: Units, vals: Values, s: string, us: seq<string>, ms: seq<Member>, p: nat)
    requires |us| == |ms|
  {
    forall i, q: nat :: 0 <= i < |ms| && p <= q ==> MemberRead(keyAt, vals, s, us[i], ms[i], q)
  }

  lemma {:induction false} MembersText(keyAt: Units, vals: Values, s: string, p: nat, us: seq<string>, rs: seq<string>,
                                       ms: seq<Member>, i: nat, e: nat)
    requires |us| == |ms| && i < |ms| <= MAX_MEMBERS && AllMembersRead(keyAt, vals, s, us, ms, p)
    requires Chain(us, rs, '}') && Stands(s, us[i] + rs[i], p) && e == p + |us[i]| + |rs[i]|
    ensures ObjectFrom(keyAt, vals, s, p, ms[..i]) == Some((Obj(ms), e))
    decreases |ms| - i
  {
    var u := us[i];
    LinkIs(us, rs, '}', i);
    assert MemberRead(keyAt, vals, s, u, ms[i], p);
    OneMember(keyAt, vals, s, p, ms[..i], u, ms[i], rs[i]);
    KeepNext(ms, i);
    if i + 1 < |us| {
      Skip(s, u, us[i + 1] + rs[i + 1], p);
      MembersText(keyAt, vals, s, p + |u| + 1, us, rs, ms, i + 1, e);
    } else {
      assert ms[..i + 1] == ms;
    }
  }

  /** A printed container after its opening bracket. */
  lemma {:induction false} Opened(s: string, p: nat, open: char, ts: seq<string>, close: char) returns (rs: seq<string>)
    requires ts != [] && ts[0] != [] && Stands(s, [open] + Joined(ts, 0) + [close], p)
    ensures Chain(ts, rs, close) && Stands(s, ts[0] + rs[0], p + 1)
    ensures p + 1 < |s| && s[p] == open && s[p + 1] == ts[0][0]
    ensures |[open] + Joined(ts, 0) + [close]| == 1 + |ts[0]| + |rs[0]|
  {
    rs := Rests(ts, close);
    Assoc([open], Joined(ts, 0), [close]);
    Split(s, [open], ts[0] + rs[0], p);
    First(s, [open], p);
    First(s, ts[0] + rs[0], p + 1);
  }

  lemma {:induction false} ArrBody(vals: Values, s: string, p: nat, ts: seq<string>, xs: seq<Json>, e: nat)
    requires |ts| == |xs| && 0 < |xs| <= MAX_MEMBERS && AllRead(vals, s, ts, xs, p + 1) && ts[0] != []
    requires Stands(s, ['['] + Joined(ts, 0) + [']'], p) && e == p + |['['] + Joined(ts, 0) + [']']|
    ensures p + 1 < |s| && s[p] == '[' && s[p + 1] == ts[0][0]
    ensures ArrayFrom(vals, s, p + 1, []) == Some((Arr(xs), e))
  {
    var rs := Opened(s, p, '[', ts, ']');
    ItemsText(vals, s, p + 1, ts, rs, xs, 0, e);
    assert xs[..0] == [];
  }

  lemma {:induction false} ObjBody(keyAt: Units, vals: Values, s: string, p: nat, us: seq<string>, ms: seq<Member>,
                                   e: nat)
    requires |us| == |ms| && 0 < |ms| <= MAX_MEMBERS && AllMembersRead(keyAt, vals, s, us, ms, p + 1) && us[0] != []
    requires Stands(s, ['{'] + Joined(us, 0) + ['}'], p) && e == p + |['{'] + Joined(us, 0) + ['}']|
    ensures p + 1 < |s| && s[p] == '{' && s[p + 1] == us[0][0]
    ensures ObjectFrom(keyAt, vals, s, p + 1, []) == Some((Obj(ms), e))
  {
    var rs := Opened(s, p, '{', us, '}');
    MembersText(keyAt, vals, s, p + 1, us, rs, ms, 0, e);
    assert ms[..0] == [];
  }

  /** Wherever a value's text stands, the parser reads that value and stops at the end of the text. */
  lemma {:induction false} ValueText(c: Libc, s: string, p: nat, v: Json, depth: nat)
    requires ReadsIntegers(c) && Fits(v, depth)
    requires Stands(s, Text(c, v), p) && Stops(s, p + |Text(c, v)|)
    ensures ParsedAs(c, s, p, depth, v, p + |Text(c, v)|)
    decreases v, 1, 0
  {
    match v
    case Null => WordText(c, s, p, v, depth);
    case Bool(_) => WordText(c, s, p, v, depth);
    case Num(n) => NumberText(c, s, p, n, depth);
    case Str(x) => StrText(c, s, p, x, depth);
    case Arr(xs) => ArrText(c, s, p, v, depth);
    case Obj(ms) => ObjText(c, s, p, v, depth);
  }

  /** The values after an opening bracket are read, by induction on the container. */
  lemma {:induction false} InnerRead(c: Libc, s: string, p: nat, x: Json, depth: nat, q: nat)
    requires ReadsIntegers(c) && Fits(x, depth) && p < q && p <= |s|
    ensures ReadAs(ValuesAfter(c, s, p, depth), s, Text(c, x), x, q)
    decreases x, 2, 0
  {
    if Stands(s, Text(c, x), q) && Stops(s, q + |Text(c, x)|) {
      TextStart(c, x, depth);
      ValueText(c, s, q, x, depth);
    }
  }

  lemma {:induction false} ItemsRead(c: Libc, s: string, p: nat, v: Json, ts: seq<string>, depth: nat)
    requires v.Arr? && ts == Items(c, v) && ReadsIntegers(c) && Fits(v, depth) && p <= |s|
    ensures AllRead(ValuesAfter(c, s, p, depth + 1), s, ts, v.items, p + 1)
    decreases v, 0, 0
  {
    var xs, vals := v.items, ValuesAfter(c, s, p, depth + 1);
    forall i, q: nat | 0 <= i < |ts| && p + 1 <= q ensures ReadAs(vals, s, ts[i], xs[i], q) {
      assert xs[i] in xs;
      InnerRead(c, s, p, xs[i], depth + 1, q);
    }
  }

  lemma {:induction false} ArrTexts(c: Libc, v: Json, depth: nat) returns (ts: seq<string>)
    requires v.Arr? && v.items != [] && Fits(v, depth)
    ensures ts == Items(c, v) && |ts| == |v.items| <= MAX_MEMBERS && depth < MAX_DEPTH
    ensures Text(c, v) == ['['] + Joined(ts, 0) + [']'] && ts[0] != [] && !IsWs(ts[0][0]) && ts[0][0] != ']'
  {
    ts := Items(c, v);
    assert v.items[0] in v.items;
    TextStart(c, v.items[0], depth + 1);
  }

  lemma {:induction false} ArrReady(c: Libc, s: string, p: nat, v: Json, depth: nat) returns (ts: seq<string>)
    requires v.Arr? && v.items != [] && ReadsIntegers(c) && Fits(v, depth) && p <= |s|
    ensures |ts| == |v.items| <= MAX_MEMBERS && depth < MAX_DEPTH
    ensures Text(c, v) == ['['] + Joined(ts, 0) + [']'] && ts[0] != [] && !IsWs(ts[0][0]) && ts[0][0] != ']'
    ensures AllRead(ValuesAfter(c, s, p, depth + 1), s, ts, v.items, p + 1)
    decreases v, 0, 1
  {
    ts := ArrTexts(c, v, depth);
    ItemsRead(c, s, p, v, ts, depth);
  }

  lemma {:induction false} ArrOpened(c: Libc, s: string, p: nat, ts: seq<string>, xs: seq<Json>, depth: nat, e: nat)
    requires |ts| == |xs| && 0 < |xs| <= MAX_MEMBERS && depth < MAX_DEPTH && p <= |s|
    requires AllRead(ValuesAfter(c, s, p, depth + 1), s, ts, xs, p + 1)
    requires ts[0] != [] && !IsWs(ts[0][0]) && ts[0][0] != ']'
    requires Stands(s, ['['] + Joined(ts, 0) + [']'], p) && e == p + |['['] + Joined(ts, 0) + [']']|
    ensures ParsedAs(c, s, p, depth, Arr(xs), e)
  {
    ArrBody(ValuesAfter(c, s, p, depth + 1), s, p, ts, xs, e);
    ArrayOpen(c, s, p, depth);
  }

  lemma {:induction false} ArrText(c: Libc, s: string, p: nat, v: Json, depth: nat)
    requires v.Arr? && ReadsIntegers(c) && Fits(v, depth) && Stands(s, Text(c, v), p)
    ensures ParsedAs(c, s, p, depth, v, p + |Text(c, v)|)
    decreases v, 0, 2
  {
    if v.items == [] {
      EmptyText(c, s, p, v, depth);
    } else {
      var ts := ArrReady(c, s, p, v, depth);
      assert v == Arr(v.items);
      ArrOpened(c, s, p, ts, v.items, depth, p + |Text(c, v)|);
    }
  }

  lemma {:induction false} EmptyText(c: Libc, s: string, p: nat, v: Json, depth: nat)
    requires (v == Arr([]) || v == Obj([])) && depth < MAX_DEPTH && Stands(s, Text(c, v), p)
    ensures ParsedAs(c, s, p, depth, v, p + |Text(c, v)|)
  {
    var t := Text(c, v);
    assert t == if v.Arr? then ['[', ']'] else ['{', '}'];
    assert s[p + 0] == t[0] && s[p + 1] == t[1];
    NoWs(s, p);
    NoWs(s, p + 1);
  }

  lemma {:induction false} MembersRead(c: Libc, s: string, p: nat, v: Json, us: seq<string>, depth: nat)
    requires v.Obj? && us == Members(c, v) && ReadsIntegers(c) && Fits(v, depth) && p <= |s|
    ensures AllMembersRead(KeyAt, ValuesAfter(c, s, p, depth + 1), s, us, v.members, p + 1)
    decreases v, 0, 0
  {
    var ms, vals := v.members, ValuesAfter(c, s, p, depth + 1);
    forall i, q: nat | 0 <= i < |ms| && p + 1 <= q ensures MemberRead(KeyAt, vals, s, us[i], ms[i], q) {
      var m := ms[i];
      assert m in ms;
      forall q': nat | q <= q' ensures ReadAs(vals, s, Text(c, m.val), m.val, q') {
        InnerRead(c, s, p, m.val, depth + 1, q');
      }
      MemberIsRead(vals, s, m.key, Text(c, m.val), m.val, q);
    }
  }

  lemma {:induction false} ObjTexts(c: Libc, v: Json, depth: nat) returns (us: seq<string>)
    requires v.Obj? && v.members != [] && Fits(v, depth)
    ensures us == Members(c, v) && |us| == |v.members| <= MAX_MEMBERS && depth < MAX_DEPTH
    ensures Text(c, v) == ['{'] + Joined(us, 0) + ['}'] && us[0] != [] && us[0][0] == '"'
  {
    us := Members(c, v);
    MemberStart(v.members[0].key, Text(c, v.members[0].val));
  }

  lemma {:induction false} ObjOpened(c: Libc, s: string, p: nat, us: seq<string>, ms: seq<Member>, depth: nat, e: nat)
    requires |us| == |ms| && 0 < |ms| <= MAX_MEMBERS && depth < MAX_DEPTH && p <= |s|
    requires AllMembersRead(KeyAt, ValuesAfter(c, s, p, depth + 1), s, us, ms, p + 1)
    requires us[0] != [] && us[0][0] == '"'
    requires Stands(s, ['{'] + Joined(us, 0) + ['}'], p) && e == p + |['{'] + Joined(us, 0) + ['}']|
    ensures ParsedAs(c, s, p, depth, Obj(ms), e)
  {
    ObjBody(KeyAt, ValuesAfter(c, s, p, depth + 1), s, p, us, ms, e);
    ObjectOpen(c, s, p, depth);
  }

  lemma {:induction false} ObjText(c: Libc, s: string, p: nat, v: Json, depth: nat)
    requires v.Obj? && ReadsIntegers(c) && Fits(v, depth) && Stands(s, Text(c, v), p)
    ensures ParsedAs(c, s, p, depth, v, p + |Text(c, v)|)
    decreases v, 0, 1
  {
    if v.members == [] {
      EmptyText(c, s, p, v, depth);
    } else {
      var us := ObjTexts(c, v, depth);
      MembersRead(c, s, p, v, us, depth);
      assert v == Obj(v.members);
      ObjOpened(c, s, p, us, v.members, depth, p + |Text(c, v)|);
    }
  }

  lemma {:induction false} MemberStart(k: string, t: string)
    ensures MemberText(k, t) != [] && MemberText(k, t)[0] == '"'
  {
  }

  /** Parsing the printed form of any value within the limits gives the value back. */
  lemma {:induction false} RoundTrip(c: Libc, v: Json)
    requires ReadsIntegers(c) && Fits(v, 0)
    ensures Parse(c, Text(c, v)) == Some(v)
  {
    var s := Text(c, v);
    ValueText(c, s, 0, v, 0);
  }

  // ---- what the parser returns is within the limits ----

  ghost predicate Wholes(v: Json)
  {
    match v
    case Num(n) => Whole(n)
    case Arr(items) => forall x :: x in items ==> Wholes(x)
    case Obj(members) => forall m :: m in members ==> Wholes(m.val)
    case _ => true
  }

  ghost predicate Sound(ok: Json -> bool, vals: Values, s: string, p: nat)
  {
    forall q: nat :: p <= q && At(vals, s, q).Some? ==> ok(At(vals, s, q).value.0)
  }

  ghost predicate GoodItems(ok: Json -> bool, xs: seq<Json>)
  {
    |xs| <= MAX_MEMBERS && forall x :: x in xs ==> ok(x)
  }

  ghost predicate GoodMembers(ok: Json -> bool, ms: seq<Member>)
  {
    |ms| <= MAX_MEMBERS && forall m :: m in ms ==> ok(m.val)
  }

  lemma {:induction false} KeepItem(ok: Json -> bool, acc: seq<Json>, x: Json)
    requires GoodItems(ok, acc) && ok(x)
    ensures GoodItems(ok, Keep(acc, x))
  {
  }

  lemma {:induction false} KeepMember(ok: Json -> bool, acc: seq<Member>, m: Member)
    requires GoodMembers(ok, acc) && ok(m.val)
    ensures GoodMembers(ok, Keep(acc, m))
  {
  }

  lemma {:induction false} ArrayKeeps(ok: Json -> bool, vals: Values, s: string, p: nat, acc: seq<Json>)
    requires Sound(ok, vals, s, p) && GoodItems(ok, acc)
    ensures var r := ArrayFrom(vals, s, p, acc); r.Some? ==> r.value.0.Arr? && GoodItems(ok, r.value.0.items)
    decreases |s| - p
  {
    var v := At(vals, s, p);
    if v.Some? {
      var q := SkipWs(s, v.value.1);
      KeepItem(ok, acc, v.value.0);
      if q < |s| && s[q] == ',' { ArrayKeeps(ok, vals, s, q + 1, Keep(acc, v.value.0)); }
    }
  }

  lemma {:induction false} ObjectKeeps(ok: Json -> bool, keyAt: Units, vals: Values, s: string, p: nat,
                                       acc: seq<Member>)
    requires Sound(ok, vals, s, p) && GoodMembers(ok, acc)
    ensures var r := ObjectFrom(keyAt, vals, s, p, acc);
      r.Some? ==> r.value.0.Obj? && GoodMembers(ok, r.value.0.members)
    decreases |s| - p
  {
    var k := keyAt(s, p);
    if k.Some? && k.value.1 > p {
      var v := At(vals, s, k.value.1);
      if v.Some? {
        var q, m := SkipWs(s, v.value.1), Member(k.value.0, v.value.0);
        KeepMember(ok, acc, m);
        if q < |s| && s[q] == ',' { ObjectKeeps(ok, keyAt, vals, s, q + 1, Keep(acc, m)); }
      }
    }
  }

  ghost predicate FitsIfWhole(r: Result, depth: nat)
  {
    r.Some? && Wholes(r.value.0) ==> Fits(r.value.0, depth)
  }

  lemma {:induction false} ContainerFits(v: Json, depth: nat, ok: Json -> bool)
    requires depth < MAX_DEPTH && forall x :: ok(x) && Wholes(x) ==> Fits(x, depth + 1)
    requires match v case Arr(xs) => GoodItems(ok, xs) case Obj(ms) => GoodMembers(ok, ms) case _ => false
    ensures Wholes(v) ==> Fits(v, depth)
  {
  }

  lemma {:induction false} ArrayFits(vals: Values, s: string, q: nat, depth: nat, ok: Json -> bool)
    requires depth < MAX_DEPTH && q < |s| && Sound(ok, vals, s, q + 1)
    requires forall x :: ok(x) && Wholes(x) ==> Fits(x, depth + 1)
    ensures FitsIfWhole(ArrayAt(vals, s, q), depth)
  {
    var r := ArrayAt(vals, s, q);
    ArrayKeeps(ok, vals, s, SkipWs(s, q + 1), []);
    if r.Some? { ContainerFits(r.value.0, depth, ok); }
  }

  lemma {:induction false} ObjectFits(vals: Values, s: string, q: nat, depth: nat, ok: Json -> bool)
    requires depth < MAX_DEPTH && q < |s| && Sound(ok, vals, s, q + 1)
    requires forall x :: ok(x) && Wholes(x) ==> Fits(x, depth + 1)
    ensures FitsIfWhole(ObjectAt(vals, s, q), depth)
  {
    var r := ObjectAt(vals, s, q);
    ObjectKeeps(ok, KeyAt, vals, s, SkipWs(s, q + 1), []);
    if r.Some? { ContainerFits(r.value.0, depth, ok); }
  }

  ghost predicate ScalarAt(s: string, p: nat, depth: nat)
    requires p <= |s|
  {
    var q := SkipWs(s, p);
    depth >= MAX_DEPTH || q >= |s| || s[q] !in {'{', '['}
  }

  lemma {:induction false} ScalarFits(c: Libc, s: string, p: nat, depth: nat)
    requires p <= |s| && ScalarAt(s, p, depth)
    ensures FitsIfWhole(Value(c, s, p, depth), depth)
  {
  }

  lemma {:induction false} ContainerIs(c: Libc, s: string, p: nat, depth: nat) returns (q: nat)
    requires p <= |s| && !ScalarAt(s, p, depth)
    ensures p <= q < |s| && depth < MAX_DEPTH && s[q] in {'{', '['}
    ensures s[q] == '[' ==> Value(c, s, p, depth) == ArrayAt(ValuesAfter(c, s, p, depth + 1), s, q)
    ensures s[q] == '{' ==> Value(c, s, p, depth) == ObjectAt(ValuesAfter(c, s, p, depth + 1), s, q)
  {
    q := SkipWs(s, p);
  }

  ghost function Within(depth: nat): Json -> bool { x => Wholes(x) ==> Fits(x, depth) }

  lemma {:induction false} InnerFits(c: Libc, s: string, p: nat, depth: nat)
    requires p <= |s|
    ensures Sound(Within(depth), ValuesAfter(c, s, p, depth), s, p + 1)
    decreases |s| - p, 0
  {
    var vals, ok := ValuesAfter(c, s, p, depth), Within(depth);
    forall i: nat | p + 1 <= i && At(vals, s, i).Some? ensures ok(At(vals, s, i).value.0) {
      assert At(vals, s, i) == Value(c, s, i, depth);
      ParsedFits(c, s, i, depth);
    }
  }

  /** Every value the parser returns is within its limits, numbers apart. */
  lemma {:induction false} ParsedFits(c: Libc, s: string, p: nat, depth: nat)
    requires p <= |s|
    ensures FitsIfWhole(Value(c, s, p, depth), depth)
    decreases |s| - p, 1
  {
    if ScalarAt(s, p, depth) {
      ScalarFits(c, s, p, depth);
    } else {
      InnerFits(c, s, p, depth + 1);
      var q := ContainerIs(c, s, p, depth);
      if s[q] == '[' {
        ArrayFits(ValuesAfter(c, s, p, depth + 1), s, q, depth, Within(depth + 1));
      } else {
        ObjectFits(ValuesAfter(c, s, p, depth + 1), s, q, depth, Within(depth + 1));
      }
    }
  }

  /** Printing and parsing again what was once parsed changes nothing. */
  lemma {:induction false} Reparse(c: Libc, s: string)
    requires ReadsIntegers(c) && Parse(c, s).Some? && Wholes(Parse(c, s).value)
    ensures Parse(c, Text(c, Parse(c, s).value)) == Parse(c, s)
  {
    ParsedFits(c, s, 0, 0);
    RoundTrip(c, Parse(c, s).value);
  }
}
