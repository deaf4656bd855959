/** json.c as it runs: the recursive parser over a cursor with a sticky error flag, and the emitter that writes into a
    caller's buffer of cap bytes. */
module JsonIo {
  import opened Bytes
  import opened Decimals
  import opened Json

  /** What the string loop has read so far: out from start to p, or a failure. */
  ghost predicate SoFar(unit: Units, s: string, start: nat, p: nat, out: string, err: bool)
  {
    var all, rest := Body(unit, s, start), Body(unit, s, p);
    if err || rest.None? then all.None? else all == Some((out + rest.value.0, rest.value.1))
  }

  lemma {:induction false} SoFarStart(unit: Units, s: string, start: nat)
    ensures SoFar(unit, s, start, start, [], false)
  {
    var all := Body(unit, s, start);
    if all.Some? { assert [] + all.value.0 == all.value.0; }
  }

  lemma {:induction false} SoFarNext(unit: Units, s: string, start: nat, p: nat, out: string, u: string, q: nat)
    requires SoFar(unit, s, start, p, out, false) && p < q <= |s| && s[p] != '"' && unit(s, p) == Some((u, q))
    ensures SoFar(unit, s, start, q, out + u, false)
  {
    var rest := Body(unit, s, q);
    if rest.Some? { Assoc(out, u, rest.value.0); }
  }

  lemma {:induction false} SoFarFails(unit: Units, s: string, start: nat, p: nat, out: string)
    requires SoFar(unit, s, start, p, out, false) && p < |s| && s[p] != '"' && unit(s, p).None?
    ensures Body(unit, s, start).None?
  {
  }

  /** vals holds what parse_value returns at every position after p0. */
  ghost predicate Table(c: Libc, s: string, depth: nat, vals: Values, p0: nat)
  {
    |vals| == |s| + 1 && forall q: nat :: p0 < q <= |s| ==> Entry(c, s, depth, vals, q)
  }

  ghost predicate Entry(c: Libc, s: string, depth: nat, vals: Values, q: nat)
  {
    q <= |s| && q < |vals| && vals[q] == Value(c, s, q, depth)
  }

  /** The result, the cursor and the flag after reading something whose meaning is r. */
  ghost predicate Done(r: Result, v: Option<Json>, p: nat, err: bool)
  {
    if err then r.None? else v.Some? && r == Some((v.value, p))
  }

  /** The value that starts at q, the first character after p that is no blank. */
  ghost function Here(c: Libc, s: string, p: nat, depth: nat, q: nat): Result
    requires p <= |s| && q < |s|
  {
    if s[q] == '{' then ObjectAt(ValuesAfter(c, s, p, depth), s, q)
    else if s[q] == '[' then ArrayAt(ValuesAfter(c, s, p, depth), s, q)
    else Scalar(c, s, q)
  }

  lemma {:induction false} ValueIsHere(c: Libc, s: string, p: nat, depth: nat, q: nat)
    requires p <= |s| && q == SkipWs(s, p)
    ensures if depth >= MAX_DEPTH || q >= |s| then Value(c, s, p, depth) == None
            else Value(c, s, p, depth) == Here(c, s, p, depth + 1, q)
  {
  }

  lemma {:induction false} ArrayTurn(vals: Values, s: string, p: nat, acc: seq<Json>, v: Json, e: nat)
    requires At(vals, s, p) == Some((v, e))
    ensures var q, r := SkipWs(s, e), ArrayFrom(vals, s, p, acc);
      if q >= |s| || s[q] !in {',', ']'} then r.None?
      else if s[q] == ',' then r == ArrayFrom(vals, s, q + 1, Keep(acc, v))
      else r == Some((Arr(Keep(acc, v)), q + 1))
  {
  }

  /** A member's key and value, the cursor and the flag after reading it. */
  ghost predicate MemberDone(keyAt: Units, vals: Values, s: string, p: nat, k: string, v: Option<Json>, e: nat,
                             err: bool)
  {
    var key := keyAt(s, p);
    if key.None? || key.value.1 <= p then err else k == key.value.0 && Done(At(vals, s, key.value.1), v, e, err)
  }

  lemma {:induction false} ObjectFails(keyAt: Units, vals: Values, s: string, p: nat, acc: seq<Member>, k: string,
                                       v: Option<Json>, e: nat)
    requires MemberDone(keyAt, vals, s, p, k, v, e, true)
    ensures ObjectFrom(keyAt, vals, s, p, acc).None?
  {
  }

  lemma {:induction false} ObjectTurn(keyAt: Units, vals: Values, s: string, p: nat, acc: seq<Member>, k: string,
                                      v: Option<Json>, e: nat)
    requires MemberDone(keyAt, vals, s, p, k, v, e, false)
    ensures e <= |s| && v.Some?
    ensures var q, r, m := SkipWs(s, e), ObjectFrom(keyAt, vals, s, p, acc), Member(k, v.value);
      if q >= |s| || s[q] !in {',', '}'} then r.None?
      else if s[q] == ',' then r == ObjectFrom(keyAt, vals, s, q + 1, Keep(acc, m))
      else r == Some((Obj(Keep(acc, m)), q + 1))
  {
  }

  /** P: the text, the cursor, the sticky error flag and the nesting depth. */
  class Parser {
    const c: Libc
    const text: string
    var p: nat
    var err: bool
    var depth: nat

    constructor (c: Libc, text: string)
      ensures this.c == c && this.text == text && p == 0 && !err && depth == 0
    {
      this.c, this.text, p, err, depth := c, text, 0, false, 0;
    }

    method SkipBlanks()
      requires p <= |text|
      modifies `p
      ensures p == SkipWs(text, old(p))
    {
      while p < |text| && IsWs(text[p])
        invariant p <= |text| && SkipWs(text, p) == SkipWs(text, old(p))
        decreases |text| - p
      {
        p := p + 1;
      }
    }

    /** The four digits of a \u escape; at the first bad one the loop stops, with that character consumed. */
    method ReadHex() returns (cp: nat)
      requires p + 4 <= |text|
      modifies `p, `err
      ensures old(p) < p <= old(p) + 4 && cp < 0x10000
      ensures err == (old(err) || HexRun(text, old(p), 4).None?)
      ensures HexRun(text, old(p), 4).Some? ==> p == old(p) + 4 && cp == HexRun(text, old(p), 4).value
    {
      var i: nat, bad := 0, false;
      cp := 0;
      assert Pow16(4) == 0x10000;
      while i < 4 && !bad
        invariant i <= 4 && p == old(p) + i && err == (old(err) || bad) && cp < Pow16(i) && (bad ==> i > 0)
        invariant HexRun(text, old(p), i) == if bad then None else Some(cp)
        decreases 4 - i
      {
        var h := HexValue(text[p]);
        cp, p, i := 16 * cp, p + 1, i + 1;
        if h.None? {
          err, bad := true, true;
        } else {
          cp := cp + h.value;
        }
      }
      if bad { HexRunFails(text, old(p), i, 4); }
      Pow16Below(i, 4);
    }

    /** A \u escape, from after its letter: nothing is written when the text ends too soon. */
    method ReadUnicode(buf: array<char>, o: nat) returns (end: nat)
      requires p <= |text| && o <= buf.Length && (p + 4 <= |text| ==> o + 3 <= buf.Length)
      modifies `p, `err, buf
      ensures old(p) <= p <= |text| && o <= end <= Min(buf.Length, o + p - old(p) + 2)
      ensures err == (old(err) || Unicode(text, old(p)).None?)
      ensures Unicode(text, old(p)).Some? ==> p == old(p) + 4
      ensures Unicode(text, old(p)).Some? ==> buf[..end] == old(buf[..o]) + Unicode(text, old(p)).value
    {
      end := o;
      if |text| - p < 4 {
        err := true;
      } else {
        var cp := ReadHex();
        end := PutUtf8(buf, o, cp);
      }
    }

    /** One character or escape of a string body, into the buffer at o. */
    method ReadUnit(buf: array<char>, o: nat) returns (end: nat)
      requires p < |text| && text[p] != '"' && o + |text| - p < buf.Length
      modifies `p, `err, buf
      ensures old(p) < p <= |text| && o <= end <= o + p - old(p)
      ensures err == (old(err) || Unit(text, old(p)).None?)
      ensures Unit(text, old(p)).Some? ==> p == Unit(text, old(p)).value.1
      ensures Unit(text, old(p)).Some? ==> buf[..end] == old(buf[..o]) + Unit(text, old(p)).value.0
    {
      var ch := text[p];
      p, end := p + 1, o;
      if ch != '\\' {
        buf[o], end := ch, o + 1;
      } else if p >= |text| {
        err := true;
      } else {
        var e := text[p];
        p := p + 1;
        if e == 'u' {
          end := ReadUnicode(buf, o);
        } else if Simple(e).Some? {
          buf[o], end := Simple(e).value, o + 1;
        } else {
          err := true;
        }
      }
    }

    /** parse_string: reads on after an error, into a buffer one byte longer than what is left, and never writes more
        than it has read. */
    method ParseString() returns (r: string)
      requires p < |text| && !err
      modifies `p, `err
      ensures old(p) < p <= |text| && |r| < p - old(p)
      ensures err == StringAt(text, old(p) + 1).None?
      ensures !err ==> StringAt(text, old(p) + 1) == Some((r, p))
    {
      p := p + 1;
      ghost var start := p;
      var buf := new char[|text| - p + 1];
      var o: nat := 0;
      assert buf[..0] == [];
      SoFarStart(Unit, text, start);
      while p < |text| && text[p] != '"'
        invariant start <= p <= |text| && o <= p - start
        invariant SoFar(Unit, text, start, p, buf[..o], err)
        decreases |text| - p
      {
        ghost var q, sofar := p, buf[..o];
        var had := err;
        o := ReadUnit(buf, o);
        if !had && !err {
          SoFarNext(Unit, text, start, q, sofar, Unit(text, q).value.0, p);
        } else if !had {
          SoFarFails(Unit, text, start, q, sofar);
        }
      }
      if p < |text| && text[p] == '"' { p := p + 1; } else { err := true; }
      r := buf[..o];
      assert r + [] == r;
    }

    /** A word of fixed letters at the cursor. */
    method ParseWord(word: string, w: Json) returns (v: Option<Json>)
      requires p <= |text| && !err
      modifies `p, `err
      ensures old(p) <= p <= |text| && err == Literal(text, old(p), word, w).None?
      ensures !err ==> v == Some(w) && Literal(text, old(p), word, w) == Some((w, p))
    {
      v := None;
      if |text| - p >= |word| && text[p..p + |word|] == word {
        p, v := p + |word|, Some(w);
      } else {
        err := true;
      }
    }

    /** Strings, words and numbers. */
    method ParseScalar() returns (v: Option<Json>)
      requires p < |text| && !err && text[p] !in {'{', '['}
      modifies `p, `err
      ensures old(p) <= p <= |text| && Done(Scalar(c, text, old(p)), v, p, err)
    {
      v := None;
      if text[p] == '"' {
        var t := ParseString();
        v := Some(Str(t));
      } else if text[p] == 't' {
        v := ParseWord("true", Bool(true));
      } else if text[p] == 'f' {
        v := ParseWord("false", Bool(false));
      } else if text[p] == 'n' {
        v := ParseWord("null", Null);
      } else if text[p] == '-' || IsDigit(text[p]) {
        var start := p;
        ScanNumber();
        var len := Min(p - start, NUM_BUF);
        v := Some(Num(c.strtod(text[start..start + len])));
      } else {
        err := true;
      }
    }

    method ScanNumber()
      requires p <= |text|
      modifies `p
      ensures p == NumEnd(text, old(p))
    {
      while p < |text| && NumChar(text[p])
        invariant p <= |text| && NumEnd(text, p) == NumEnd(text, old(p))
        decreases |text| - p
      {
        p := p + 1;
      }
    }

    /** parse_value: at the end the depth is what it was, and a failure is never forgotten. */
    method ParseValue() returns (v: Option<Json>)
      requires p <= |text|
      modifies `p, `err, `depth
      ensures old(p) <= p <= |text| && depth == old(depth) && (old(err) ==> err)
      ensures !old(err) ==> Done(Value(c, text, old(p), depth), v, p, err)
      decreases |text| - p, 5
    {
      v := None;
      if !err {
        ghost var p0, r := p, Value(c, text, p, depth);
        ValueIsHere(c, text, p, depth, SkipWs(text, p));
        depth := depth + 1;
        SkipBlanks();
        if depth > MAX_DEPTH || p >= |text| {
          err := true;
        } else {
          v := ParseHere(p0);
        }
        depth := depth - 1;
        assert Done(r, v, p, err);
      }
    }

    /** The value at the cursor, which has passed the blanks after p0. */
    method ParseHere(ghost p0: nat) returns (v: Option<Json>)
      requires p0 <= p < |text| && !err
      modifies `p, `err, `depth
      ensures old(p) <= p <= |text| && depth == old(depth)
      ensures Done(Here(c, text, p0, depth, old(p)), v, p, err)
      decreases |text| - p0, 4
    {
      ghost var vals := ValuesAfter(c, text, p0, depth);
      if text[p] == '{' {
        assert Table(c, text, depth, vals, p0);
        v := ParseObject(vals, p0);
      } else if text[p] == '[' {
        assert Table(c, text, depth, vals, p0);
        v := ParseArray(vals, p0);
      } else {
        v := ParseScalar();
      }
    }

    method ValueFrom(ghost vals: Values, ghost p0: nat) returns (v: Option<Json>)
      requires p0 < p <= |text| && !err && Table(c, text, depth, vals, p0)
      modifies `p, `err, `depth
      ensures old(p) <= p <= |text| && depth == old(depth) && Done(At(vals, text, old(p)), v, p, err)
      decreases |text| - p0, 0
    {
      assert Entry(c, text, depth, vals, p);
      v := ParseValue();
    }

    method ParseArray(ghost vals: Values, ghost p0: nat) returns (v: Option<Json>)
      requires p0 <= p < |text| && !err && Table(c, text, depth, vals, p0)
      modifies `p, `err, `depth
      ensures old(p) <= p <= |text| && depth == old(depth) && Done(ArrayAt(vals, text, old(p)), v, p, err)
      decreases |text| - p0, 3
    {
      p := p + 1;
      SkipBlanks();
      if p < |text| && text[p] == ']' {
        p, v := p + 1, Some(Arr([]));
      } else {
        var items, going := [], true;
        v := None;
        ghost var all := ArrayFrom(vals, text, p, []);
        while going
          invariant p0 < p <= |text| && old(p) <= p && depth == old(depth) && Table(c, text, depth, vals, p0)
          invariant if going then !err && all == ArrayFrom(vals, text, p, items) else Done(all, v, p, err)
          decreases |text| - p, going
        {
          going, items, v := ParseItem(vals, p0, items);
        }
      }
    }

    /** One turn of the loop over items. */
    method ParseItem(ghost vals: Values, ghost p0: nat, acc: seq<Json>)
      returns (going: bool, items: seq<Json>, v: Option<Json>)
      requires p0 < p <= |text| && !err && Table(c, text, depth, vals, p0)
      modifies `p, `err, `depth
      ensures old(p) <= p <= |text| && depth == old(depth) && (going ==> old(p) < p && !err)
      ensures var all := ArrayFrom(vals, text, old(p), acc);
        if going then all == ArrayFrom(vals, text, p, items) else Done(all, v, p, err)
      decreases |text| - p0, 2
    {
      going, items := false, acc;
      ghost var q := p;
      v := ValueFrom(vals, p0);
      if !err {
        ArrayTurn(vals, text, q, acc, v.value, p);
        items := Keep(acc, v.value);
        going := Separator(']');
        v := Some(Arr(items));
      }
    }

    /** A comma, or the bracket that closes the container. */
    method Separator(close: char) returns (again: bool)
      requires p <= |text| && !err
      modifies `p, `err
      ensures var q := SkipWs(text, old(p));
        if q >= |text| || text[q] !in {',', close} then err && !again && p == q
        else !err && again == (text[q] == ',') && p == q + 1
    {
      SkipBlanks();
      again := p < |text| && text[p] == ',';
      if again || (p < |text| && text[p] == close) { p := p + 1; } else { err := true; }
    }

    method ParseObject(ghost vals: Values, ghost p0: nat) returns (v: Option<Json>)
      requires p0 <= p < |text| && !err && Table(c, text, depth, vals, p0)
      modifies `p, `err, `depth
      ensures old(p) <= p <= |text| && depth == old(depth) && Done(ObjectAt(vals, text, old(p)), v, p, err)
      decreases |text| - p0, 3
    {
      p := p + 1;
      SkipBlanks();
      if p < |text| && text[p] == '}' {
        p, v := p + 1, Some(Obj([]));
      } else {
        var members, going := [], true;
        v := None;
        ghost var all := ObjectFrom(KeyAt, vals, text, p, []);
        while going
          invariant p0 < p <= |text| && old(p) <= p && depth == old(depth) && Table(c, text, depth, vals, p0)
          invariant if going then !err && all == ObjectFrom(KeyAt, vals, text, p, members) else Done(all, v, p, err)
          decreases |text| - p, going
        {
          going, members, v := ParseNext(vals, p0, members);
        }
      }
    }

    /** One turn of the loop over members. */
    method ParseNext(ghost vals: Values, ghost p0: nat, acc: seq<Member>)
      returns (going: bool, members: seq<Member>, v: Option<Json>)
      requires p0 < p <= |text| && !err && Table(c, text, depth, vals, p0)
      modifies `p, `err, `depth
      ensures old(p) <= p <= |text| && depth == old(depth) && (going ==> old(p) < p && !err)
      ensures var all := ObjectFrom(KeyAt, vals, text, old(p), acc);
        if going then all == ObjectFrom(KeyAt, vals, text, p, members) else Done(all, v, p, err)
      decreases |text| - p0, 2
    {
      going, members := false, acc;
      ghost var q := p;
      var k;
      k, v := ParseMember(vals, p0);
      if err {
        ObjectFails(KeyAt, vals, text, q, acc, k, v, p);
      } else {
        ObjectTurn(KeyAt, vals, text, q, acc, k, v, p);
        members := Keep(acc, Member(k, v.value));
        going := Separator('}');
        v := Some(Obj(members));
      }
    }

    /** A key, a colon and a value; after a bad key the value is not read. */
    method ParseMember(ghost vals: Values, ghost p0: nat) returns (k: string, v: Option<Json>)
      requires p0 < p <= |text| && !err && Table(c, text, depth, vals, p0)
      modifies `p, `err, `depth
      ensures old(p) <= p <= |text| && depth == old(depth)
      ensures MemberDone(KeyAt, vals, text, old(p), k, v, p, err)
      decreases |text| - p0, 1
    {
      v := None;
      k := ParseKey();
      if !err { v := ValueFrom(vals, p0); }
    }

    /** A member's key and colon. The cursor may pass the colon of a bad key, but then the value is not read. */
    method ParseKey() returns (k: string)
      requires p <= |text| && !err
      modifies `p, `err
      ensures old(p) <= p <= |text| && err == KeyAt(text, old(p)).None?
      ensures !err ==> KeyAt(text, old(p)) == Some((k, p))
    {
      k := [];
      SkipBlanks();
      if p >= |text| || text[p] != '"' {
        err := true;
      } else {
        k := ParseString();
        SkipBlanks();
        if p >= |text| || text[p] != ':' { err := true; } else { p := p + 1; }
      }
    }
  }

  /** What the four digits at p stand for. */
  function Unicode(s: string, p: nat): Option<string>
  {
    if p + 4 > |s| then None else
    var cp :- HexRun(s, p, 4);
    assert Pow16(4) == 0x10000;
    Some(Utf8(cp))
  }

  method PutUtf8(buf: array<char>, o: nat, cp: nat) returns (end: nat)
    requires cp < 0x10000 && o + 3 <= buf.Length
    modifies buf
    ensures end == o + |Utf8(cp)| && buf[..end] == old(buf[..o]) + Utf8(cp)
  {
    if cp < 0x80 {
      buf[o] := cp as char;
      end := o + 1;
    } else if cp < 0x800 {
      buf[o], buf[o + 1] := (0xC0 + cp / 64) as char, (0x80 + cp % 64) as char;
      end := o + 2;
    } else {
      buf[o], buf[o + 1], buf[o + 2] :=
        (0xE0 + cp / 4096) as char, (0x80 + cp / 64 % 64) as char, (0x80 + cp % 64) as char;
      end := o + 3;
    }
  }

  lemma {:induction false} HexRunFails(s: string, p: nat, i: nat, n: nat)
    requires p + n <= |s| && i <= n && HexRun(s, p, i).None?
    ensures HexRun(s, p, n).None?
  {
    if i < n { HexRunFails(s, p, i, n - 1); }
  }

  lemma {:induction false} Pow16Below(i: nat, n: nat)
    requires i <= n
    ensures Pow16(i) <= Pow16(n)
  {
    if i < n { Pow16Below(i, n - 1); }
  }

  /** ntc_json_parse. */
  method ParseText(c: Libc, text: string) returns (r: Option<Json>)
    ensures r == Parse(c, text)
  {
    var s := new Parser(c, text);
    r := s.ParseValue();
    if s.err { r := None; }
  }

  // ---- the emitter ----

  /** What a write at o of the text t into a buffer of cap bytes leaves: it succeeds exactly when a byte is left over
      for the NUL, and nothing at or past cap is touched. */
  ghost predicate Wrote(was: string, now: string, cap: nat, o: nat, t: string, ok: bool, end: nat)
  {
    && |now| == |was| && cap <= |was| && o <= cap && now[cap..] == was[cap..]
    && (ok <==> o + |t| < cap)
    && (ok ==> end == o + |t| && now[..end] == was[..o] + t)
  }

  /** Two writes, the second after the first succeeded, are a write of both. */
  lemma {:induction false} WroteBoth(was: string, mid: string, now: string, cap: nat, o: nat, t: string, u: string,
                                     m: nat, ok: bool, end: nat)
    requires Wrote(was, mid, cap, o, t, true, m) && Wrote(mid, now, cap, m, u, ok, end)
    ensures Wrote(was, now, cap, o, t + u, ok, end)
  {
    Assoc(was[..o], t, u);
  }

  lemma {:induction false} WroteNone(was: string, now: string, cap: nat, o: nat, t: string, u: string, e: nat, end: nat)
    requires Wrote(was, now, cap, o, t, false, e)
    ensures Wrote(was, now, cap, o, t + u, false, end)
  {
  }

  /** APP and APC. */
  method Append(dst: array<char>, cap: nat, o: nat, t: string) returns (ok: bool, end: nat)
    requires o <= cap <= dst.Length
    modifies dst
    ensures Wrote(old(dst[..]), dst[..], cap, o, t, ok, end)
  {
    ok, end := o + |t| < cap, o;
    if ok {
      forall i | 0 <= i < |t| { dst[o + i] := t[i]; }
      end := o + |t|;
      assert dst[..end] == old(dst[..o]) + t;
    }
  }

  /** A run of PUTs, one character at a time. */
  method PutAll(dst: array<char>, cap: nat, o: nat, t: string) returns (ok: bool, end: nat)
    requires o <= cap <= dst.Length && t != []
    modifies dst
    ensures Wrote(old(dst[..]), dst[..], cap, o, t, ok, end)
  {
    var i: nat := 0;
    end, ok := o, true;
    while i < |t| && ok
      invariant i <= |t| && end == o + i <= cap && (i > 0 ==> end < cap) && dst[cap..] == old(dst[cap..])
      invariant dst[..end] == old(dst[..o]) + t[..i]
      invariant !ok ==> o + |t| >= cap
      decreases |t| - i, ok
    {
      if end + 1 >= cap {
        ok := false;
      } else {
        dst[end] := t[i];
        end, i := end + 1, i + 1;
      }
    }
    assert ok ==> t[..i] == t;
  }

  /** Where a run of writes stands: done is written, rest is not, and together they are whole. */
  ghost predicate Writing(was: string, now: string, cap: nat, o: nat, done: string, rest: string, whole: string,
                          ok: bool, end: nat)
  {
    if ok then Wrote(was, now, cap, o, done, true, end) && done + rest == whole
    else Wrote(was, now, cap, o, whole, false, end)
  }

  /** One more piece of a run of writes. */
  lemma {:induction false} WriteOn(was: string, mid: string, now: string, cap: nat, o: nat, done: string, t: string,
                                   rest: string, whole: string, m: nat, ok: bool, end: nat)
    requires Writing(was, mid, cap, o, done, t + rest, whole, true, m) && Wrote(mid, now, cap, m, t, ok, end)
    ensures Writing(was, now, cap, o, done + t, rest, whole, ok, end)
  {
    WroteBoth(was, mid, now, cap, o, done, t, m, ok, end);
    Assoc(done, t, rest);
  }

  lemma {:induction false} WriteStart(was: string, cap: nat, o: nat, whole: string)
    requires o < cap <= |was|
    ensures Writing(was, was, cap, o, [], whole, whole, true, o)
  {
    assert was[..o] + [] == was[..o] && [] + whole == whole;
  }

  lemma {:induction false} WriteEnd(was: string, now: string, cap: nat, o: nat, done: string, whole: string, ok: bool,
                                    end: nat)
    requires Writing(was, now, cap, o, done, [], whole, ok, end)
    ensures Wrote(was, now, cap, o, whole, ok, end)
  {
    assert done + [] == done;
  }

  /** ntc_json_escape, at offset o of the buffer. (Without room even for the NUL, the first PUT or the last test
      fails.) */
  method EscapeInto(dst: array<char>, cap: nat, o: nat, x: string) returns (ok: bool, end: nat)
    requires o <= cap <= dst.Length
    modifies dst
    ensures Wrote(old(dst[..]), dst[..], cap, o, Spelled(Escape, x, 0), ok, end)
  {
    var i: nat := 0;
    ok, end := true, o;
    if o == cap { return false, o; }
    ghost var was, whole, done := dst[..], Spelled(Escape, x, 0), [];
    WriteStart(was, cap, o, whole);
    while i < |x| && ok
      invariant i <= |x|
      invariant Writing(was, dst[..], cap, o, done, Spelled(Escape, x, i), whole, ok, end)
      decreases |x| - i, ok
    {
      ghost var mid, m := dst[..], end;
      ok, end := PutAll(dst, cap, end, Escape(x[i]));
      WriteOn(was, mid, dst[..], cap, o, done, Escape(x[i]), Spelled(Escape, x, i + 1), whole, m, ok, end);
      done, i := done + Escape(x[i]), i + 1;
    }
    WriteEnd(was, dst[..], cap, o, done, whole, ok, end);
    if ok { dst[end] := 0 as char; }
  }

  /** A quoted string. */
  method EmitString(dst: array<char>, cap: nat, o: nat, x: string) returns (ok: bool, end: nat)
    requires o < cap <= dst.Length
    modifies dst
    ensures Wrote(old(dst[..]), dst[..], cap, o, Quoted(x), ok, end)
  {
    ghost var was, t, u := dst[..], Spelled(Escape, x, 0), ['"'];
    ok, end := Append(dst, cap, o, ['"']);
    ghost var s1, e1 := dst[..], end;
    Assoc(['"'], t, u);
    if ok {
      ok, end := EscapeInto(dst, cap, end, x);
      WroteBoth(was, s1, dst[..], cap, o, ['"'], t, e1, ok, end);
      ghost var s2, e2 := dst[..], end;
      if ok {
        ok, end := Append(dst, cap, end, ['"']);
        WroteBoth(was, s2, dst[..], cap, o, ['"'] + t, u, e2, ok, end);
      } else {
        WroteNone(was, s2, cap, o, ['"'] + t, u, e2, end);
      }
    } else {
      WroteNone(was, s1, cap, o, ['"'], t + u, e1, end);
    }
  }

  /** The last bracket, when what comes before it was written. */
  method Close(dst: array<char>, cap: nat, o: nat, e: nat, fits: bool, close: string, ghost was: string,
               ghost t: string)
    returns (ok: bool, end: nat)
    requires cap <= dst.Length && Wrote(was, dst[..], cap, o, t, fits, e)
    modifies dst
    ensures Wrote(was, dst[..], cap, o, t + close, ok, end)
  {
    ghost var mid := dst[..];
    if fits {
      ok, end := Append(dst, cap, e, close);
      WroteBoth(was, mid, dst[..], cap, o, t, close, e, ok, end);
    } else {
      ok, end := false, e;
      WroteNone(was, mid, cap, o, t, close, e, e);
    }
  }

  /** emit_rec. */
  method EmitValue(c: Libc, v: Json, dst: array<char>, cap: nat, o: nat) returns (ok: bool, end: nat)
    requires o < cap <= dst.Length
    modifies dst
    ensures Wrote(old(dst[..]), dst[..], cap, o, Text(c, v), ok, end)
    decreases v, 3
  {
    match v
    case Null => ok, end := Append(dst, cap, o, "null");
    case Bool(b) => ok, end := Append(dst, cap, o, if b then "true" else "false");
    case Num(n) => ok, end := Append(dst, cap, o, Number(c, n));
    case Str(x) => ok, end := EmitString(dst, cap, o, x);
    case Arr(_) => ok, end := EmitArray(c, v, dst, cap, o);
    case Obj(_) => ok, end := EmitObject(c, v, dst, cap, o);
  }

  /** The comma before every item but the first, and the item. */
  method EmitItem(c: Libc, v: Json, i: nat, dst: array<char>, cap: nat, o: nat) returns (ok: bool, end: nat)
    requires o < cap <= dst.Length && v.Arr? && i < |v.items|
    modifies dst
    ensures Wrote(old(dst[..]), dst[..], cap, o, Comma(i) + Text(c, v.items[i]), ok, end)
    decreases v, 0
  {
    ghost var was, t := dst[..], Text(c, v.items[i]);
    ok, end := true, o;
    if i > 0 { ok, end := Append(dst, cap, o, ","); }
    ghost var mid, m := dst[..], end;
    if ok {
      assert was[..o] + [] == was[..o];
      ok, end := EmitValue(c, v.items[i], dst, cap, end);
      WroteBoth(was, mid, dst[..], cap, o, Comma(i), t, m, ok, end);
    } else {
      WroteNone(was, mid, cap, o, Comma(i), t, m, end);
    }
  }

  method EmitItems(c: Libc, v: Json, dst: array<char>, cap: nat, o: nat) returns (ok: bool, end: nat)
    requires o < cap <= dst.Length && v.Arr?
    modifies dst
    ensures Wrote(old(dst[..]), dst[..], cap, o, Joined(Items(c, v), 0), ok, end)
    decreases v, 1
  {
    var i: nat := 0;
    ok, end := true, o;
    ghost var was, ts, done := dst[..], Items(c, v), [];
    ghost var whole := Joined(ts, 0);
    WriteStart(was, cap, o, whole);
    while i < |v.items| && ok
      invariant i <= |v.items| && Writing(was, dst[..], cap, o, done, Joined(ts, i), whole, ok, end)
      decreases |v.items| - i, ok
    {
      ghost var mid, m := dst[..], end;
      ok, end := EmitItem(c, v, i, dst, cap, end);
      WriteOn(was, mid, dst[..], cap, o, done, Comma(i) + ts[i], Joined(ts, i + 1), whole, m, ok, end);
      done, i := done + (Comma(i) + ts[i]), i + 1;
    }
    WriteEnd(was, dst[..], cap, o, done, whole, ok, end);
  }

  method EmitArray(c: Libc, v: Json, dst: array<char>, cap: nat, o: nat) returns (ok: bool, end: nat)
    requires o < cap <= dst.Length && v.Arr?
    modifies dst
    ensures Wrote(old(dst[..]), dst[..], cap, o, Text(c, v), ok, end)
    decreases v, 2
  {
    ghost var was, t := dst[..], Joined(Items(c, v), 0);
    ok, end := Append(dst, cap, o, "[");
    ghost var s1, e1 := dst[..], end;
    if ok {
      ok, end := EmitItems(c, v, dst, cap, end);
      WroteBoth(was, s1, dst[..], cap, o, "[", t, e1, ok, end);
    } else {
      WroteNone(was, s1, cap, o, "[", t, e1, end);
    }
    ok, end := Close(dst, cap, o, end, ok, "]", was, "[" + t);
  }

  /** The key, the colon and the value of one member, after a comma unless it is the first. */
  method EmitMember(c: Libc, v: Json, i: nat, dst: array<char>, cap: nat, o: nat) returns (ok: bool, end: nat)
    requires o < cap <= dst.Length && v.Obj? && i < |v.members|
    modifies dst
    ensures Wrote(old(dst[..]), dst[..], cap, o, Comma(i) + MemberText(v.members[i].key, Text(c, v.members[i].val)),
                  ok, end)
    decreases v, 0
  {
    ghost var was, k, t := dst[..], Quoted(v.members[i].key) + ":", Text(c, v.members[i].val);
    ok, end := EmitKey(v.members[i].key, i, dst, cap, o);
    ghost var mid, m := dst[..], end;
    Assoc(Comma(i), k, t);
    if ok {
      ok, end := EmitValue(c, v.members[i].val, dst, cap, end);
      WroteBoth(was, mid, dst[..], cap, o, Comma(i) + k, t, m, ok, end);
    } else {
      WroteNone(was, mid, cap, o, Comma(i) + k, t, m, end);
    }
  }

  method EmitKey(key: string, i: nat, dst: array<char>, cap: nat, o: nat) returns (ok: bool, end: nat)
    requires o < cap <= dst.Length
    modifies dst
    ensures Wrote(old(dst[..]), dst[..], cap, o, Comma(i) + (Quoted(key) + ":"), ok, end)
  {
    ghost var was, q := dst[..], Quoted(key);
    ok, end := true, o;
    if i > 0 { ok, end := Append(dst, cap, o, ","); }
    ghost var s1, e1 := dst[..], end;
    assert i == 0 ==> was[..o] + [] == was[..o];
    assert Wrote(was, s1, cap, o, Comma(i), ok, e1);
    Assoc(Comma(i), q, ":");
    if ok {
      ok, end := EmitString(dst, cap, end, key);
      WroteBoth(was, s1, dst[..], cap, o, Comma(i), q, e1, ok, end);
      ghost var s2, e2 := dst[..], end;
      if ok {
        ok, end := Append(dst, cap, end, ":");
        WroteBoth(was, s2, dst[..], cap, o, Comma(i) + q, ":", e2, ok, end);
      } else {
        WroteNone(was, s2, cap, o, Comma(i) + q, ":", e2, end);
      }
    } else {
      WroteNone(was, s1, cap, o, Comma(i), q + ":", e1, end);
    }
  }

  method EmitMembers(c: Libc, v: Json, dst: array<char>, cap: nat, o: nat) returns (ok: bool, end: nat)
    requires o < cap <= dst.Length && v.Obj?
    modifies dst
    ensures Wrote(old(dst[..]), dst[..], cap, o, Joined(Members(c, v), 0), ok, end)
    decreases v, 1
  {
    var i: nat := 0;
    ok, end := true, o;
    ghost var was, ts, done := dst[..], Members(c, v), [];
    ghost var whole := Joined(ts, 0);
    WriteStart(was, cap, o, whole);
    while i < |v.members| && ok
      invariant i <= |v.members| && Writing(was, dst[..], cap, o, done, Joined(ts, i), whole, ok, end)
      decreases |v.members| - i, ok
    {
      ghost var mid, m := dst[..], end;
      ok, end := EmitMember(c, v, i, dst, cap, end);
      WriteOn(was, mid, dst[..], cap, o, done, Comma(i) + ts[i], Joined(ts, i + 1), whole, m, ok, end);
      done, i := done + (Comma(i) + ts[i]), i + 1;
    }
    WriteEnd(was, dst[..], cap, o, done, whole, ok, end);
  }

  method EmitObject(c: Libc, v: Json, dst: array<char>, cap: nat, o: nat) returns (ok: bool, end: nat)
    requires o < cap <= dst.Length && v.Obj?
    modifies dst
    ensures Wrote(old(dst[..]), dst[..], cap, o, Text(c, v), ok, end)
    decreases v, 2
  {
    ghost var was, t := dst[..], Joined(Members(c, v), 0);
    ok, end := Append(dst, cap, o, "{");
    ghost var s1, e1 := dst[..], end;
    if ok {
      ok, end := EmitMembers(c, v, dst, cap, end);
      WroteBoth(was, s1, dst[..], cap, o, "{", t, e1, ok, end);
    } else {
      WroteNone(was, s1, cap, o, "{", t, e1, end);
    }
    ok, end := Close(dst, cap, o, end, ok, "}", was, "{" + t);
  }

  /** ntc_json_emit: succeeds exactly when the text is shorter than cap, and then ends it with a NUL. */
  method Emit(c: Libc, v: Json, dst: array<char>, cap: nat) returns (r: int)
    requires cap <= dst.Length
    modifies dst
    ensures r == -1 <==> |Text(c, v)| >= cap
    ensures r != -1 ==> r == |Text(c, v)| && dst[..r] == Text(c, v) && dst[r] == 0 as char
    ensures dst[cap..] == old(dst[cap..])
  {
    if cap == 0 { return -1; }
    var ok, o := EmitValue(c, v, dst, cap, 0);
    if !ok || o >= cap { return -1; }
    dst[o] := 0 as char;
    r := o;
  }
}
