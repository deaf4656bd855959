/** Which texts the request parser accepts, and as what: exactly the printed forms of well-formed requests. */
module HttpGrammar {
  import opened Bytes
  import opened Http

  /** A line: no CRLF in it. */
  ghost predicate Plain(l: string) { forall i :: !OccursAt(l, CRLF, i) }

  function Lines(ls: seq<string>): string
  {
    if ls == [] then [] else ls[0] + CRLF + Lines(ls[1..])
  }

  ghost predicate CrlfAt(s: string, i: int) { 0 <= i && i + 1 < |s| && s[i] == '\r' && s[i + 1] == '\n' }

  lemma {:induction false} CrlfOccurs(s: string, i: int)
    ensures OccursAt(s, CRLF, i) <==> CrlfAt(s, i)
  {
    if 0 <= i && i + 2 <= |s| {
      var t := s[i..i + 2];
      assert t[0] == s[i] && t[1] == s[i + 1];
      assert CRLF[0] == '\r' && CRLF[1] == '\n';
      if CrlfAt(s, i) { assert t == CRLF; }
    }
  }

  lemma {:induction false} EohOccurs(s: string, i: int)
    ensures OccursAt(s, EOH, i) <==> CrlfAt(s, i) && CrlfAt(s, i + 2)
  {
    if 0 <= i && i + 4 <= |s| {
      var t := s[i..i + 4];
      assert t[0] == s[i] && t[1] == s[i + 1] && t[2] == s[i + 2] && t[3] == s[i + 3];
      assert EOH[0] == '\r' && EOH[1] == '\n' && EOH[2] == '\r' && EOH[3] == '\n';
      if CrlfAt(s, i) && CrlfAt(s, i + 2) { assert t == EOH; }
    }
  }

  /** The first CRLF of a line and what follows it is the line's end. */
  lemma {:induction false} LineEnd(l: string, rest: string)
    requires Plain(l)
    ensures Find(l + CRLF + rest, CRLF, 0) == Some(|l|)
  {
    var s := l + CRLF + rest;
    assert s[|l|] == '\r' && s[|l| + 1] == '\n';
    CrlfOccurs(s, |l|);
    forall i | 0 <= i < |l| ensures !OccursAt(s, CRLF, i) {
      CrlfOccurs(s, i);
      CrlfOccurs(l, i);
      assert !OccursAt(l, CRLF, i);
      if i + 1 < |l| {
        assert s[i] == l[i] && s[i + 1] == l[i + 1];
      } else {
        assert s[i + 1] == '\r';
      }
    }
    FindIs(s, CRLF, 0, |l|);
  }

  /** The converse: what precedes the first CRLF is a line. */
  lemma {:induction false} LineBefore(t: string, le: nat)
    requires Find(t, CRLF, 0) == Some(le)
    ensures Plain(t[..le]) && t == t[..le] + CRLF + t[le + 2..]
  {
    forall i ensures !OccursAt(t[..le], CRLF, i) {
      CrlfOccurs(t[..le], i);
      if 0 <= i < le {
        assert !OccursAt(t, CRLF, i);
        CrlfOccurs(t, i);
      }
    }
    assert t == t[..le] + t[le..le + 2] + t[le + 2..];
  }

  /** Lines that are not empty. */
  ghost predicate Full(ls: seq<string>) { forall l :: l in ls ==> Plain(l) && l != [] }

  lemma {:induction false} FirstLine(ls: seq<string>, more: string)
    requires ls != []
    ensures Lines(ls) + more == ls[0] + CRLF + (Lines(ls[1..]) + more)
  {
    Assoc(ls[0] + CRLF, Lines(ls[1..]), more);
  }

  lemma {:induction false} StartsFull(ls: seq<string>, more: string)
    requires ls != [] && Full(ls)
    ensures !CrlfAt(Lines(ls) + more, 0)
  {
    var tail := Lines(ls[1..]) + more;
    FirstLine(ls, more);
    assert ls[0] in ls;
    LineEnd(ls[0], tail);
    assert !OccursAt(ls[0] + CRLF + tail, CRLF, 0);
    CrlfOccurs(ls[0] + CRLF + tail, 0);
  }

  /** The end of the head is where the last of some non-empty lines ends. */
  lemma {:induction false} EndOfHead(ls: seq<string>, more: string)
    requires ls != [] && Full(ls) && CrlfAt(more, 0)
    ensures |Lines(ls)| >= 2 && Find(Lines(ls) + more, EOH, 0) == Some(|Lines(ls)| - 2)
    decreases |ls|
  {
    var l, rest := ls[0], Lines(ls[1..]);
    assert l in ls;
    if |ls| == 1 {
      assert rest == [] && Lines(ls) == l + CRLF;
      LineEnd(l, more);
      OneLine(l, more);
    } else {
      assert Full(ls[1..]);
      EndOfHead(ls[1..], more);
      StartsFull(ls[1..], more);
      OneMore(l, rest, more);
    }
  }

  lemma {:induction false} OneMore(l: string, rest: string, more: string)
    requires Plain(l) && |rest| >= 2 && Find(rest + more, EOH, 0) == Some(|rest| - 2) && !CrlfAt(rest + more, 0)
    ensures Find(l + CRLF + rest + more, EOH, 0) == Some(|l + CRLF + rest| - 2)
  {
    Assoc(l + CRLF, rest, more);
    LineEnd(l, rest + more);
    NotYet(l, rest + more, |rest| - 2);
  }

  lemma {:induction false} OneLine(l: string, tail: string)
    requires l != [] && Find(l + CRLF + tail, CRLF, 0) == Some(|l|) && CrlfAt(tail, 0)
    ensures Find(l + CRLF + tail, EOH, 0) == Some(|l|)
  {
    var s := l + CRLF + tail;
    EohOccurs(s, |l|);
    forall i | 0 <= i < |l| ensures !OccursAt(s, EOH, i) {
      assert !OccursAt(s, CRLF, i);
      CrlfOccurs(s, i);
      EohOccurs(s, i);
    }
    FindIs(s, EOH, 0, |l|);
  }

  lemma {:induction false} CrlfShift(l: string, tail: string, i: nat)
    ensures CrlfAt(l + CRLF + tail, |l| + 2 + i) <==> CrlfAt(tail, i)
  {
  }

  lemma {:induction false} EohShift(l: string, tail: string, i: nat)
    ensures OccursAt(l + CRLF + tail, EOH, |l| + 2 + i) <==> OccursAt(tail, EOH, i)
  {
    CrlfShift(l, tail, i);
    CrlfShift(l, tail, i + 2);
    EohOccurs(l + CRLF + tail, |l| + 2 + i);
    EohOccurs(tail, i);
  }

  lemma {:induction false} NotYet(l: string, tail: string, at: nat)
    requires Find(l + CRLF + tail, CRLF, 0) == Some(|l|) && Find(tail, EOH, 0) == Some(at) && !CrlfAt(tail, 0)
    ensures Find(l + CRLF + tail, EOH, 0) == Some(|l| + 2 + at)
  {
    var s, n := l + CRLF + tail, |l| + 2;
    EohShift(l, tail, at);
    forall i | 0 <= i < n + at ensures !OccursAt(s, EOH, i) {
      if i < |l| {
        assert !OccursAt(s, CRLF, i);
        CrlfOccurs(s, i);
        EohOccurs(s, i);
      } else if i >= n {
        EohShift(l, tail, i - n);
      } else {
        CrlfShift(l, tail, 0);
        assert s[|l| + 1] == '\n';
        EohOccurs(s, i);
      }
    }
    FindIs(s, EOH, 0, n + at);
  }

  // ---- one line ----

  /** The blanks around a field's value. */
  datatype Spacing = Spacing(before: string, after: string)

  ghost predicate Blank(w: string) { forall i :: 0 <= i < |w| ==> IsSpace(w[i]) }

  ghost predicate Trimmed(v: string) { v != [] ==> !IsSpace(v[0]) && !IsSpace(v[|v| - 1]) }

  lemma {:induction false} TrimLeftOf(w: string, v: string)
    requires Blank(w) && (v != [] ==> !IsSpace(v[0]))
    ensures TrimLeft(w + v) == v
    decreases |w|
  {
    if w == [] {
      assert w + v == v;
    } else {
      assert (w + v)[1..] == w[1..] + v;
      TrimLeftOf(w[1..], v);
    }
  }

  lemma {:induction false} TrimRightOf(v: string, w: string)
    requires Blank(w) && (v != [] ==> !IsSpace(v[|v| - 1]))
    ensures TrimRight(v + w) == v
    decreases |w|
  {
    if w == [] {
      assert v + w == v;
    } else {
      assert (v + w)[..|v + w| - 1] == v + w[..|w| - 1];
      TrimRightOf(v, w[..|w| - 1]);
    }
  }

  lemma {:induction false} TrimBlank(w: string)
    requires Blank(w)
    ensures TrimLeft(w) == []
    decreases |w|
  {
    if w != [] { TrimBlank(w[1..]); }
  }

  lemma {:induction false} TrimOf(v: string, w: Spacing)
    requires Trimmed(v) && Blank(w.before) && Blank(w.after)
    ensures Trim(w.before + v + w.after) == v
  {
    if v == [] {
      assert w.before + v + w.after == w.before + w.after;
      TrimBlank(w.before + w.after);
    } else {
      Assoc(w.before, v, w.after);
      TrimLeftOf(w.before, v + w.after);
      TrimRightOf(v, w.after);
    }
  }

  lemma {:induction false} TrimLeftIs(s: string) returns (w: string)
    ensures Blank(w) && s == w + TrimLeft(s) && (TrimLeft(s) != [] ==> !IsSpace(TrimLeft(s)[0]))
    decreases |s|
  {
    if s != [] && IsSpace(s[0]) {
      var u := TrimLeftIs(s[1..]);
      w := [s[0]] + u;
      Assoc([s[0]], u, TrimLeft(s));
    } else {
      w := [];
    }
  }

  lemma {:induction false} TrimRightIs(s: string) returns (w: string)
    ensures Blank(w) && s == TrimRight(s) + w && (TrimRight(s) != [] ==> !IsSpace(TrimRight(s)[|TrimRight(s)| - 1]))
    decreases |s|
  {
    if s != [] && IsSpace(s[|s| - 1]) {
      var p, x := s[..|s| - 1], s[|s| - 1];
      var u := TrimRightIs(p);
      w := u + [x];
      Assoc(TrimRight(p), u, [x]);
      assert s == p + [x];
    } else {
      w := [];
    }
  }

  lemma {:induction false} TrimIs(s: string) returns (w: Spacing)
    ensures Blank(w.before) && Blank(w.after) && Trimmed(Trim(s)) && s == w.before + Trim(s) + w.after
  {
    var l := TrimLeftIs(s);
    var r := TrimRightIs(TrimLeft(s));
    w := Spacing(l, r);
    Assoc(l, Trim(s), r);
    if Trim(s) != [] { assert Trim(s)[0] == TrimLeft(s)[0]; }
  }

  function FieldLine(h: Header, w: Spacing): string { h.name + ":" + (w.before + h.value + w.after) }

  ghost predicate GoodField(h: Header, w: Spacing)
  {
    Token(h.name) && Trimmed(h.value) && Blank(w.before) && Blank(w.after) && Plain(FieldLine(h, w))
  }

  /** The first c after text without it. */
  lemma {:induction false} FindChar(a: string, c: char, rest: string)
    requires c !in a
    ensures Find(a + [c] + rest, [c], 0) == Some(|a|)
  {
    var s := a + [c] + rest;
    assert s[|a|..|a| + 1] == [c];
    forall i | 0 <= i < |a| ensures !OccursAt(s, [c], i) {
      assert s[i..i + 1][0] == s[i] == a[i];
    }
    FindIs(s, [c], 0, |a|);
  }

  lemma {:induction false} FoundChar(s: string, c: char, at: nat)
    requires Find(s, [c], 0) == Some(at)
    ensures s == s[..at] + [c] + s[at + 1..] && c !in s[..at]
  {
    assert s[at..at + 1][0] == s[at];
    forall i | 0 <= i < at ensures s[i] != c {
      assert !OccursAt(s, [c], i);
      assert s[i..i + 1] == [s[i]];
    }
  }

  lemma {:induction false} TokenHas(s: string, c: char)
    requires Token(s) && !IsTokenChar(c)
    ensures c !in s
  {
  }

  lemma {:induction false} FieldOf(h: Header, w: Spacing)
    requires GoodField(h, w)
    ensures Field(FieldLine(h, w)) == Some(h) && FieldLine(h, w) != []
  {
    var v := w.before + h.value + w.after;
    TokenHas(h.name, ':');
    FindChar(h.name, ':', v);
    var line := h.name + [':'] + v;
    assert line[..|h.name|] == h.name && line[|h.name| + 1..] == v;
    TrimOf(h.value, w);
  }

  lemma {:induction false} FieldIs(line: string) returns (w: Spacing)
    requires Plain(line) && Field(line).Some?
    ensures GoodField(Field(line).value, w) && line == FieldLine(Field(line).value, w)
  {
    var colon := Find(line, ":", 0).value;
    FoundChar(line, ':', colon);
    w := TrimIs(line[colon + 1..]);
  }

  function Version(minor: nat): string { VERSION + (if minor == 0 then "0" else "1") }

  function StartLine(r: Request): string { r.verb + [' '] + (r.target + [' '] + Version(r.minor)) }

  ghost predicate GoodStart(r: Request)
  {
    Token(r.verb) && r.target != [] && ' ' !in r.target && r.minor <= 1 && Plain(StartLine(r))
  }

  lemma {:induction false} MinorOf(version: string, minor: nat)
    ensures Minor(version) == Some(minor) <==> version == Version(minor) && minor <= 1
  {
    var d := if minor == 0 then "0" else "1";
    assert |VERSION| == 7 && |d| == 1 && Version(minor)[..7] == VERSION && Version(minor)[7] == d[0];
    if |version| == 8 { assert version == version[..7] + [version[7]]; }
  }

  /** Two words and a rest, cut at the first two spaces. */
  lemma {:induction false} CutTwice(a: string, b: string, c: string)
    requires ' ' !in a && ' ' !in b
    ensures var line, rest := a + [' '] + (b + [' '] + c), b + [' '] + c;
      && Find(line, [' '], 0) == Some(|a|) && line[..|a|] == a && line[|a| + 1..] == rest
      && Find(rest, [' '], 0) == Some(|b|) && rest[..|b|] == b && rest[|b| + 1..] == c
  {
    FindChar(a, ' ', b + [' '] + c);
    FindChar(b, ' ', c);
  }

  lemma {:induction false} StartOf(r: Request)
    requires GoodStart(r)
    ensures RequestLine(StartLine(r)) == Some((r.verb, r.target, r.minor)) && StartLine(r) != []
  {
    TokenHas(r.verb, ' ');
    CutTwice(r.verb, r.target, Version(r.minor));
    MinorOf(Version(r.minor), r.minor);
  }

  lemma {:induction false} StartIs(line: string, r: Request)
    requires Plain(line) && RequestLine(line) == Some((r.verb, r.target, r.minor))
    ensures GoodStart(r) && line == StartLine(r)
  {
    var sp1 := Find(line, " ", 0).value;
    FoundChar(line, ' ', sp1);
    var rest := line[sp1 + 1..];
    var sp2 := Find(rest, " ", 0).value;
    FoundChar(rest, ' ', sp2);
    MinorOf(rest[sp2 + 1..], r.minor);
  }

  // ---- all the fields ----

  function FieldLines(hs: seq<Header>, ws: seq<Spacing>): (ls: seq<string>)
    requires |hs| == |ws|
    ensures |ls| == |hs| && forall i :: 0 <= i < |ls| ==> ls[i] == FieldLine(hs[i], ws[i])
  {
    seq(|hs|, i requires 0 <= i < |hs| => FieldLine(hs[i], ws[i]))
  }

  ghost predicate GoodFields(hs: seq<Header>, ws: seq<Spacing>)
  {
    |hs| == |ws| && forall i :: 0 <= i < |hs| ==> GoodField(hs[i], ws[i])
  }

  /** The length the parser has after i of the fields, when n is that of all of them. */
  function LengthAfter(hs: seq<Header>, i: nat, n: Option<nat>): Option<nat>
    requires i <= |hs|
  {
    if i == 0 then None else if IsLength(hs[i - 1]) then n else LengthAfter(hs, i - 1, n)
  }

  lemma {:induction false} LengthAfterIs(hs: seq<Header>, i: nat, n: Option<nat>)
    requires i <= |hs|
    ensures LengthAfter(hs, i, n) == if exists k :: 0 <= k < i && IsLength(hs[k]) then n else None
    decreases i
  {
    if i > 0 { LengthAfterIs(hs, i - 1, n); }
  }

  lemma {:induction false} LengthAfterAll(f: Fields)
    requires Exact(f)
    ensures LengthAfter(f.headers, |f.headers|, f.length) == f.length
  {
    LengthAfterIs(f.headers, |f.headers|, f.length);
    if f.length.Some? {
      var h :| h in f.headers && IsLength(h);
      var k :| 0 <= k < |f.headers| && f.headers[k] == h;
    }
  }

  /** The parser's state after i of the fields. */
  function After(f: Fields, i: nat): Fields
    requires i <= |f.headers|
  {
    Fields(f.headers[..i], LengthAfter(f.headers, i, f.length))
  }

  lemma {:induction false} AddNext(f: Fields, i: nat)
    requires Exact(f) && i < |f.headers|
    ensures AddField(After(f, i), f.headers[i]) == Some(After(f, i + 1))
  {
    var h := f.headers[i];
    assert h in f.headers;
    PrefixSnoc(f.headers, i);
    LengthAfterIs(f.headers, i, f.length);
  }

  lemma {:induction false} AfterAll(f: Fields)
    requires Exact(f)
    ensures After(f, |f.headers|) == f
  {
    LengthAfterAll(f);
    assert f.headers[..|f.headers|] == f.headers;
  }

  /** A line that is read as the field h. */
  ghost predicate ReadAs(line: string, h: Header) { Plain(line) && line != [] && Field(line) == Some(h) }

  lemma {:induction false} LinesFrom(ls: seq<string>, i: nat)
    requires i < |ls|
    ensures Lines(ls[i..]) == ls[i] + CRLF + Lines(ls[i + 1..])
  {
    assert ls[i..][1..] == ls[i + 1..];
  }

  /** The lines of good fields are read back as those fields. */
  lemma {:induction false} FieldsOf(f: Fields, ls: seq<string>, i: nat)
    requires Exact(f) && |ls| == |f.headers| && (forall k :: 0 <= k < |ls| ==> ReadAs(ls[k], f.headers[k])) && i <= |ls|
    ensures FieldsFrom(Lines(ls[i..]), After(f, i)) == Some(f)
    decreases |ls| - i
  {
    if i == |ls| {
      AfterAll(f);
      assert ls[i..] == [];
    } else {
      AddNext(f, i);
      FieldsOf(f, ls, i + 1);
      LinesFrom(ls, i);
      assert ReadAs(ls[i], f.headers[i]);
      OneField(ls[i], Lines(ls[i + 1..]), After(f, i), f.headers[i]);
    }
  }

  lemma {:induction false} OneField(line: string, rest: string, f: Fields, h: Header)
    requires ReadAs(line, h) && AddField(f, h).Some?
    ensures FieldsFrom(line + CRLF + rest, f) == FieldsFrom(rest, AddField(f, h).value)
  {
    var t := line + CRLF + rest;
    LineEnd(line, rest);
    assert t[..|line|] == line && t[|line| + 2..] == rest;
  }

  /** What is left of a head that ends at its first CRLFCRLF: nothing, or some whole lines. */
  ghost predicate Ends(t: string) { t == [] || (|t| > 2 && Find(t + CRLF, EOH, 0) == Some(|t| - 2)) }

  lemma {:induction false} EndsAfter(l: string, t: string)
    requires Plain(l) && Ends(l + CRLF + t)
    ensures Ends(t)
  {
    var tail := t + CRLF;
    var s := l + CRLF + tail;
    Assoc(l + CRLF, t, CRLF);
    if t != [] {
      assert OccursAt(s, EOH, |l| + |t|) && !OccursAt(s, EOH, |l|);
      assert s[|l|] == '\r' && s[|l| + 1] == '\n';
      EohOccurs(s, |l|);
      EohOccurs(s, |l| + |t|);
      assert |t| != 1 && |t| != 2;
      EohShift(l, tail, |t| - 2);
      forall i | 0 <= i < |t| - 2 ensures !OccursAt(tail, EOH, i) {
        EohShift(l, tail, i);
        assert !OccursAt(s, EOH, |l| + 2 + i);
      }
      FindIs(tail, EOH, 0, |t| - 2);
    }
  }

  /** Conversely, fields that were read are good, and their lines are the text. */
  lemma {:induction false} FieldsAre(t: string, f: Fields) returns (hs: seq<Header>, ws: seq<Spacing>)
    requires Ends(t) && FieldsFrom(t, f).Some?
    ensures FieldsFrom(t, f).value.headers == f.headers + hs && GoodFields(hs, ws) && t == Lines(FieldLines(hs, ws))
    decreases |t|
  {
    if t == [] {
      hs, ws := [], [];
    } else {
      var le := Find(t, CRLF, 0).value;
      LineBefore(t, le);
      var h, rest := Field(t[..le]).value, t[le + 2..];
      var w := FieldIs(t[..le]);
      EndsAfter(t[..le], rest);
      var g := AddField(f, h).value;
      var hs', ws' := FieldsAre(rest, g);
      hs, ws := [h] + hs', [w] + ws';
      Assoc(f.headers, [h], hs');
      assert FieldLines(hs, ws)[1..] == FieldLines(hs', ws');
    }
  }

  // ---- whole requests ----

  /** A well-formed request: token method and names, a target without spaces, trimmed values, no CRLF inside a line, at
      most 64 fields, and one decimal number below 2^64 in all its Content-Length fields. */
  ghost predicate Good(r: Request, ws: seq<Spacing>)
  {
    GoodStart(r) && GoodFields(r.headers, ws) && Exact(Fields(r.headers, r.length))
  }

  function Printed(r: Request, ws: seq<Spacing>): string
    requires |ws| == |r.headers|
  {
    Lines([StartLine(r)] + FieldLines(r.headers, ws)) + CRLF
  }

  lemma {:induction false} PrintedLines(r: Request, ws: seq<Spacing>) returns (ls: seq<string>)
    requires Good(r, ws)
    ensures ls == FieldLines(r.headers, ws) && Full([StartLine(r)] + ls)
    ensures forall k :: 0 <= k < |ls| ==> ReadAs(ls[k], r.headers[k])
  {
    ls := FieldLines(r.headers, ws);
    StartOf(r);
    forall k | 0 <= k < |ls| ensures ReadAs(ls[k], r.headers[k]) {
      assert GoodField(r.headers[k], ws[k]);
      FieldOf(r.headers[k], ws[k]);
    }
  }

  lemma {:induction false} HeadOf(r: Request, ls: seq<string>)
    requires GoodStart(r) && Exact(Fields(r.headers, r.length))
    requires |ls| == |r.headers| && forall k :: 0 <= k < |ls| ==> ReadAs(ls[k], r.headers[k])
    ensures ParseHead(Lines([StartLine(r)] + ls)) == Some(r)
  {
    var l, f, rest := StartLine(r), Fields(r.headers, r.length), Lines(ls);
    assert ([l] + ls)[1..] == ls && ls[0..] == ls;
    var s := l + CRLF + rest;
    LineEnd(l, rest);
    assert s[..|l|] == l && s[|l| + 2..] == rest;
    StartOf(r);
    FieldsOf(f, ls, 0);
    assert After(f, 0) == Fields([], None);
  }

  /** A printed request is parsed back, whatever follows it. */
  lemma {:induction false} PrintedParses(r: Request, ws: seq<Spacing>, body: string)
    requires Good(r, ws)
    ensures Parse(Printed(r, ws) + body) == Ok(r, |Printed(r, ws)|)
  {
    var head := HeadText(r, ws, body);
    ParseOf(head, body, r);
  }

  lemma {:induction false} HeadText(r: Request, ws: seq<Spacing>, body: string) returns (head: string)
    requires Good(r, ws)
    ensures Printed(r, ws) == head + CRLF && ParseHead(head) == Some(r)
    ensures |head| >= 2 && Find(head + (CRLF + body), EOH, 0) == Some(|head| - 2)
  {
    var ls := PrintedLines(r, ws);
    head := EndText([StartLine(r)] + ls, body);
    HeadOf(r, ls);
  }

  lemma {:induction false} EndText(all: seq<string>, body: string) returns (head: string)
    requires all != [] && Full(all)
    ensures head == Lines(all) && |head| >= 2 && Find(head + (CRLF + body), EOH, 0) == Some(|head| - 2)
  {
    head := Lines(all);
    EndOfHead(all, CRLF + body);
  }

  lemma {:induction false} ParseOf(head: string, body: string, r: Request)
    requires |head| >= 2 && Find(head + (CRLF + body), EOH, 0) == Some(|head| - 2) && ParseHead(head) == Some(r)
    ensures Parse(head + CRLF + body) == Ok(r, |head + CRLF|)
  {
    Assoc(head, CRLF, body);
    assert (head + CRLF + body)[..|head|] == head;
  }

  /** The parser accepts exactly the printed forms of well-formed requests. */
  lemma {:induction false} AcceptsExactly(buf: string, r: Request, n: nat)
    ensures Parse(buf) == Ok(r, n) <==> n <= |buf| && exists ws :: Good(r, ws) && buf[..n] == Printed(r, ws)
  {
    if Parse(buf) == Ok(r, n) {
      var ws := ParsedIsPrinted(buf);
      assert Good(r, ws);
    }
    if n <= |buf| && exists ws :: Good(r, ws) && buf[..n] == Printed(r, ws) {
      var ws :| Good(r, ws) && buf[..n] == Printed(r, ws);
      assert buf == Printed(r, ws) + buf[n..];
      PrintedParses(r, ws, buf[n..]);
    }
  }

  /** Nothing else is accepted: the bytes a request was parsed from are a printed form of it. */
  lemma {:induction false} ParsedIsPrinted(buf: string) returns (ws: seq<Spacing>)
    requires Parse(buf).Ok?
    ensures Good(Parse(buf).req, ws) && Parse(buf).consumed <= |buf|
    ensures buf[..Parse(buf).consumed] == Printed(Parse(buf).req, ws)
  {
    var eoh := Find(buf, EOH, 0).value;
    var s := buf[..eoh + 2];
    HeadStarts(s);
    HeadEnds(buf, eoh, s);
    ws := HeadIs(s);
    LengthIsExact(buf);
    HeadThenCrlf(buf, eoh);
  }

  lemma {:induction false} HeadStarts(s: string)
    requires ParseHead(s).Some?
    ensures |s| > 2
  {
    var rl := Find(s, CRLF, 0).value;
    assert RequestLine([]).None? && s[..0] == [];
    assert rl > 0;
  }

  lemma {:induction false} HeadIs(s: string) returns (ws: seq<Spacing>)
    requires Ends(s) && ParseHead(s).Some?
    ensures var r := ParseHead(s).value; GoodStart(r) && GoodFields(r.headers, ws)
    ensures s == Lines([StartLine(ParseHead(s).value)] + FieldLines(ParseHead(s).value.headers, ws))
  {
    var r, rl := ParseHead(s).value, Find(s, CRLF, 0).value;
    var line, t := s[..rl], s[rl + 2..];
    LineBefore(s, rl);
    StartIs(line, r);
    EndsAfter(line, t);
    var hs;
    hs, ws := FieldsAre(t, Fields([], None));
    assert [] + hs == hs;
    var ls := FieldLines(hs, ws);
    assert ([line] + ls)[1..] == ls;
  }

  lemma {:induction false} HeadThenCrlf(buf: string, eoh: nat)
    requires OccursAt(buf, EOH, eoh)
    ensures buf[..eoh + 4] == buf[..eoh + 2] + CRLF
  {
    EohOccurs(buf, eoh);
    assert buf[eoh + 2..eoh + 4] == CRLF;
  }

  lemma {:induction false} HeadEnds(buf: string, eoh: nat, s: string)
    requires Find(buf, EOH, 0) == Some(eoh) && s == buf[..eoh + 2] && eoh > 0
    ensures Ends(s)
  {
    HeadThenCrlf(buf, eoh);
    var b := s + CRLF;
    assert b[..eoh + 4] == buf[..eoh + 4];
    FindPrefix(buf, b, EOH, eoh);
  }

  /** The target is the path, or the path, a question mark and the query; the path has no question mark. */
  lemma {:induction false} PathQueryJoins(target: string)
    ensures var (path, query) := PathQuery(target);
      '?' !in path && target == if '?' in target then path + "?" + query else path
  {
    var f := Find(target, "?", 0);
    if f.Some? {
      FoundChar(target, '?', f.value);
    } else {
      NoChar(target, '?');
    }
  }

  lemma {:induction false} NoChar(s: string, c: char)
    requires Find(s, [c], 0).None?
    ensures c !in s
  {
    forall i | 0 <= i < |s| ensures s[i] != c {
      assert !OccursAt(s, [c], i);
      assert s[i..i + 1] == [s[i]];
    }
  }
}
