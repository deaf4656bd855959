/** The texts that ntc_json_parse accepts, as a grammar (RFC 8259) on positions of the text, and that it accepts exactly
    those, with the value they spell. Strings are pinned to their bytes by a UTF-8 reader. */
module JsonGrammar {
  import opened Bytes
  import opened Decimals
  import opened Json

  // ---- UTF-8, read ----

  predicate Continues(c: char) { 0x80 as char <= c < 0xC0 as char }

  /** The one code point that these bytes are: the lead byte says how many follow, each of which brings six bits, and no
      shorter form would do. */
  function ReadUtf8(u: string): Option<nat>
  {
    if |u| == 1 && u[0] < 0x80 as char then Some(u[0] as nat)
    else if |u| == 2 && 0xC0 as char <= u[0] < 0xE0 as char && Continues(u[1]) then
      var cp := (u[0] as nat - 0xC0) * 64 + (u[1] as nat - 0x80);
      if cp >= 0x80 then Some(cp) else None
    else if |u| == 3 && 0xE0 as char <= u[0] < 0xF0 as char && Continues(u[1]) && Continues(u[2]) then
      var cp := ((u[0] as nat - 0xE0) * 64 + (u[1] as nat - 0x80)) * 64 + (u[2] as nat - 0x80);
      if cp >= 0x800 then Some(cp) else None
    else None
  }

  /** A code point of 16 bits has exactly one encoding, and Utf8 gives it. */
  lemma {:induction false} Utf8IsRead(u: string, cp: nat)
    requires cp < 0x10000
    ensures ReadUtf8(u) == Some(cp) <==> u == Utf8(cp)
  {
    Utf8Reads(cp);
    if ReadUtf8(u) == Some(cp) { ReadsUtf8(u, cp); }
  }

  lemma {:induction false} Utf8Reads(cp: nat)
    requires cp < 0x10000
    ensures ReadUtf8(Utf8(cp)) == Some(cp)
  {
    if cp >= 0x800 { ThreeParts(cp); }
  }

  lemma {:induction false} ThreeParts(cp: nat)
    ensures (cp / 4096 * 64 + cp / 64 % 64) * 64 + cp % 64 == cp
  {
    assert cp / 4096 == cp / 64 / 64;
  }

  lemma {:induction false} ReadsUtf8(u: string, cp: nat)
    requires cp < 0x10000 && ReadUtf8(u) == Some(cp)
    ensures u == Utf8(cp)
  {
    if |u| == 1 {
      assert u == [u[0]];
    } else if |u| == 2 {
      TwoBytes(u[0] as nat - 0xC0, u[1] as nat - 0x80, cp);
      assert u == [u[0], u[1]];
    } else {
      ThreeBytes(u[0] as nat - 0xE0, u[1] as nat - 0x80, u[2] as nat - 0x80, cp);
      assert u == [u[0], u[1], u[2]];
    }
  }

  lemma {:induction false} TwoBytes(a: nat, b: nat, cp: nat)
    requires b < 64 && cp == a * 64 + b
    ensures a == cp / 64 && b == cp % 64
  {
  }

  lemma {:induction false} ThreeBytes(a: nat, b: nat, c: nat, cp: nat)
    requires b < 64 && c < 64 && cp == (a * 64 + b) * 64 + c
    ensures a == cp / 4096 && b == cp / 64 % 64 && c == cp % 64
  {
    TwoBytes(a * 64 + b, c, cp);
    TwoBytes(a, b, cp / 64);
    assert cp / 4096 == cp / 64 / 64;
  }

  // ---- strings ----

  const LOWER := "0123456789abcdef"
  const UPPER := "0123456789ABCDEF"

  predicate DigitOf(h: char, d: nat)
    requires d < 16
  {
    h == LOWER[d] || h == UPPER[d]
  }

  /** The four characters from p on spell cp in hexadecimal, in either case. */
  predicate Spells4(s: string, p: nat, cp: nat)
    requires p + 4 <= |s| && cp < 0x10000
  {
    && DigitOf(s[p], cp / 4096) && DigitOf(s[p + 1], cp / 256 % 16)
    && DigitOf(s[p + 2], cp / 16 % 16) && DigitOf(s[p + 3], cp % 16)
  }

  /** What may follow a backslash, and the byte each of them stands for. */
  const LETTERS := "\"\\/bfnrt"
  const MEANINGS: seq<nat> := [34, 92, 47, 8, 12, 10, 13, 9]

  /** The text from p to m is one character of a string, or an escape, and stands for u. */
  ghost predicate Piece(s: string, p: nat, m: nat, u: string)
  {
    && p < m <= |s|
    && if s[p] != '\\' then m == p + 1 && u == [s[p]]
       else if m == p + 2 then exists i :: 0 <= i < 8 && s[p + 1] == LETTERS[i] && u == [MEANINGS[i] as char]
       else m == p + 6 && s[p + 1] == 'u' && Coded(s, p + 2, u)
  }

  ghost predicate Coded(s: string, p: nat, u: string)
    requires p + 4 <= |s|
  {
    ReadUtf8(u).Some? && ReadUtf8(u).value < 0x10000 && Spells4(s, p, ReadUtf8(u).value)
  }

  lemma {:induction false} HexDigits(h: char, d: nat)
    requires d < 16
    ensures HexValue(h) == Some(d) <==> DigitOf(h, d)
  {
  }

  lemma {:induction false} HexSpells(s: string, p: nat, cp: nat)
    requires p + 4 <= |s| && cp < 0x10000
    ensures HexRun(s, p, 4) == Some(cp) <==> Spells4(s, p, cp)
  {
    HexDigits(s[p], cp / 4096);
    HexDigits(s[p + 1], cp / 256 % 16);
    HexDigits(s[p + 2], cp / 16 % 16);
    HexDigits(s[p + 3], cp % 16);
    FourDigits(s, p);
    if HexRun(s, p, 4).Some? {
      var a, b := HexValue(s[p]).value, HexValue(s[p + 1]).value;
      var c, d := HexValue(s[p + 2]).value, HexValue(s[p + 3]).value;
      Horner(a, b, c, d, cp);
    } else if Spells4(s, p, cp) {
      assert false;
    }
  }

  lemma {:induction false} FourDigits(s: string, p: nat)
    requires p + 4 <= |s|
    ensures HexRun(s, p, 4).Some? <==>
      HexValue(s[p]).Some? && HexValue(s[p + 1]).Some? && HexValue(s[p + 2]).Some? && HexValue(s[p + 3]).Some?
    ensures HexRun(s, p, 4).Some? ==>
      HexRun(s, p, 4).value == 16 * (16 * (16 * HexValue(s[p]).value + HexValue(s[p + 1]).value)
                                     + HexValue(s[p + 2]).value) + HexValue(s[p + 3]).value
  {
    assert HexRun(s, p, 0) == Some(0);
    assert HexRun(s, p, 1) == HexValue(s[p]);
    HexNext(s, p, 1);
    HexNext(s, p, 2);
    HexNext(s, p, 3);
  }

  lemma {:induction false} HexNext(s: string, p: nat, n: nat)
    requires p + n < |s|
    ensures HexRun(s, p, n + 1).Some? <==> HexRun(s, p, n).Some? && HexValue(s[p + n]).Some?
    ensures HexRun(s, p, n + 1).Some? ==>
      HexRun(s, p, n + 1).value == 16 * HexRun(s, p, n).value + HexValue(s[p + n]).value
  {
  }

  lemma {:induction false} Horner(a: nat, b: nat, c: nat, d: nat, cp: nat)
    requires a < 16 && b < 16 && c < 16 && d < 16
    ensures 16 * (16 * (16 * a + b) + c) + d == cp
      <==> a == cp / 4096 && b == cp / 256 % 16 && c == cp / 16 % 16 && d == cp % 16
  {
    assert cp / 256 == cp / 16 / 16 && cp / 4096 == cp / 256 / 16;
    assert cp == 16 * (cp / 16) + cp % 16;
    assert cp / 16 == 16 * (cp / 256) + cp / 16 % 16;
    assert cp / 256 == 16 * (cp / 4096) + cp / 256 % 16;
  }

  /** Letters after a backslash. */
  lemma {:induction false} ShortLetters(e: char, c: char)
    ensures Simple(e) == Some(c) <==> exists i :: 0 <= i < 8 && e == LETTERS[i] && c == MEANINGS[i] as char
  {
    assert LETTERS[0] == '"' && LETTERS[1] == '\\' && LETTERS[2] == '/' && LETTERS[3] == 'b';
    assert LETTERS[4] == 'f' && LETTERS[5] == 'n' && LETTERS[6] == 'r' && LETTERS[7] == 't';
    assert MEANINGS[0] == 34 && MEANINGS[1] == 92 && MEANINGS[2] == 47 && MEANINGS[3] == 8;
    assert MEANINGS[4] == 12 && MEANINGS[5] == 10 && MEANINGS[6] == 13 && MEANINGS[7] == 9;
  }

  /** The parser reads one piece at a time, and nothing else. */
  lemma {:induction false} PieceIff(s: string, p: nat, m: nat, u: string)
    requires p < |s|
    ensures Unit(s, p) == Some((u, m)) <==> Piece(s, p, m, u)
  {
    if s[p] == '\\' && p + 1 < |s| {
      if s[p + 1] == 'u' { UnicodePiece(s, p, m, u); } else { ShortPiece(s, p, m, u); }
    }
  }

  lemma {:induction false} ShortPiece(s: string, p: nat, m: nat, u: string)
    requires p + 1 < |s| && s[p] == '\\' && s[p + 1] != 'u'
    ensures Unit(s, p) == Some((u, m)) <==> Piece(s, p, m, u)
  {
    if |u| == 1 {
      ShortLetters(s[p + 1], u[0]);
      assert u == [u[0]];
    }
    if Simple(s[p + 1]).Some? { ShortLetters(s[p + 1], Simple(s[p + 1]).value); }
  }

  lemma {:induction false} UnicodePiece(s: string, p: nat, m: nat, u: string)
    requires p + 1 < |s| && s[p] == '\\' && s[p + 1] == 'u'
    ensures Unit(s, p) == Some((u, m)) <==> Piece(s, p, m, u)
  {
    assert 'u' !in LETTERS;
    if p + 6 <= |s| {
      assert Pow16(4) == 0x10000;
      if HexRun(s, p + 2, 4).Some? {
        HexSpells(s, p + 2, HexRun(s, p + 2, 4).value);
        Utf8IsRead(u, HexRun(s, p + 2, 4).value);
      }
      if ReadUtf8(u).Some? && ReadUtf8(u).value < 0x10000 {
        HexSpells(s, p + 2, ReadUtf8(u).value);
        Utf8IsRead(u, ReadUtf8(u).value);
      }
    }
  }

  /** From p on, the rest of a string up to and including its closing quote, which ends at e: it spells x. */
  ghost predicate Chars(s: string, p: nat, e: nat, x: string)
    decreases |s| - p
  {
    && p < |s|
    && if s[p] == '"' then e == p + 1 && x == []
       else exists m: nat, u: string :: Piece(s, p, m, u) && u <= x && Chars(s, m, e, x[|u|..])
  }

  /** The parser reads exactly the strings of the grammar. */
  lemma {:induction false} CharsIff(s: string, p: nat, e: nat, x: string)
    ensures StringAt(s, p) == Some((x, e)) <==> Chars(s, p, e, x)
    decreases |s| - p
  {
    if p < |s| && s[p] != '"' {
      if StringAt(s, p) == Some((x, e)) {
        var (u, m) := Unit(s, p).value;
        var t := Body(Unit, s, m).value.0;
        PieceIff(s, p, m, u);
        assert x == u + t && x[|u|..] == t;
        CharsIff(s, m, e, t);
      }
      if Chars(s, p, e, x) {
        var m: nat, u: string :| Piece(s, p, m, u) && u <= x && Chars(s, m, e, x[|u|..]);
        PieceIff(s, p, m, u);
        CharsIff(s, m, e, x[|u|..]);
        assert x == u + x[|u|..];
      }
    }
  }

  // ---- values ----

  predicate IsBlank(h: char) { h in " \t\n\r" }

  /** Nothing but spaces, tabs, line feeds and carriage returns from p to q. */
  ghost predicate Blank(s: string, p: nat, q: nat)
  {
    p <= q <= |s| && forall i :: p <= i < q ==> IsBlank(s[i])
  }

  /** The text from q to e is this word. */
  ghost predicate WordAt(s: string, q: nat, e: nat, word: string) { q <= e <= |s| && s[q..e] == word }

  predicate InNumber(h: char) { h in "+-.eE0123456789" }

  /** The text from q to e is a number: it starts with a minus or a digit and takes in all characters a number can have;
      strtod sees the first 63. */
  ghost predicate NumberAt(c: Libc, s: string, q: nat, e: nat, n: real)
  {
    && q < e <= |s| && (s[q] == '-' || '0' <= s[q] <= '9')
    && (forall i :: q <= i < e ==> InNumber(s[i])) && (e == |s| || !InNumber(s[e]))
    && n == c.strtod(if e - q <= 63 then s[q..e] else s[q..q + 63])
  }

  /** Blanks and then a value from p to e, below depth open containers. */
  ghost predicate Doc(c: Libc, s: string, p: nat, e: nat, v: Json, depth: nat)
    decreases |s| - p, 3
  {
    depth < 32 && exists q: nat :: Blank(s, p, q) && q < |s| && Core(c, s, q, e, v, depth)
  }

  ghost predicate Core(c: Libc, s: string, q: nat, e: nat, v: Json, depth: nat)
    requires q < |s|
    decreases |s| - q, 2
  {
    match v
    case Null => WordAt(s, q, e, "null")
    case Bool(b) => WordAt(s, q, e, if b then "true" else "false")
    case Num(n) => NumberAt(c, s, q, e, n)
    case Str(x) => s[q] == '"' && Chars(s, q + 1, e, x)
    case Arr(items) => s[q] == '[' && exists xs :: Array(c, s, q + 1, e, xs, depth + 1) && items == Kept([], xs)
    case Obj(members) => s[q] == '{' && exists ms :: Object(c, s, q + 1, e, ms, depth + 1) && members == Kept([], ms)
  }

  /** The first 64. */
  function Kept<T>(acc: seq<T>, xs: seq<T>): seq<T> { if |acc + xs| <= 64 then acc + xs else (acc + xs)[..64] }

  /** From after a bracket: its items, and the closing bracket before e. */
  ghost predicate Array(c: Libc, s: string, p: nat, e: nat, xs: seq<Json>, depth: nat)
    decreases |s| - p, 5
  {
    if xs == [] then exists o: nat :: Blank(s, p, o) && o < |s| && s[o] == ']' && e == o + 1
    else Items(c, s, p, e, xs, depth)
  }

  ghost predicate Items(c: Libc, s: string, p: nat, e: nat, xs: seq<Json>, depth: nat)
    requires xs != []
    decreases |s| - p, 4
  {
    exists m: nat, k: nat ::
      p < m && Doc(c, s, p, m, xs[0], depth) && Blank(s, m, k) && ItemEnds(c, s, p, k, e, xs, depth)
  }

  /** After an item: the closing bracket, or a comma and the other items. */
  ghost predicate ItemEnds(c: Libc, s: string, p: nat, k: nat, e: nat, xs: seq<Json>, depth: nat)
    requires xs != []
    decreases |s| - p, 3
  {
    p < k < |s| && if |xs| == 1 then s[k] == ']' && e == k + 1 else s[k] == ',' && Items(c, s, k + 1, e, xs[1..], depth)
  }

  /** From p: a key, a colon before d. */
  ghost predicate Key(s: string, p: nat, d: nat, key: string)
  {
    exists q: nat, f: nat, g: nat :: KeyParts(s, p, q, f, g, key) && d == g + 1
  }

  ghost predicate Object(c: Libc, s: string, p: nat, e: nat, ms: seq<Member>, depth: nat)
    decreases |s| - p, 5
  {
    if ms == [] then exists o: nat :: Blank(s, p, o) && o < |s| && s[o] == '}' && e == o + 1
    else Pairs(c, s, p, e, ms, depth)
  }

  ghost predicate Pairs(c: Libc, s: string, p: nat, e: nat, ms: seq<Member>, depth: nat)
    requires ms != []
    decreases |s| - p, 4
  {
    exists d: nat, m: nat, k: nat :: PairParts(c, s, p, d, m, k, ms[0], depth) && PairEnds(c, s, p, k, e, ms, depth)
  }

  /** A key up to d, its value up to m, and blanks up to k. */
  ghost predicate PairParts(c: Libc, s: string, p: nat, d: nat, m: nat, k: nat, x: Member, depth: nat)
    decreases |s| - p, 3
  {
    p < d < m && Key(s, p, d, x.key) && Doc(c, s, d, m, x.val, depth) && Blank(s, m, k)
  }

  ghost predicate PairEnds(c: Libc, s: string, p: nat, k: nat, e: nat, ms: seq<Member>, depth: nat)
    requires ms != []
    decreases |s| - p, 3
  {
    p < k < |s| && if |ms| == 1 then s[k] == '}' && e == k + 1 else s[k] == ',' && Pairs(c, s, k + 1, e, ms[1..], depth)
  }

  // ---- the parser reads the grammar ----

  ghost predicate ParsedAs(c: Libc, s: string, p: nat, depth: nat, v: Json, e: nat)
  {
    p <= |s| && Value(c, s, p, depth) == Some((v, e))
  }

  lemma {:induction false} BlankIs(h: char)
    ensures IsBlank(h) <==> IsWs(h)
  {
  }

  lemma {:induction false} Skips(s: string, p: nat, q: nat)
    requires Blank(s, p, q) && (q == |s| || !IsWs(s[q]))
    ensures SkipWs(s, p) == q
    decreases q - p
  {
    if p < q {
      BlankIs(s[p]);
      Skips(s, p + 1, q);
    }
  }

  lemma {:induction false} Skipped(s: string, p: nat)
    requires p <= |s|
    ensures Blank(s, p, SkipWs(s, p)) && (SkipWs(s, p) < |s| ==> !IsWs(s[SkipWs(s, p)]))
    decreases |s| - p
  {
    if p < |s| && IsWs(s[p]) {
      BlankIs(s[p]);
      Skipped(s, p + 1);
    }
  }

  /** What a table of values holds from p on. */
  ghost predicate Table(vals: Values, c: Libc, s: string, p: nat, depth: nat)
  {
    |vals| == |s| + 1 && forall q :: p < q <= |s| ==> vals[q] == Value(c, s, q, depth)
  }

  lemma {:induction false} NumberChars(h: char)
    ensures NumChar(h) <==> InNumber(h)
  {
  }

  lemma {:induction false} NumberReads(s: string, q: nat, e: nat)
    requires q <= e <= |s| && (forall i :: q <= i < e ==> InNumber(s[i])) && (e == |s| || !InNumber(s[e]))
    ensures NumEnd(s, q) == e
    decreases e - q
  {
    if q < |s| { NumberChars(s[q]); }
    if q < e { NumberReads(s, q + 1, e); }
  }

  lemma {:induction false} NumberRead(s: string, q: nat)
    requires q <= |s|
    ensures var e := NumEnd(s, q); (forall i :: q <= i < e ==> InNumber(s[i])) && (e == |s| || !InNumber(s[e]))
    decreases |s| - q
  {
    if q < |s| {
      NumberChars(s[q]);
      if NumChar(s[q]) { NumberRead(s, q + 1); }
    }
  }

  lemma {:induction false} NumberIff(c: Libc, s: string, q: nat, e: nat, n: real)
    requires q < |s| && (s[q] == '-' || IsDigit(s[q]))
    ensures Scalar(c, s, q) == Some((Num(n), e)) <==> NumberAt(c, s, q, e, n)
  {
    NumberChars(s[q]);
    NumberRead(s, q);
    if NumberAt(c, s, q, e, n) { NumberReads(s, q, e); }
    ScalarNumber(c, s, q);
  }

  lemma {:induction false} ScalarNumber(c: Libc, s: string, q: nat)
    requires q < |s| && (s[q] == '-' || IsDigit(s[q]))
    ensures var e := NumEnd(s, q);
      Scalar(c, s, q) == Some((Num(c.strtod(if e - q <= 63 then s[q..e] else s[q..q + 63])), e))
  {
  }

  lemma {:induction false} WordFirst(s: string, q: nat, e: nat)
    requires q < |s|
    ensures WordAt(s, q, e, "null") ==> s[q] == 'n' && e == q + 4
    ensures WordAt(s, q, e, "true") ==> s[q] == 't' && e == q + 4
    ensures WordAt(s, q, e, "false") ==> s[q] == 'f' && e == q + 5
  {
    if q < e <= |s| { assert s[q..e][0] == s[q]; }
  }

  lemma {:induction false} WordIff(c: Libc, s: string, q: nat, e: nat, v: Json)
    requires q < |s| && (v.Null? || v.Bool?)
    ensures Scalar(c, s, q) == Some((v, e)) <==>
      WordAt(s, q, e, if v.Null? then "null" else if v.b then "true" else "false")
  {
    WordFirst(s, q, e);
  }

  lemma {:induction false} StringIff(c: Libc, s: string, q: nat, e: nat, x: string)
    requires q < |s|
    ensures Scalar(c, s, q) == Some((Str(x), e)) <==> s[q] == '"' && Chars(s, q + 1, e, x)
  {
    CharsIff(s, q + 1, e, x);
  }

  /** Words, numbers and strings. */
  lemma {:induction false} ScalarIff(c: Libc, s: string, q: nat, e: nat, v: Json, depth: nat)
    requires q < |s| && s[q] != '{' && s[q] != '['
    ensures Scalar(c, s, q) == Some((v, e)) <==> Core(c, s, q, e, v, depth)
  {
    match v
    case Null => WordIff(c, s, q, e, v);
    case Bool(_) => WordIff(c, s, q, e, v);
    case Str(x) => StringIff(c, s, q, e, x);
    case Num(n) => if s[q] == '-' || IsDigit(s[q]) { NumberIff(c, s, q, e, n); }
    case _ => NoContainer(c, s, q);
  }

  lemma {:induction false} NoContainer(c: Libc, s: string, q: nat)
    requires q < |s|
    ensures Scalar(c, s, q).Some? ==> !Scalar(c, s, q).value.0.Arr? && !Scalar(c, s, q).value.0.Obj?
  {
  }

  // ---- containers ----

  lemma {:induction false} KeptNext<T>(acc: seq<T>, xs: seq<T>)
    requires |acc| <= 64 && xs != []
    ensures Kept(acc, xs) == Kept(Keep(acc, xs[0]), xs[1..]) && |Keep(acc, xs[0])| <= 64
  {
    assert acc + xs == acc + [xs[0]] + xs[1..];
    if |acc| == 64 {
      assert (acc + xs)[..64] == acc == (acc + xs[1..])[..64];
    }
  }

  lemma {:induction false} KeptOne<T>(acc: seq<T>, x: T)
    requires |acc| <= 64
    ensures Kept(acc, [x]) == Keep(acc, x)
  {
    KeptNext(acc, [x]);
    assert Keep(acc, x) + [] == Keep(acc, x);
  }

  /** The loop over an array's items, from p with acc collected, gives v and leaves off at e. */
  ghost predicate Yields(vals: Values, s: string, p: nat, acc: seq<Json>, v: Json, e: nat)
  {
    ArrayFrom(vals, s, p, acc) == Some((v, e))
  }

  /** What the turn on the item x at p, followed by what is at k, does with anything collected before it. */
  ghost predicate ItemTurns(vals: Values, s: string, p: nat, x: Json, k: nat)
    requires k < |s|
  {
    forall acc, v, e: nat ::
      || (s[k] == ',' && Yields(vals, s, k + 1, Keep(acc, x), v, e))
      || (s[k] == ']' && v == Arr(Keep(acc, x)) && e == k + 1)
      ==> Yields(vals, s, p, acc, v, e)
  }

  lemma {:induction false} ItemTurn(vals: Values, s: string, p: nat, x: Json, m: nat, k: nat)
    requires p < m <= k < |s| && p < |vals| && vals[p] == Some((x, m)) && SkipWs(s, m) == k
    ensures ItemTurns(vals, s, p, x, k)
  {
  }

  lemma {:induction false} ItemFacts(c: Libc, s: string, p: nat, e: nat, xs: seq<Json>, depth: nat)
    returns (m: nat, k: nat)
    requires p <= |s| && xs != [] && Items(c, s, p, e, xs, depth)
    ensures p < m <= k < |s| && ParsedAs(c, s, p, depth, xs[0], m) && SkipWs(s, m) == k
    ensures |xs| == 1 ==> s[k] == ']' && e == k + 1
    ensures |xs| > 1 ==> s[k] == ',' && Items(c, s, k + 1, e, xs[1..], depth)
    decreases |s| - p, 4
  {
    m, k :| p < m && Doc(c, s, p, m, xs[0], depth) && Blank(s, m, k) && ItemEnds(c, s, p, k, e, xs, depth);
    DocParses(c, s, p, m, xs[0], depth);
    Skips(s, m, k);
  }

  lemma {:induction false} ItemReady(c: Libc, s: string, p0: nat, p: nat, e: nat, xs: seq<Json>, depth: nat,
                                     vals: Values)
    returns (k: nat)
    requires p0 < p <= |s| && xs != [] && Items(c, s, p, e, xs, depth) && Table(vals, c, s, p0, depth)
    ensures p < k < |s| && ItemTurns(vals, s, p, xs[0], k)
    ensures |xs| == 1 ==> s[k] == ']' && e == k + 1
    ensures |xs| > 1 ==> s[k] == ',' && Items(c, s, k + 1, e, xs[1..], depth)
    decreases |s| - p, 5
  {
    var m;
    m, k := ItemFacts(c, s, p, e, xs, depth);
    TableAt(vals, c, s, p0, depth, p, xs[0], m);
    ItemTurn(vals, s, p, xs[0], m, k);
  }

  /** The loop over an array's items, on items of the grammar. */
  lemma {:induction false} ItemsParse(c: Libc, s: string, p0: nat, p: nat, e: nat, xs: seq<Json>, depth: nat,
                                      acc: seq<Json>, vals: Values)
    requires p0 < p <= |s| && xs != [] && Items(c, s, p, e, xs, depth) && Table(vals, c, s, p0, depth) && |acc| <= 64
    ensures Yields(vals, s, p, acc, Arr(Kept(acc, xs)), e)
    decreases |s| - p, 6
  {
    var k := ItemReady(c, s, p0, p, e, xs, depth, vals);
    KeptNext(acc, xs);
    if |xs| == 1 {
      assert xs == [xs[0]];
      KeptOne(acc, xs[0]);
    } else {
      ItemsParse(c, s, p0, k + 1, e, xs[1..], depth, Keep(acc, xs[0]), vals);
    }
  }

  /** Every text of the grammar is parsed to its value. */
  lemma {:induction false} DocParses(c: Libc, s: string, p: nat, e: nat, v: Json, depth: nat)
    requires p <= |s| && Doc(c, s, p, e, v, depth)
    ensures ParsedAs(c, s, p, depth, v, e)
    decreases |s| - p, 3
  {
    var q: nat :| Blank(s, p, q) && q < |s| && Core(c, s, q, e, v, depth);
    CoreStarts(c, s, q, e, v, depth);
    Skips(s, p, q);
    if s[q] == '[' {
      ArrayParses(c, s, p, q, e, v, depth);
    } else if s[q] == '{' {
      ObjectParses(c, s, p, q, e, v, depth);
    } else {
      ScalarIff(c, s, q, e, v, depth);
    }
  }

  lemma {:induction false} CoreStarts(c: Libc, s: string, q: nat, e: nat, v: Json, depth: nat)
    requires q < |s| && Core(c, s, q, e, v, depth)
    ensures !IsWs(s[q]) && s[q] != ']' && s[q] != '}' && (s[q] == '[' <==> v.Arr?) && (s[q] == '{' <==> v.Obj?)
  {
    WordFirst(s, q, e);
  }

  lemma {:induction false} ArrayParses(c: Libc, s: string, p: nat, q: nat, e: nat, v: Json, depth: nat)
    requires p <= q < |s| && SkipWs(s, p) == q && s[q] == '[' && depth < 32 && Core(c, s, q, e, v, depth)
    ensures ParsedAs(c, s, p, depth, v, e)
    decreases |s| - p, 2
  {
    CoreStarts(c, s, q, e, v, depth);
    var xs :| Array(c, s, q + 1, e, xs, depth + 1) && v.items == Kept([], xs);
    if xs == [] {
      var o: nat :| Blank(s, q + 1, o) && o < |s| && s[o] == ']' && e == o + 1;
      Skips(s, q + 1, o);
    } else {
      ItemsStart(c, s, q + 1, e, xs, depth + 1);
      ItemsParse(c, s, p, SkipWs(s, q + 1), e, xs, depth + 1, [], ValuesAfter(c, s, p, depth + 1));
      ArrayIs(c, s, p, q, depth);
    }
  }

  lemma {:induction false} ArrayIs(c: Libc, s: string, p: nat, q: nat, depth: nat)
    requires p <= q < |s| && SkipWs(s, p) == q && s[q] == '[' && depth < 32
    ensures var o := SkipWs(s, q + 1);
      o < |s| && s[o] != ']' ==> Value(c, s, p, depth) == ArrayFrom(ValuesAfter(c, s, p, depth + 1), s, o, [])
  {
  }

  /** Blanks before the first item are part of it. */
  lemma {:induction false} ItemsStart(c: Libc, s: string, p: nat, e: nat, xs: seq<Json>, depth: nat)
    requires p <= |s| && xs != [] && Items(c, s, p, e, xs, depth)
    ensures var o := SkipWs(s, p); o < |s| && s[o] != ']' && Items(c, s, o, e, xs, depth)
    decreases |s| - p, 5
  {
    var m: nat, k: nat :|
      p < m && Doc(c, s, p, m, xs[0], depth) && Blank(s, m, k) && ItemEnds(c, s, p, k, e, xs, depth);
    DocStart(c, s, p, m, xs[0], depth);
    var q := SkipWs(s, p);
    DocParses(c, s, q, m, xs[0], depth);
    assert ItemEnds(c, s, q, k, e, xs, depth);
  }

  lemma {:induction false} DocStart(c: Libc, s: string, p: nat, m: nat, v: Json, depth: nat)
    requires p <= |s| && Doc(c, s, p, m, v, depth)
    ensures var q := SkipWs(s, p); q < |s| && s[q] != ']' && s[q] != '}' && Doc(c, s, q, m, v, depth)
  {
    var q: nat :| Blank(s, p, q) && q < |s| && Core(c, s, q, m, v, depth);
    CoreStarts(c, s, q, m, v, depth);
    Skips(s, p, q);
    assert Blank(s, q, q);
  }

  /** The parts of a key: its quote at q, its end at f, its colon at g. */
  ghost predicate KeyParts(s: string, p: nat, q: nat, f: nat, g: nat, key: string)
  {
    && Blank(s, p, q) && q < |s| && s[q] == '"' && Chars(s, q + 1, f, key)
    && Blank(s, f, g) && g < |s| && s[g] == ':'
  }

  lemma {:induction false} KeyParse(s: string, p: nat, q: nat, f: nat, g: nat, key: string)
    requires KeyParts(s, p, q, f, g, key)
    ensures KeyAt(s, p) == Some((key, g + 1))
  {
    Skips(s, p, q);
    Skips(s, f, g);
    CharsIff(s, q + 1, f, key);
  }

  lemma {:induction false} KeyParsed(s: string, p: nat) returns (q: nat, f: nat, g: nat)
    requires p <= |s| && KeyAt(s, p).Some?
    ensures KeyParts(s, p, q, f, g, KeyAt(s, p).value.0) && KeyAt(s, p).value.1 == g + 1
  {
    q := SkipWs(s, p);
    f := StringAt(s, q + 1).value.1;
    g := SkipWs(s, f);
    Skipped(s, p);
    Skipped(s, f);
    CharsIff(s, q + 1, f, StringAt(s, q + 1).value.0);
  }

  /** Keys. */
  lemma {:induction false} KeyIff(s: string, p: nat, d: nat, key: string)
    requires p <= |s|
    ensures KeyAt(s, p) == Some((key, d)) <==> Key(s, p, d, key)
  {
    if KeyAt(s, p) == Some((key, d)) { var q, f, g := KeyParsed(s, p); }
    if Key(s, p, d, key) {
      var q: nat, f: nat, g: nat :| KeyParts(s, p, q, f, g, key) && d == g + 1;
      KeyParse(s, p, q, f, g, key);
    }
  }

  /** The loop over an object's members, from p with acc collected, gives v and leaves off at e. */
  ghost predicate Gives(keyAt: Units, vals: Values, s: string, p: nat, acc: seq<Member>, v: Json, e: nat)
  {
    ObjectFrom(keyAt, vals, s, p, acc) == Some((v, e))
  }

  /** A member at p, whose value ends at m, and what is at k after it. */
  ghost predicate MemberAt(keyAt: Units, vals: Values, s: string, p: nat, x: Member, m: nat, k: nat)
  {
    && keyAt(s, p).Some? && keyAt(s, p).value.0 == x.key
    && var d := keyAt(s, p).value.1;
       p < d < m <= k < |s| && d < |vals| && vals[d] == Some((x.val, m)) && SkipWs(s, m) == k
  }

  /** One turn of the loop over an object's members. */
  lemma {:induction false} PairTurn(keyAt: Units, vals: Values, s: string, p: nat, acc: seq<Member>, x: Member, m: nat,
                                    k: nat, v: Json, e: nat)
    requires MemberAt(keyAt, vals, s, p, x, m, k)
    ensures s[k] == ',' && Gives(keyAt, vals, s, k + 1, Keep(acc, x), v, e) ==> Gives(keyAt, vals, s, p, acc, v, e)
    ensures s[k] == '}' && v == Obj(Keep(acc, x)) && e == k + 1 ==> Gives(keyAt, vals, s, p, acc, v, e)
  {
    assert Member(x.key, x.val) == x;
  }

  lemma {:induction false} PairFacts(c: Libc, s: string, p: nat, e: nat, ms: seq<Member>, depth: nat)
    returns (d: nat, m: nat, k: nat)
    requires p <= |s| && ms != [] && Pairs(c, s, p, e, ms, depth)
    ensures p < d < m <= k < |s| && KeyAt(s, p) == Some((ms[0].key, d)) && SkipWs(s, m) == k
    ensures ParsedAs(c, s, d, depth, ms[0].val, m)
    ensures |ms| == 1 ==> s[k] == '}' && e == k + 1
    ensures |ms| > 1 ==> s[k] == ',' && Pairs(c, s, k + 1, e, ms[1..], depth)
    decreases |s| - p, 4
  {
    d, m, k :| PairParts(c, s, p, d, m, k, ms[0], depth) && PairEnds(c, s, p, k, e, ms, depth);
    KeyIff(s, p, d, ms[0].key);
    DocParses(c, s, d, m, ms[0].val, depth);
    Skips(s, m, k);
  }

  lemma {:induction false} PairReady(keyAt: Units, c: Libc, s: string, p0: nat, p: nat, e: nat, ms: seq<Member>,
                                     depth: nat, vals: Values)
    returns (k: nat)
    requires p0 < p <= |s| && ms != [] && Pairs(c, s, p, e, ms, depth) && Table(vals, c, s, p0, depth)
    requires Reads(keyAt, s)
    ensures p < k < |s| && Turns(keyAt, vals, s, p, ms[0], k)
    ensures |ms| == 1 ==> s[k] == '}' && e == k + 1
    ensures |ms| > 1 ==> s[k] == ',' && Pairs(c, s, k + 1, e, ms[1..], depth)
    decreases |s| - p, 5
  {
    var d, m;
    d, m, k := PairFacts(c, s, p, e, ms, depth);
    assert ReadsAt(keyAt, s, p);
    TableAt(vals, c, s, p0, depth, d, ms[0].val, m);
    MemberTurns(keyAt, vals, s, p, ms[0], m, k);
  }

  /** What the turn on member x at p, followed by what is at k, does with anything collected before it. */
  ghost predicate Turns(keyAt: Units, vals: Values, s: string, p: nat, x: Member, k: nat)
    requires k < |s|
  {
    forall acc, v, e: nat ::
      || (s[k] == ',' && Gives(keyAt, vals, s, k + 1, Keep(acc, x), v, e))
      || (s[k] == '}' && v == Obj(Keep(acc, x)) && e == k + 1)
      ==> Gives(keyAt, vals, s, p, acc, v, e)
  }

  lemma {:induction false} MemberTurns(keyAt: Units, vals: Values, s: string, p: nat, x: Member, m: nat, k: nat)
    requires MemberAt(keyAt, vals, s, p, x, m, k)
    ensures Turns(keyAt, vals, s, p, x, k)
  {
    forall acc, v, e: nat
      | || (s[k] == ',' && Gives(keyAt, vals, s, k + 1, Keep(acc, x), v, e))
        || (s[k] == '}' && v == Obj(Keep(acc, x)) && e == k + 1)
      ensures Gives(keyAt, vals, s, p, acc, v, e)
    {
      PairTurn(keyAt, vals, s, p, acc, x, m, k, v, e);
    }
  }

  lemma {:induction false} PairsParse(keyAt: Units, c: Libc, s: string, p0: nat, p: nat, e: nat, ms: seq<Member>,
                                      depth: nat, acc: seq<Member>, vals: Values)
    requires p0 < p <= |s| && ms != [] && Pairs(c, s, p, e, ms, depth) && Table(vals, c, s, p0, depth) && |acc| <= 64
    requires Reads(keyAt, s)
    ensures Gives(keyAt, vals, s, p, acc, Obj(Kept(acc, ms)), e)
    decreases |s| - p, 6
  {
    var k := PairReady(keyAt, c, s, p0, p, e, ms, depth, vals);
    KeptNext(acc, ms);
    if |ms| == 1 {
      assert ms == [ms[0]];
      KeptOne(acc, ms[0]);
    } else {
      PairsParse(keyAt, c, s, p0, k + 1, e, ms[1..], depth, Keep(acc, ms[0]), vals);
    }
  }

  lemma {:induction false} KeysRead(s: string)
    ensures Reads(KeyAt, s)
  {
    forall p: nat | p <= |s| ensures ReadsAt(KeyAt, s, p) { }
  }

  /** keyAt is KeyAt. */
  ghost predicate Reads(keyAt: Units, s: string) { forall p: nat :: p <= |s| ==> ReadsAt(keyAt, s, p) }

  ghost predicate ReadsAt(keyAt: Units, s: string, p: nat) { keyAt(s, p) == KeyAt(s, p) }

  lemma {:induction false} PairsStart(c: Libc, s: string, p: nat, e: nat, ms: seq<Member>, depth: nat)
    requires p <= |s| && ms != [] && Pairs(c, s, p, e, ms, depth)
    ensures var o := SkipWs(s, p); o < |s| && s[o] != '}' && Pairs(c, s, o, e, ms, depth)
  {
    var d: nat, m: nat, k: nat :| PairParts(c, s, p, d, m, k, ms[0], depth) && PairEnds(c, s, p, k, e, ms, depth);
    KeyStart(s, p, d, ms[0].key);
    var q := SkipWs(s, p);
    assert PairParts(c, s, q, d, m, k, ms[0], depth);
    assert PairEnds(c, s, q, k, e, ms, depth);
  }

  lemma {:induction false} KeyStart(s: string, p: nat, d: nat, key: string)
    requires p <= |s| && Key(s, p, d, key)
    ensures var q := SkipWs(s, p); q < |s| && q < d && s[q] == '"' && Key(s, q, d, key)
  {
    var q: nat, f: nat, g: nat :| KeyParts(s, p, q, f, g, key) && d == g + 1;
    KeyFrom(s, p, q, f, g, key);
  }

  lemma {:induction false} KeyFrom(s: string, p: nat, q: nat, f: nat, g: nat, key: string)
    requires KeyParts(s, p, q, f, g, key)
    ensures SkipWs(s, p) == q && q < g && s[q] == '"' && KeyParts(s, q, q, f, g, key)
  {
    Skips(s, p, q);
    CharsEnd(s, q + 1, f, key);
  }

  lemma {:induction false} CharsEnd(s: string, p: nat, e: nat, x: string)
    requires Chars(s, p, e, x)
    ensures p < e <= |s|
  {
    CharsIff(s, p, e, x);
  }

  lemma {:induction false} TableAt(vals: Values, c: Libc, s: string, p: nat, depth: nat, q: nat, v: Json, m: nat)
    requires Table(vals, c, s, p, depth) && p < q && ParsedAs(c, s, q, depth, v, m)
    ensures q < |vals| && vals[q] == Some((v, m))
  {
  }

  lemma {:induction false} ObjectParses(c: Libc, s: string, p: nat, q: nat, e: nat, v: Json, depth: nat)
    requires p <= q < |s| && SkipWs(s, p) == q && s[q] == '{' && depth < 32 && Core(c, s, q, e, v, depth)
    ensures ParsedAs(c, s, p, depth, v, e)
    decreases |s| - p, 2
  {
    CoreStarts(c, s, q, e, v, depth);
    var ms :| Object(c, s, q + 1, e, ms, depth + 1) && v.members == Kept([], ms);
    if ms == [] {
      var o: nat :| Blank(s, q + 1, o) && o < |s| && s[o] == '}' && e == o + 1;
      Skips(s, q + 1, o);
    } else {
      PairsStart(c, s, q + 1, e, ms, depth + 1);
      KeysRead(s);
      PairsParse(KeyAt, c, s, p, SkipWs(s, q + 1), e, ms, depth + 1, [], ValuesAfter(c, s, p, depth + 1));
      ObjectOpens(c, s, p, q, depth, v, e);
    }
  }

  lemma {:induction false} ObjectOpens(c: Libc, s: string, p: nat, q: nat, depth: nat, v: Json, e: nat)
    requires p <= q < |s| && SkipWs(s, p) == q && s[q] == '{' && depth < 32
    ensures var o := SkipWs(s, q + 1);
      o < |s| && s[o] != '}' && Gives(KeyAt, ValuesAfter(c, s, p, depth + 1), s, o, [], v, e) ==>
        ParsedAs(c, s, p, depth, v, e)
  {
  }

  // ---- the parser reads nothing else ----

  /** An item of the grammar from p, and blanks up to k. */
  ghost predicate ItemUpTo(c: Libc, s: string, p: nat, k: nat, x: Json, depth: nat)
  {
    exists m: nat :: p < m && Doc(c, s, p, m, x, depth) && Blank(s, m, k)
  }

  /** v is acc and the items of the grammar from p to e. */
  ghost predicate Gathers(c: Libc, s: string, p: nat, e: nat, acc: seq<Json>, v: Json, depth: nat)
  {
    exists xs :: xs != [] && Items(c, s, p, e, xs, depth) && v == Arr(Kept(acc, xs))
  }

  lemma {:induction false} ItemsFrom(c: Libc, s: string, p: nat, k: nat, e: nat, xs: seq<Json>, depth: nat)
    requires xs != [] && ItemUpTo(c, s, p, k, xs[0], depth) && ItemEnds(c, s, p, k, e, xs, depth)
    ensures Items(c, s, p, e, xs, depth)
  {
    var m: nat :| p < m && Doc(c, s, p, m, xs[0], depth) && Blank(s, m, k);
  }

  lemma {:induction false} GathersOne(c: Libc, s: string, p: nat, k: nat, acc: seq<Json>, x: Json, depth: nat)
    requires p < k < |s| && s[k] == ']' && ItemUpTo(c, s, p, k, x, depth) && |acc| <= 64
    ensures Gathers(c, s, p, k + 1, acc, Arr(Keep(acc, x)), depth)
  {
    ItemsFrom(c, s, p, k, k + 1, [x], depth);
    KeptOne(acc, x);
  }

  lemma {:induction false} GathersMore(c: Libc, s: string, p: nat, k: nat, e: nat, acc: seq<Json>, x: Json, v: Json,
                                       depth: nat)
    requires p < k < |s| && s[k] == ',' && ItemUpTo(c, s, p, k, x, depth) && |acc| <= 64
    requires Gathers(c, s, k + 1, e, Keep(acc, x), v, depth)
    ensures Gathers(c, s, p, e, acc, v, depth)
  {
    var more :| more != [] && Items(c, s, k + 1, e, more, depth) && v == Arr(Kept(Keep(acc, x), more));
    var xs := [x] + more;
    assert xs[1..] == more;
    KeptNext(acc, xs);
    ItemsFrom(c, s, p, k, e, xs, depth);
  }

  /** One turn of the loop over an array's items, taken apart. */
  lemma {:induction false} ItemTaken(c: Libc, s: string, p0: nat, p: nat, depth: nat, vals: Values, acc: seq<Json>,
                                     v: Json, e: nat)
    returns (x: Json, k: nat)
    requires p0 < p <= |s| && Sound(vals, c, s, p0, depth) && Yields(vals, s, p, acc, v, e)
    ensures p < k < |s| && ItemUpTo(c, s, p, k, x, depth)
    ensures (s[k] == ',' && Yields(vals, s, k + 1, Keep(acc, x), v, e))
         || (s[k] == ']' && v == Arr(Keep(acc, x)) && e == k + 1)
  {
    assert SoundAt(vals, c, s, p, depth);
    var m := At(vals, s, p).value.1;
    x, k := At(vals, s, p).value.0, SkipWs(s, m);
    Skipped(s, m);
  }

  type ItemLoop = (nat, seq<Json>) -> Result

  ghost predicate IsItemLoop(from: ItemLoop, vals: Values, s: string)
  {
    forall p: nat, acc :: ItemLoopIs(from, vals, s, p, acc)
  }

  ghost predicate ItemLoopIs(from: ItemLoop, vals: Values, s: string, p: nat, acc: seq<Json>)
  {
    from(p, acc) == ArrayFrom(vals, s, p, acc)
  }

  lemma {:induction false} TheItemLoop(vals: Values, s: string) returns (from: ItemLoop)
    ensures IsItemLoop(from, vals, s)
  {
    from := (p: nat, acc) => ArrayFrom(vals, s, p, acc);
    forall p: nat, acc ensures ItemLoopIs(from, vals, s, p, acc) { }
  }

  ghost predicate ItemTurnsAt(from: ItemLoop, c: Libc, s: string, p: nat, acc: seq<Json>, x: Json, k: nat, depth: nat)
  {
    && p < k < |s| && ItemUpTo(c, s, p, k, x, depth)
    && ((s[k] == ',' && from(p, acc) == from(k + 1, Keep(acc, x)))
        || (s[k] == ']' && from(p, acc) == Some((Arr(Keep(acc, x)), k + 1))))
  }

  ghost predicate ItemLoopAt(from: ItemLoop, c: Libc, s: string, p: nat, acc: seq<Json>, depth: nat)
  {
    from(p, acc).Some? ==> exists x, k: nat :: ItemTurnsAt(from, c, s, p, acc, x, k, depth)
  }

  ghost predicate ItemLoops(from: ItemLoop, c: Libc, s: string, p0: nat, depth: nat)
  {
    forall p: nat, acc :: p0 < p <= |s| ==> ItemLoopAt(from, c, s, p, acc, depth)
  }

  lemma {:induction false} ArrayLoops(from: ItemLoop, c: Libc, s: string, p0: nat, depth: nat, vals: Values)
    requires Sound(vals, c, s, p0, depth) && IsItemLoop(from, vals, s)
    ensures ItemLoops(from, c, s, p0, depth)
  {
    forall p: nat, acc | p0 < p <= |s| ensures ItemLoopAt(from, c, s, p, acc, depth) {
      if from(p, acc).Some? { ItemPoint(from, c, s, p0, depth, vals, p, acc); }
    }
  }

  lemma {:induction false} ItemPoint(from: ItemLoop, c: Libc, s: string, p0: nat, depth: nat, vals: Values, p: nat,
                                     acc: seq<Json>)
    requires Sound(vals, c, s, p0, depth) && IsItemLoop(from, vals, s)
    requires p0 < p <= |s| && from(p, acc).Some?
    ensures ItemLoopAt(from, c, s, p, acc, depth)
  {
    var (v, e) := from(p, acc).value;
    assert ItemLoopIs(from, vals, s, p, acc);
    var x, k := ItemTaken(c, s, p0, p, depth, vals, acc, v, e);
    assert ItemLoopIs(from, vals, s, k + 1, Keep(acc, x));
    assert ItemTurnsAt(from, c, s, p, acc, x, k, depth);
  }

  lemma {:induction false} ArrayTaken(from: ItemLoop, c: Libc, s: string, p0: nat, p: nat, depth: nat, acc: seq<Json>)
    requires p0 < p <= |s| && ItemLoops(from, c, s, p0, depth) && |acc| <= 64 && from(p, acc).Some?
    ensures Gathers(c, s, p, from(p, acc).value.1, acc, from(p, acc).value.0, depth)
    decreases |s| - p
  {
    assert ItemLoopAt(from, c, s, p, acc, depth);
    var x, k: nat :| ItemTurnsAt(from, c, s, p, acc, x, k, depth);
    if s[k] == ',' {
      ArrayTaken(from, c, s, p0, k + 1, depth, Keep(acc, x));
      GathersMore(c, s, p, k, from(p, acc).value.1, acc, x, from(p, acc).value.0, depth);
    } else {
      GathersOne(c, s, p, k, acc, x, depth);
    }
  }

  /** One turn of the loop over an object's members, taken apart. */
  lemma {:induction false} TurnTaken(keyAt: Units, vals: Values, s: string, p: nat, acc: seq<Member>, v: Json, e: nat)
    returns (x: Member, m: nat, k: nat)
    requires Gives(keyAt, vals, s, p, acc, v, e)
    ensures MemberAt(keyAt, vals, s, p, x, m, k) && s[k] in {',', '}'}
  {
    var d := keyAt(s, p).value.1;
    x, m := Member(keyAt(s, p).value.0, At(vals, s, d).value.0), At(vals, s, d).value.1;
    k := SkipWs(s, m);
  }

  lemma {:induction false} TurnBack(keyAt: Units, vals: Values, s: string, p: nat, acc: seq<Member>, x: Member,
                                    m: nat, k: nat, v: Json, e: nat)
    requires MemberAt(keyAt, vals, s, p, x, m, k) && Gives(keyAt, vals, s, p, acc, v, e)
    ensures s[k] == ',' ==> Gives(keyAt, vals, s, k + 1, Keep(acc, x), v, e)
    ensures s[k] == '}' ==> v == Obj(Keep(acc, x)) && e == k + 1
  {
    assert Member(x.key, x.val) == x;
  }

  /** A member of the grammar from p, and blanks up to k. */
  ghost predicate PairUpTo(c: Libc, s: string, p: nat, k: nat, x: Member, depth: nat)
  {
    exists d: nat, m: nat :: PairParts(c, s, p, d, m, k, x, depth)
  }

  /** What the table holds from p on are values of the grammar. */
  ghost predicate Sound(vals: Values, c: Libc, s: string, p: nat, depth: nat)
  {
    forall q: nat :: p < q < |vals| ==> SoundAt(vals, c, s, q, depth)
  }

  ghost predicate SoundAt(vals: Values, c: Libc, s: string, q: nat, depth: nat)
    requires q < |vals|
  {
    vals[q].Some? ==> Doc(c, s, q, vals[q].value.1, vals[q].value.0, depth)
  }

  ghost predicate KeysSound(keyAt: Units, s: string) { forall p: nat :: p <= |s| ==> KeySound(keyAt, s, p) }

  ghost predicate KeySound(keyAt: Units, s: string, p: nat)
  {
    keyAt(s, p).Some? ==> Key(s, p, keyAt(s, p).value.1, keyAt(s, p).value.0)
  }

  lemma {:induction false} KeysAreSound(s: string)
    ensures KeysSound(KeyAt, s)
  {
    forall p: nat | p <= |s| ensures KeySound(KeyAt, s, p) {
      if KeyAt(s, p).Some? { KeyIff(s, p, KeyAt(s, p).value.1, KeyAt(s, p).value.0); }
    }
  }

  lemma {:induction false} TableIsSound(c: Libc, s: string, p: nat, depth: nat)
    requires p <= |s|
    ensures Sound(ValuesAfter(c, s, p, depth), c, s, p, depth)
    decreases |s| - p, 3
  {
    var vals := ValuesAfter(c, s, p, depth);
    forall q: nat | p < q < |vals| ensures SoundAt(vals, c, s, q, depth) {
      if vals[q].Some? { ParsesDoc(c, s, q, depth); }
    }
  }

  type Loop = (nat, seq<Member>) -> Result

  /** One turn of a loop over members: a member of the grammar, and then a comma and the rest, or the end. */
  ghost predicate TurnsAt(from: Loop, c: Libc, s: string, p: nat, acc: seq<Member>, x: Member, k: nat, depth: nat)
  {
    && p < k < |s| && PairUpTo(c, s, p, k, x, depth)
    && ((s[k] == ',' && from(p, acc) == from(k + 1, Keep(acc, x)))
        || (s[k] == '}' && from(p, acc) == Some((Obj(Keep(acc, x)), k + 1))))
  }

  ghost predicate LoopAt(from: Loop, c: Libc, s: string, p: nat, acc: seq<Member>, depth: nat)
  {
    from(p, acc).Some? ==> exists x, k: nat :: TurnsAt(from, c, s, p, acc, x, k, depth)
  }

  ghost predicate Loops(from: Loop, c: Libc, s: string, p0: nat, depth: nat)
  {
    forall p: nat, acc :: p0 < p <= |s| ==> LoopAt(from, c, s, p, acc, depth)
  }

  /** from is the loop over an object's members. */
  ghost predicate IsLoop(from: Loop, keyAt: Units, vals: Values, s: string)
  {
    forall p: nat, acc :: LoopIs(from, keyAt, vals, s, p, acc)
  }

  ghost predicate LoopIs(from: Loop, keyAt: Units, vals: Values, s: string, p: nat, acc: seq<Member>)
  {
    from(p, acc) == ObjectFrom(keyAt, vals, s, p, acc)
  }

  lemma {:induction false} TheLoop(keyAt: Units, vals: Values, s: string) returns (from: Loop)
    ensures IsLoop(from, keyAt, vals, s)
  {
    from := (p: nat, acc) => ObjectFrom(keyAt, vals, s, p, acc);
    forall p: nat, acc ensures LoopIs(from, keyAt, vals, s, p, acc) { }
  }

  lemma {:induction false} ObjectLoops(from: Loop, keyAt: Units, c: Libc, s: string, p0: nat, depth: nat, vals: Values)
    requires MembersSound(keyAt, c, s, p0, depth, vals) && IsLoop(from, keyAt, vals, s)
    ensures Loops(from, c, s, p0, depth)
  {
    forall p: nat, acc | p0 < p <= |s| ensures LoopAt(from, c, s, p, acc, depth) {
      if from(p, acc).Some? { LoopPoint(from, keyAt, c, s, p0, depth, vals, p, acc); }
    }
  }

  lemma {:induction false} LoopPoint(from: Loop, keyAt: Units, c: Libc, s: string, p0: nat, depth: nat, vals: Values,
                                     p: nat, acc: seq<Member>)
    requires MembersSound(keyAt, c, s, p0, depth, vals) && IsLoop(from, keyAt, vals, s)
    requires p0 < p <= |s| && from(p, acc).Some?
    ensures LoopAt(from, c, s, p, acc, depth)
  {
    var (v, e) := from(p, acc).value;
    assert LoopIs(from, keyAt, vals, s, p, acc);
    var x, k := OneTurn(keyAt, c, s, p0, p, depth, vals, acc, v, e);
    assert LoopIs(from, keyAt, vals, s, k + 1, Keep(acc, x));
    PointTurns(from, c, s, p, acc, x, k, depth, v, e);
  }

  lemma {:induction false} OneTurn(keyAt: Units, c: Libc, s: string, p0: nat, p: nat, depth: nat, vals: Values,
                                   acc: seq<Member>, v: Json, e: nat)
    returns (x: Member, k: nat)
    requires p0 < p <= |s| && MembersSound(keyAt, c, s, p0, depth, vals) && Gives(keyAt, vals, s, p, acc, v, e)
    ensures p < k < |s| && PairUpTo(c, s, p, k, x, depth)
    ensures (s[k] == ',' && Gives(keyAt, vals, s, k + 1, Keep(acc, x), v, e))
         || (s[k] == '}' && v == Obj(Keep(acc, x)) && e == k + 1)
  {
    var m;
    x, m, k := TurnTaken(keyAt, vals, s, p, acc, v, e);
    TurnBack(keyAt, vals, s, p, acc, x, m, k, v, e);
  }

  lemma {:induction false} PointTurns(from: Loop, c: Libc, s: string, p: nat, acc: seq<Member>, x: Member, k: nat,
                                      depth: nat, v: Json, e: nat)
    requires p < k < |s| && PairUpTo(c, s, p, k, x, depth) && from(p, acc) == Some((v, e))
    requires (s[k] == ',' && from(k + 1, Keep(acc, x)) == Some((v, e)))
          || (s[k] == '}' && v == Obj(Keep(acc, x)) && e == k + 1)
    ensures LoopAt(from, c, s, p, acc, depth)
  {
    assert TurnsAt(from, c, s, p, acc, x, k, depth);
  }

  lemma {:induction false} MemberDoc(keyAt: Units, c: Libc, s: string, p0: nat, p: nat, depth: nat, vals: Values,
                                     x: Member, m: nat, k: nat)
    requires p0 < p <= |s| && Sound(vals, c, s, p0, depth) && KeysSound(keyAt, s)
    requires MemberAt(keyAt, vals, s, p, x, m, k)
    ensures PairUpTo(c, s, p, k, x, depth)
  {
    var d := keyAt(s, p).value.1;
    assert KeySound(keyAt, s, p) && SoundAt(vals, c, s, d, depth);
    Skipped(s, m);
    assert PairParts(c, s, p, d, m, k, x, depth);
  }

  /** Every member that the loop finds from p0 on is one of the grammar. */
  ghost predicate MembersSound(keyAt: Units, c: Libc, s: string, p0: nat, depth: nat, vals: Values)
  {
    forall p: nat, x, m: nat, k: nat ::
      p0 < p <= |s| && MemberAt(keyAt, vals, s, p, x, m, k) ==> PairUpTo(c, s, p, k, x, depth)
  }

  lemma {:induction false} MembersAreSound(keyAt: Units, c: Libc, s: string, p0: nat, depth: nat, vals: Values)
    requires Sound(vals, c, s, p0, depth) && KeysSound(keyAt, s)
    ensures MembersSound(keyAt, c, s, p0, depth, vals)
  {
    forall p: nat, x, m: nat, k: nat | p0 < p <= |s| && MemberAt(keyAt, vals, s, p, x, m, k)
      ensures PairUpTo(c, s, p, k, x, depth)
    {
      MemberDoc(keyAt, c, s, p0, p, depth, vals, x, m, k);
    }
  }

  /** v is acc and the members of the grammar from p to e. */
  ghost predicate Collects(c: Libc, s: string, p: nat, e: nat, acc: seq<Member>, v: Json, depth: nat)
  {
    exists ms :: ms != [] && Pairs(c, s, p, e, ms, depth) && v == Obj(Kept(acc, ms))
  }

  lemma {:induction false} CollectsOne(c: Libc, s: string, p: nat, k: nat, acc: seq<Member>, x: Member, depth: nat)
    requires p < k < |s| && s[k] == '}' && PairUpTo(c, s, p, k, x, depth) && |acc| <= 64
    ensures Collects(c, s, p, k + 1, acc, Obj(Keep(acc, x)), depth)
  {
    PairsFrom(c, s, p, k, k + 1, [x], depth);
    KeptOne(acc, x);
  }

  lemma {:induction false} CollectsMore(c: Libc, s: string, p: nat, k: nat, e: nat, acc: seq<Member>, x: Member,
                                        v: Json, depth: nat)
    requires p < k < |s| && s[k] == ',' && PairUpTo(c, s, p, k, x, depth) && |acc| <= 64
    requires Collects(c, s, k + 1, e, Keep(acc, x), v, depth)
    ensures Collects(c, s, p, e, acc, v, depth)
  {
    var more :| more != [] && Pairs(c, s, k + 1, e, more, depth) && v == Obj(Kept(Keep(acc, x), more));
    var ms := [x] + more;
    assert ms[1..] == more;
    KeptNext(acc, ms);
    PairsFrom(c, s, p, k, e, ms, depth);
  }

  /** What the loop gives from p is acc and the members of the grammar up to where it ends. */
  ghost predicate LoopCollects(from: Loop, c: Libc, s: string, p: nat, acc: seq<Member>, depth: nat)
  {
    from(p, acc).Some? && Collects(c, s, p, from(p, acc).value.1, acc, from(p, acc).value.0, depth)
  }

  lemma {:induction false} LoopEnds(from: Loop, c: Libc, s: string, p: nat, depth: nat, acc: seq<Member>, x: Member,
                                    k: nat)
    requires |acc| <= 64 && from(p, acc).Some? && TurnsAt(from, c, s, p, acc, x, k, depth)
    requires s[k] == ',' ==> LoopCollects(from, c, s, k + 1, Keep(acc, x), depth)
    ensures LoopCollects(from, c, s, p, acc, depth)
  {
    if s[k] == ',' {
      CollectsMore(c, s, p, k, from(p, acc).value.1, acc, x, from(p, acc).value.0, depth);
    } else {
      CollectsOne(c, s, p, k, acc, x, depth);
    }
  }

  lemma {:induction false} ObjectTaken(from: Loop, c: Libc, s: string, p0: nat, p: nat, depth: nat, acc: seq<Member>)
    requires p0 < p <= |s| && Loops(from, c, s, p0, depth) && |acc| <= 64 && from(p, acc).Some?
    ensures LoopCollects(from, c, s, p, acc, depth)
    decreases |s| - p
  {
    assert LoopAt(from, c, s, p, acc, depth);
    var x, k: nat :| TurnsAt(from, c, s, p, acc, x, k, depth);
    if s[k] == ',' { ObjectTaken(from, c, s, p0, k + 1, depth, Keep(acc, x)); }
    LoopEnds(from, c, s, p, depth, acc, x, k);
  }

  lemma {:induction false} PairsFrom(c: Libc, s: string, p: nat, k: nat, e: nat, ms: seq<Member>, depth: nat)
    requires ms != [] && PairUpTo(c, s, p, k, ms[0], depth) && PairEnds(c, s, p, k, e, ms, depth)
    ensures Pairs(c, s, p, e, ms, depth)
  {
    var d: nat, m: nat :| PairParts(c, s, p, d, m, k, ms[0], depth);
  }

  /** Whatever the parser accepts is a text of the grammar. */
  lemma {:induction false} ParsesDoc(c: Libc, s: string, p: nat, depth: nat)
    requires p <= |s| && Value(c, s, p, depth).Some?
    ensures Doc(c, s, p, Value(c, s, p, depth).value.1, Value(c, s, p, depth).value.0, depth)
    decreases |s| - p, 5
  {
    var (v, e) := Value(c, s, p, depth).value;
    var q := SkipWs(s, p);
    Skipped(s, p);
    if s[q] == '[' {
      ArrayDoc(c, s, p, q, depth, v, e);
    } else if s[q] == '{' {
      ObjectDoc(c, s, p, q, depth, v, e);
    } else {
      ScalarIff(c, s, q, e, v, depth);
    }
  }

  lemma {:induction false} ArrayDoc(c: Libc, s: string, p: nat, q: nat, depth: nat, v: Json, e: nat)
    requires p <= q < |s| && SkipWs(s, p) == q && s[q] == '[' && ParsedAs(c, s, p, depth, v, e)
    ensures Core(c, s, q, e, v, depth)
    decreases |s| - p, 4
  {
    var o := SkipWs(s, q + 1);
    Skipped(s, q + 1);
    ArrayIsRead(c, s, p, q, depth, v, e);
    if o < |s| && s[o] == ']' {
      assert Array(c, s, q + 1, e, [], depth + 1);
      assert v == Arr(Kept([], []));
    } else {
      TableIsSound(c, s, p, depth + 1);
      ArrayFound(c, s, p, q, o, depth, ValuesAfter(c, s, p, depth + 1), v, e);
    }
  }

  lemma {:induction false} ArrayFound(c: Libc, s: string, p: nat, q: nat, o: nat, depth: nat, vals: Values, v: Json,
                                      e: nat)
    requires p <= q < |s| && s[q] == '[' && Blank(s, q + 1, o) && Sound(vals, c, s, p, depth + 1)
    requires Yields(vals, s, o, [], v, e)
    ensures Core(c, s, q, e, v, depth)
  {
    var from := TheItemLoop(vals, s);
    assert ItemLoopIs(from, vals, s, o, []);
    ArrayLoops(from, c, s, p, depth + 1, vals);
    ArrayTaken(from, c, s, p, o, depth + 1, []);
    var xs :| xs != [] && Items(c, s, o, e, xs, depth + 1) && v == Arr(Kept([], xs));
    ItemsBefore(c, s, q + 1, o, e, xs, depth + 1);
    assert Array(c, s, q + 1, e, xs, depth + 1);
  }

  lemma {:induction false} ArrayIsRead(c: Libc, s: string, p: nat, q: nat, depth: nat, v: Json, e: nat)
    requires p <= q < |s| && SkipWs(s, p) == q && s[q] == '[' && ParsedAs(c, s, p, depth, v, e)
    ensures var o := SkipWs(s, q + 1);
      if o < |s| && s[o] == ']' then v == Arr([]) && e == o + 1
      else Yields(ValuesAfter(c, s, p, depth + 1), s, o, [], v, e)
  {
  }

  lemma {:induction false} ItemsBefore(c: Libc, s: string, p: nat, o: nat, e: nat, xs: seq<Json>, depth: nat)
    requires Blank(s, p, o) && xs != [] && Items(c, s, o, e, xs, depth)
    ensures Items(c, s, p, e, xs, depth)
  {
    var m: nat, k: nat :|
      o < m && Doc(c, s, o, m, xs[0], depth) && Blank(s, m, k) && ItemEnds(c, s, o, k, e, xs, depth);
    var q: nat :| Blank(s, o, q) && q < |s| && Core(c, s, q, m, xs[0], depth);
    assert Blank(s, p, q);
    assert Doc(c, s, p, m, xs[0], depth);
    assert ItemEnds(c, s, p, k, e, xs, depth);
  }

  lemma {:induction false} ObjectDoc(c: Libc, s: string, p: nat, q: nat, depth: nat, v: Json, e: nat)
    requires p <= q < |s| && SkipWs(s, p) == q && s[q] == '{' && ParsedAs(c, s, p, depth, v, e)
    ensures Core(c, s, q, e, v, depth)
    decreases |s| - p, 4
  {
    var o := SkipWs(s, q + 1);
    Skipped(s, q + 1);
    ObjectIs(c, s, p, q, depth, v, e);
    if o < |s| && s[o] == '}' {
      assert Object(c, s, q + 1, e, [], depth + 1);
      assert v == Obj(Kept([], []));
    } else {
      TableIsSound(c, s, p, depth + 1);
      ObjectFound(c, s, p, q, o, depth, ValuesAfter(c, s, p, depth + 1), v, e);
    }
  }

  lemma {:induction false} ObjectIs(c: Libc, s: string, p: nat, q: nat, depth: nat, v: Json, e: nat)
    requires p <= q < |s| && SkipWs(s, p) == q && s[q] == '{' && ParsedAs(c, s, p, depth, v, e)
    ensures var o := SkipWs(s, q + 1);
      if o < |s| && s[o] == '}' then v == Obj([]) && e == o + 1
      else Gives(KeyAt, ValuesAfter(c, s, p, depth + 1), s, o, [], v, e)
  {
  }

  lemma {:induction false} ObjectFound(c: Libc, s: string, p: nat, q: nat, o: nat, depth: nat, vals: Values, v: Json,
                                       e: nat)
    requires p <= q < |s| && s[q] == '{' && Blank(s, q + 1, o) && Sound(vals, c, s, p, depth + 1)
    requires Gives(KeyAt, vals, s, o, [], v, e)
    ensures Core(c, s, q, e, v, depth)
  {
    KeysAreSound(s);
    MembersAreSound(KeyAt, c, s, p, depth + 1, vals);
    var from := TheLoop(KeyAt, vals, s);
    assert LoopIs(from, KeyAt, vals, s, o, []);
    ObjectLoops(from, KeyAt, c, s, p, depth + 1, vals);
    ObjectTaken(from, c, s, p, o, depth + 1, []);
    var ms :| ms != [] && Pairs(c, s, o, e, ms, depth + 1) && v == Obj(Kept([], ms));
    PairsBefore(c, s, q + 1, o, e, ms, depth + 1);
    assert Object(c, s, q + 1, e, ms, depth + 1);
  }

  lemma {:induction false} PairsBefore(c: Libc, s: string, p: nat, o: nat, e: nat, ms: seq<Member>, depth: nat)
    requires Blank(s, p, o) && ms != [] && Pairs(c, s, o, e, ms, depth)
    ensures Pairs(c, s, p, e, ms, depth)
  {
    var d: nat, m: nat, k: nat :| PairParts(c, s, o, d, m, k, ms[0], depth) && PairEnds(c, s, o, k, e, ms, depth);
    var q: nat, f: nat, g: nat :| KeyParts(s, o, q, f, g, ms[0].key) && d == g + 1;
    assert Blank(s, p, q);
    assert KeyParts(s, p, q, f, g, ms[0].key);
    assert PairParts(c, s, p, d, m, k, ms[0], depth);
    assert PairEnds(c, s, p, k, e, ms, depth);
  }

  /** ntc_json_parse accepts exactly the texts that start with a value of the grammar, and returns that value. */
  lemma {:induction false} AcceptsExactly(c: Libc, s: string, v: Json)
    ensures Parse(c, s) == Some(v) <==> exists e: nat :: Doc(c, s, 0, e, v, 0)
  {
    if Parse(c, s) == Some(v) {
      ParsesDoc(c, s, 0, 0);
      assert Doc(c, s, 0, Value(c, s, 0, 0).value.1, v, 0);
    }
    if exists e: nat :: Doc(c, s, 0, e, v, 0) {
      var e: nat :| Doc(c, s, 0, e, v, 0);
      DocParses(c, s, 0, e, v, 0);
    }
  }
}
