/** Printing a list of parts and parsing the body gives the parts back exactly when no part's data, with the CRLF before
    it, contains the separator. */
module MultipartRoundTrip {
  import opened Bytes
  import opened Multipart

  // ---- where a key stands ----

  ghost predicate Absent(h: string, key: string) { forall i :: !OccursAt(h, key, i) }

  lemma {:induction false} OccursChars(h: string, key: string, i: int)
    requires OccursAt(h, key, i)
    ensures forall j :: 0 <= j < |key| ==> h[i + j] == key[j]
  {
    forall j | 0 <= j < |key| ensures h[i + j] == key[j] {
      assert h[i..i + |key|][j] == h[i + j];
    }
  }

  lemma {:induction false} OccursIf(h: string, key: string, i: int)
    requires 0 <= i && i + |key| <= |h| && forall j :: 0 <= j < |key| ==> h[i + j] == key[j]
    ensures OccursAt(h, key, i)
  {
    assert h[i..i + |key|] == key;
  }

  lemma {:induction false} FindAbsent(h: string, key: string)
    requires Absent(h, key)
    ensures Find(h, key, 0).None?
  {
  }

  /** The key ends in c and has no other c. */
  ghost predicate EndsIn(key: string, c: char)
  {
    key != [] && key[|key| - 1] == c && forall j :: 0 <= j < |key| - 1 ==> key[j] != c
  }

  /** An occurrence in a + b that does not lie in a reaches into b. */
  lemma {:induction false} OccursLeft(a: string, b: string, key: string, i: int)
    requires OccursAt(a + b, key, i) && i + |key| <= |a|
    ensures OccursAt(a, key, i)
  {
    OccursChars(a + b, key, i);
    OccursIf(a, key, i);
  }

  lemma {:induction false} OccursRight(a: string, b: string, key: string, i: int)
    requires i >= |a|
    ensures OccursAt(a + b, key, i) <==> OccursAt(b, key, i - |a|)
  {
    if OccursAt(a + b, key, i) {
      OccursChars(a + b, key, i);
      OccursIf(b, key, i - |a|);
    }
    if OccursAt(b, key, i - |a|) {
      OccursChars(b, key, i - |a|);
      OccursIf(a + b, key, i);
    }
  }

  /** An occurrence has the key's j-th character in its j-th place. */
  lemma {:induction false} OccursHas(h: string, key: string, i: int, j: nat)
    requires j < |key|
    ensures OccursAt(h, key, i) ==> 0 <= i && i + |key| <= |h| && h[i + j] == key[j]
  {
    if OccursAt(h, key, i) { OccursChars(h, key, i); }
  }

  lemma {:induction false} NotLeft(a: string, b: string, key: string, i: int)
    requires Absent(a, key)
    ensures OccursAt(a + b, key, i) ==> i + |key| > |a|
  {
    if OccursAt(a + b, key, i) && i + |key| <= |a| { OccursLeft(a, b, key, i); }
  }

  lemma {:induction false} KeyHere(pre: string, key: string, post: string, c: char)
    requires EndsIn(key, c) && Absent(pre, key)
    ensures Find(pre + key + post, key, 0) == Some(|pre|)
  {
    var h := pre + key + post;
    assert h == pre + (key + post);
    assert h[|pre|..|pre| + |key|] == key;
    forall i | 0 <= i < |pre| ensures !OccursAt(h, key, i) {
      OccursHas(h, key, i, |key| - 1);
      NotLeft(pre, key + post, key, i);
    }
    FindIs(h, key, 0, |pre|);
  }

  lemma {:induction false} AbsentNoEnd(h: string, key: string, c: char)
    requires EndsIn(key, c) && c !in h
    ensures Absent(h, key)
  {
    forall i ensures !OccursAt(h, key, i) {
      OccursHas(h, key, i, |key| - 1);
    }
  }

  lemma {:induction false} AbsentAppend(a: string, b: string, key: string, c: char)
    requires EndsIn(key, c) && Absent(a, key) && c !in b
    ensures Absent(a + b, key)
  {
    forall i ensures !OccursAt(a + b, key, i) {
      OccursHas(a + b, key, i, |key| - 1);
      NotLeft(a, b, key, i);
    }
  }

  /** Closing with the key's last character makes no key when what comes before is not its last but one. */
  lemma {:induction false} AbsentClose(a: string, key: string, c: char)
    requires EndsIn(key, c) && |key| >= 2 && Absent(a, key) && (a != [] ==> a[|a| - 1] != key[|key| - 2])
    ensures Absent(a + [c], key)
  {
    forall i ensures !OccursAt(a + [c], key, i) {
      OccursHas(a + [c], key, i, |key| - 2);
      NotLeft(a, [c], key, i);
    }
  }

  /** A key cannot run across the character it ends in. */
  lemma {:induction false} AbsentBeyond(a: string, b: string, key: string, c: char)
    requires EndsIn(key, c) && a != [] && a[|a| - 1] == c && Absent(a, key) && Absent(b, key)
    ensures Absent(a + b, key)
  {
    forall i ensures !OccursAt(a + b, key, i) {
      NotLeft(a, b, key, i);
      if i >= |a| {
        OccursRight(a, b, key, i);
      } else if i + |key| > |a| {
        OccursHas(a + b, key, i, |a| - 1 - i);
      }
    }
  }

  lemma {:induction false} AbsentStart(x: string, y: string, key: string)
    requires key != [] && key[0] !in x && Absent(y, key)
    ensures Absent(x + y, key)
  {
    forall i ensures !OccursAt(x + y, key, i) {
      OccursHas(x + y, key, i, 0);
      if i >= |x| { OccursRight(x, y, key, i); }
    }
  }

  // ---- the printed headers ----

  function FileText(p: Part): string { if p.filename == [] then [] else "; " + FILE_KEY + p.filename + QUOTE }

  function TypeText(p: Part): string { if p.ctype == [] then [] else CRLF + TYPE_KEY + " " + p.ctype }

  function HeaderText(p: Part): string { DISPOSITION + NAME_KEY + p.name + QUOTE + FileText(p) + TypeText(p) }

  ghost predicate Free(s: string, cs: string) { forall c :: c in cs ==> c !in s }

  /** What the printed headers can carry: no quote, equals sign, colon or CR in a name, no quote, colon or CR in a file
      name, no CR and no leading space in a type, which must not look like a file name when there is none. */
  ghost predicate Printable(p: Part)
  {
    && Free(p.name, "\"=:\r") && Free(p.filename, "\":\r") && '\r' !in p.ctype
    && (p.ctype != [] ==> p.ctype[0] != ' ') && (p.filename == [] ==> Absent(p.ctype, FILE_KEY))
  }

  lemma {:induction false} Keys()
    ensures EndsIn(NAME_KEY, '"') && EndsIn(FILE_KEY, '"') && EndsIn(TYPE_KEY, ':')
    ensures |FILE_KEY| == 10 && FILE_KEY[8] == '=' && FILE_KEY[0] == 'f'
    ensures Free(DISPOSITION, "\"\r") && Absent(DISPOSITION, TYPE_KEY)
  {
    forall i ensures !OccursAt(DISPOSITION, TYPE_KEY, i) {
      OccursHas(DISPOSITION, TYPE_KEY, i, 12);
      OccursHas(DISPOSITION, TYPE_KEY, i, 0);
    }
  }

  lemma {:induction false} NoFileKey()
    ensures Absent(DISPOSITION + NAME_KEY, FILE_KEY)
  {
    var h := DISPOSITION + NAME_KEY;
    assert |h| == 38 && h[37] == '"' && h[28] == 't';
    Keys();
    forall i ensures !OccursAt(h, FILE_KEY, i) {
      OccursHas(h, FILE_KEY, i, 9);
      OccursHas(h, FILE_KEY, i, 0);
      if 0 <= i && i + 9 < 32 { assert h[i + 9] == DISPOSITION[i + 9]; }
      if 32 <= i + 9 < 37 { assert h[i + 9] == NAME_KEY[i + 9 - 32]; }
    }
  }

  lemma {:induction false} FirstQuote(val: string, post: string)
    requires '"' !in val
    ensures Find(val + QUOTE + post, QUOTE, 0) == Some(|val|)
  {
    assert EndsIn(QUOTE, '"');
    AbsentNoEnd(val, QUOTE, '"');
    KeyHere(val, QUOTE, post, '"');
  }

  lemma {:induction false} QuotedIs(h: string, pre: string, key: string, val: string, post: string)
    requires EndsIn(key, '"') && Absent(pre, key) && '"' !in val && h == pre + key + (val + QUOTE + post)
    ensures Quoted(h, key) == val
  {
    var rest := val + QUOTE + post;
    KeyHere(pre, key, rest, '"');
    assert h[|pre| + |key|..] == rest;
    FirstQuote(val, post);
    assert rest[..|val|] == val;
  }

  lemma {:induction false} QuotedNone(h: string, key: string)
    requires Absent(h, key)
    ensures Quoted(h, key) == []
  {
    FindAbsent(h, key);
  }

  lemma {:induction false} TypeIs(h: string, pre: string, ctype: string)
    requires Absent(pre, TYPE_KEY) && '\r' !in ctype && ctype != [] && ctype[0] != ' '
    requires h == pre + TYPE_KEY + ([' '] + ctype)
    ensures TypeOf(h) == ctype
  {
    Keys();
    KeyHere(pre, TYPE_KEY, [' '] + ctype, ':');
    assert h[|pre| + |TYPE_KEY|..] == [' '] + ctype;
    OneSpace(ctype);
    NoCrlf(ctype);
  }

  lemma {:induction false} OneSpace(t: string)
    requires t != [] && t[0] != ' '
    ensures SkipSpaces([' '] + t) == t
  {
    assert ([' '] + t)[1..] == t;
    assert SkipSpaces(t) == t;
  }

  lemma {:induction false} NoCrlf(t: string)
    requires '\r' !in t
    ensures Find(t, CRLF, 0).None?
  {
    forall i ensures !OccursAt(t, CRLF, i) { OccursHas(t, CRLF, i, 0); }
    FindAbsent(t, CRLF);
  }

  /** The header up to the quote that closes the name, and what of it the searches meet. */
  lemma {:induction false} NamePart(p: Part) returns (a: string)
    requires Printable(p)
    ensures a == DISPOSITION + NAME_KEY + p.name + QUOTE && Absent(a, FILE_KEY) && Absent(a, TYPE_KEY)
  {
    var dn := DISPOSITION + NAME_KEY;
    a := dn + p.name + QUOTE;
    Keys();
    NoFileKey();
    assert Free(p.name, "\"=:\r");
    NameFree(p);
    AbsentAppend(dn, p.name, FILE_KEY, '"');
    AbsentClose(dn + p.name, FILE_KEY, '"');
    var tail := NAME_KEY + p.name + QUOTE;
    assert a == DISPOSITION + tail;
    AbsentAppend(DISPOSITION, tail, TYPE_KEY, ':');
  }

  lemma {:induction false} NameFree(p: Part)
    requires Printable(p)
    ensures '"' !in p.name && ':' !in NAME_KEY + p.name + QUOTE
    ensures var t := DISPOSITION + NAME_KEY + p.name; t[|t| - 1] != '='
  {
    assert '"' in "\"=:\r" && '=' in "\"=:\r" && ':' in "\"=:\r";
    var t := DISPOSITION + NAME_KEY + p.name;
    if p.name != [] {
      assert t[|t| - 1] == p.name[|p.name| - 1];
    } else {
      assert t[|t| - 1] == NAME_KEY[5];
    }
  }

  lemma {:induction false} Regroup(a: string, b: string, c: string, d: string, e: string)
    ensures a + b + c + d + e == a + (b + c + (d + e))
  {
  }

  lemma {:induction false} RegroupFile(a: string, b: string, c: string, d: string, e: string, f: string)
    ensures a + (b + c + d + e) + f == (a + b) + c + (d + e + f)
  {
  }

  lemma {:induction false} NameOf(p: Part)
    requires Printable(p)
    ensures Quoted(HeaderText(p), NAME_KEY) == p.name
  {
    Keys();
    NameFree(p);
    var post := FileText(p) + TypeText(p);
    assert '"' in "\"\r";
    AbsentNoEnd(DISPOSITION, NAME_KEY, '"');
    Regroup(DISPOSITION + NAME_KEY, p.name, QUOTE, FileText(p), TypeText(p));
    QuotedIs(HeaderText(p), DISPOSITION, NAME_KEY, p.name, post);
  }

  lemma {:induction false} FileOf(p: Part)
    requires Printable(p)
    ensures Quoted(HeaderText(p), FILE_KEY) == p.filename
  {
    Keys();
    var a := NamePart(p);
    if p.filename != [] {
      assert '"' in "\":\r";
      AbsentAppend(a, "; ", FILE_KEY, '"');
      RegroupFile(a, "; ", FILE_KEY, p.filename, QUOTE, TypeText(p));
      QuotedIs(HeaderText(p), a + "; ", FILE_KEY, p.filename, TypeText(p));
    } else {
      NoFileInType(p);
      assert HeaderText(p) == a + TypeText(p);
      AbsentBeyond(a, TypeText(p), FILE_KEY, '"');
      QuotedNone(HeaderText(p), FILE_KEY);
    }
  }

  lemma {:induction false} NoFileInType(p: Part)
    requires Printable(p) && p.filename == []
    ensures Absent(TypeText(p), FILE_KEY)
  {
    Keys();
    if p.ctype == [] {
      AbsentNoEnd([], FILE_KEY, '"');
    } else {
      var x := CRLF + TYPE_KEY + " ";
      assert 'f' !in x;
      AbsentStart(x, p.ctype, FILE_KEY);
    }
  }

  lemma {:induction false} TypeFound(p: Part)
    requires Printable(p)
    ensures TypeOf(HeaderText(p)) == p.ctype
  {
    Keys();
    var a := NamePart(p);
    FileFree(p);
    AbsentAppend(a, FileText(p), TYPE_KEY, ':');
    var b := a + FileText(p);
    if p.ctype == [] {
      assert HeaderText(p) == b;
      FindAbsent(b, TYPE_KEY);
    } else {
      AbsentAppend(b, CRLF, TYPE_KEY, ':');
      assert HeaderText(p) == (b + CRLF) + TYPE_KEY + ([' '] + p.ctype);
      TypeIs(HeaderText(p), b + CRLF, p.ctype);
    }
  }

  lemma {:induction false} FileFree(p: Part)
    requires Printable(p)
    ensures ':' !in FileText(p) && '\r' !in FileText(p)
  {
    assert ':' in "\":\r" && '\r' in "\":\r";
  }

  // ---- one part between boundaries ----

  /** Every CR is followed, two places on, by something that starts neither an empty line nor a boundary. */
  ghost predicate CrSafe(h: string)
  {
    forall i :: 0 <= i < |h| && h[i] == '\r' ==> i + 2 < |h| && h[i + 2] != '\r' && h[i + 2] != '-'
  }

  lemma {:induction false} CrSafeAppend(a: string, b: string)
    requires '\r' !in a && CrSafe(b)
    ensures CrSafe(a + b)
  {
    var h := a + b;
    forall i | 0 <= i < |h| && h[i] == '\r' ensures i + 2 < |h| && h[i + 2] != '\r' && h[i + 2] != '-' {
      assert i >= |a| && b[i - |a|] == '\r';
    }
  }

  lemma {:induction false} TypeSafe(p: Part)
    requires Printable(p)
    ensures CrSafe(TypeText(p))
  {
    if p.ctype != [] {
      var t := TypeText(p);
      assert t == CRLF + (TYPE_KEY + " " + p.ctype) && t[2] == 'C';
      var w := TYPE_KEY + " " + p.ctype;
      assert '\r' !in w && t[1] == '\n';
      forall i | 2 <= i < |t| ensures t[i] != '\r' { assert t[i] == w[i - 2]; }
    }
  }

  lemma {:induction false} HeaderSafe(p: Part)
    requires Printable(p)
    ensures CrSafe(HeaderText(p)) && HeaderText(p) != [] && HeaderText(p)[0] == 'C'
  {
    Keys();
    TypeSafe(p);
    FileFree(p);
    assert '\r' in "\"=:\r" && '\r' in "\"\r" && '\r' !in NAME_KEY && '\r' !in QUOTE;
    var a := DISPOSITION + NAME_KEY + p.name + QUOTE + FileText(p);
    assert '\r' !in a;
    CrSafeAppend(a, TypeText(p));
    assert HeaderText(p)[0] == DISPOSITION[0];
  }

  /** The empty line after safe headers is found where they end. */
  lemma {:induction false} EohIs(h: string, data: string)
    requires CrSafe(h)
    ensures Find(h + EOH + data, EOH, 0) == Some(|h|)
  {
    var u := h + EOH + data;
    assert u[|h|..|h| + 4] == EOH;
    forall i | 0 <= i < |h| ensures !OccursAt(u, EOH, i) {
      OccursHas(u, EOH, i, 0);
      OccursHas(u, EOH, i, 2);
    }
    FindIs(u, EOH, 0, |h|);
  }

  lemma {:induction false} PartIs(p: Part, data: string)
    requires Printable(p)
    ensures PartOf(HeaderText(p) + EOH + data) == p.(data := data)
  {
    var h := HeaderText(p);
    var u := h + EOH + data;
    HeaderSafe(p);
    EohIs(h, data);
    assert u[..|h|] == h && u[|h| + 4..] == data;
    NameOf(p);
    FileOf(p);
    TypeFound(p);
  }

  // ---- separators ----

  /** The separator is not in the data, nor made by the data and the CRLF before it. */
  ghost predicate Clean(b: string, data: string) { Absent(CRLF + data, Sep(b)) }

  lemma {:induction false} SepShape(b: string)
    requires '\r' !in b
    ensures |Sep(b)| == |b| + 4 && Sep(b)[0] == '\r' && Sep(b)[2] == '-' && '\r' !in Sep(b)[1..]
  {
    assert Sep(b)[1..] == "\n--" + b;
  }

  /** The separator does not overlap itself, so between headers and the next separator it stands only in the data. */
  lemma {:induction false} SepOnlyInData(h: string, data: string, rest: string, b: string, i: nat)
    requires CrSafe(h) && '\r' !in b && i < |h| + 4 + |data|
    ensures var u := h + CRLF + (CRLF + data) + (Sep(b) + rest);
      OccursAt(u, Sep(b), i) <==> i >= |h| + 2 && OccursAt(CRLF + data, Sep(b), i - (|h| + 2))
  {
    var sep, a, d := Sep(b), h + CRLF, CRLF + data;
    var u := a + d + (sep + rest);
    SepShape(b);
    OccursHas(u, sep, i, 0);
    OccursHas(u, sep, i, 2);
    if i < |h| {
      assert u[i] == h[i];
      if h[i] == '\r' { assert u[i + 2] == h[i + 2]; }
    } else if i == |h| {
      assert u[i + 2] == '\r';
    } else if i == |h| + 1 {
      assert u[i] == '\n';
    } else {
      assert u == a + (d + (sep + rest));
      OccursRight(a, d + (sep + rest), sep, i);
      InData(d, sep, rest, i - |a|);
    }
  }

  lemma {:induction false} InData(d: string, sep: string, rest: string, j: nat)
    requires j < |d| && sep != [] && sep[0] == '\r' && '\r' !in sep[1..]
    ensures OccursAt(d + (sep + rest), sep, j) <==> OccursAt(d, sep, j)
  {
    var u := d + (sep + rest);
    if j + |sep| <= |d| {
      assert u[j..j + |sep|] == d[j..j + |sep|];
    } else {
      OccursHas(u, sep, j, |d| - j);
      assert u[|d|] == '\r' && sep[|d| - j] == sep[1..][|d| - j - 1];
    }
  }

  // ---- whole bodies ----

  /** Headers that are read back as those of p, whatever the data. */
  ghost predicate HeadersOf(h: string, p: Part)
  {
    h != [] && h[0] == 'C' && CrSafe(h) && forall d :: ReadWith(h, p, d)
  }

  ghost predicate ReadWith(h: string, p: Part, d: string) { PartOf(h + EOH + d) == p.(data := d) }

  lemma {:induction false} HeaderTextIs(p: Part)
    requires Printable(p)
    ensures HeadersOf(HeaderText(p), p)
  {
    HeaderSafe(p);
    forall d ensures ReadWith(HeaderText(p), p, d) { PartIs(p, d); }
  }

  /** The text after a boundary: the parts from the i-th on, under the headers hs, and the closing dashes. */
  function After(hs: seq<string>, parts: seq<Part>, b: string, i: nat): string
    requires |hs| == |parts|
    decreases |parts| - i
  {
    if i >= |parts| then "--" + CRLF
    else CRLF + ((hs[i] + EOH + parts[i].data) + (Sep(b) + After(hs, parts, b, i + 1)))
  }

  function Headers(parts: seq<Part>): (hs: seq<string>)
    ensures |hs| == |parts| && forall i :: 0 <= i < |hs| ==> hs[i] == HeaderText(parts[i])
  {
    seq(|parts|, i requires 0 <= i < |parts| => HeaderText(parts[i]))
  }

  function Print(parts: seq<Part>, b: string): string { "--" + b + After(Headers(parts), parts, b, 0) }

  /** Where the first separator after a printed part stands. */
  lemma {:induction false} FirstInEntity(h: string, data: string, rest: string, b: string) returns (n: nat)
    requires CrSafe(h) && '\r' !in b
    ensures Find(h + EOH + data + (Sep(b) + rest), Sep(b), 0) == Some(n)
    ensures if Clean(b, data) then n == |h + EOH + data|
            else |h| + 2 <= n < |h + EOH + data| && OccursAt(CRLF + data, Sep(b), n - (|h| + 2))
  {
    Halves(h, data);
    n := FirstAfter(h, data, rest, b, Sep(b));
  }

  lemma {:induction false} FirstAfter(h: string, data: string, rest: string, b: string, sep: string) returns (n: nat)
    requires CrSafe(h) && '\r' !in b && sep == Sep(b)
    ensures Find(h + CRLF + (CRLF + data) + (sep + rest), sep, 0) == Some(n)
    ensures if Absent(CRLF + data, sep) then n == |h| + 4 + |data|
            else |h| + 2 <= n < |h| + 4 + |data| && OccursAt(CRLF + data, sep, n - (|h| + 2))
  {
    var d, lo, e := CRLF + data, |h| + 2, |h| + 4 + |data|;
    var u := h + CRLF + d + (sep + rest);
    assert u[e..e + |sep|] == sep;
    SepShape(b);
    forall i: nat | i < e ensures SameAs(u, d, sep, lo, i) {
      SepOnlyInData(h, data, rest, b, i);
    }
    n := FirstOf(u, d, sep, lo, e);
  }

  /** The key stands at i of u just when it stands at the same place of d, which starts at lo. */
  ghost predicate SameAs(u: string, d: string, key: string, lo: nat, i: nat)
  {
    OccursAt(u, key, i) <==> i >= lo && OccursAt(d, key, i - lo)
  }

  lemma {:induction false} FirstOf(u: string, d: string, key: string, lo: nat, e: nat) returns (n: nat)
    requires OccursAt(u, key, e) && e == lo + |d| && key != [] && forall i: nat :: i < e ==> SameAs(u, d, key, lo, i)
    ensures Find(u, key, 0) == Some(n)
    ensures if Absent(d, key) then n == e else lo <= n < e && OccursAt(d, key, n - lo)
  {
    n := Least(u, key, e);
    if !Absent(d, key) {
      var j :| OccursAt(d, key, j);
      assert SameAs(u, d, key, lo, lo + j);
    }
    if n < e { assert SameAs(u, d, key, lo, n); }
  }

  lemma {:induction false} Halves(h: string, data: string)
    ensures h + EOH + data == h + CRLF + (CRLF + data)
  {
    assert EOH == CRLF + CRLF;
  }

  lemma {:induction false} Least(u: string, sep: string, e: nat) returns (n: nat)
    requires OccursAt(u, sep, e)
    ensures Find(u, sep, 0) == Some(n) && n <= e && OccursAt(u, sep, n)
    ensures forall i :: 0 <= i < n ==> !OccursAt(u, sep, i)
  {
    n := Find(u, sep, 0).value;
  }

  /** Cut short at a separator inside its data, a part is read as something else. */
  lemma {:induction false} CutShort(h: string, p: Part, b: string, n: nat, u: string)
    requires HeadersOf(h, p) && '\r' !in b && |h| + 2 <= n < |h + EOH + p.data| <= |u|
    requires u[..|h + EOH + p.data|] == h + EOH + p.data && OccursAt(CRLF + p.data, Sep(b), n - (|h| + 2))
    ensures PartOf(u[..n]) != p
  {
    var k, e := n - (|h| + 4), h + EOH + p.data;
    assert u[..n] == e[..n];
    if n >= |h| + 4 {
      assert e[..n] == h + EOH + p.data[..k];
      assert ReadWith(h, p, p.data[..k]);
    } else {
      SepShape(b);
      OccursHas(CRLF + p.data, Sep(b), n - (|h| + 2), 0);
      OccursHas(CRLF + p.data, Sep(b), n - (|h| + 2), 2);
      assert n == |h| + 2 && p.data[0] == '-';
      NoEoh(h);
      assert e[..n] == h + CRLF;
    }
  }

  lemma {:induction false} NoEoh(h: string)
    requires CrSafe(h)
    ensures Find(h + CRLF, EOH, 0).None?
  {
    var u := h + CRLF;
    forall i ensures !OccursAt(u, EOH, i) {
      OccursHas(u, EOH, i, 0);
      OccursHas(u, EOH, i, 2);
    }
    FindAbsent(u, EOH);
  }

  /** One turn of the loop at the text t of part x: it reads x and leaves t', or it reads something else. */
  ghost predicate Turned(part: string -> Part, next: Turn, t: string, x: Part, t': string, ok: bool)
  {
    match next(t)
    case None => false
    case Some((u, rest)) => if ok then part(u) == x && rest == t' else part(u) != x
  }

  /** The loop returns the parts exactly when every turn it takes is a good one. */
  lemma {:induction false} TurnByTurn(part: string -> Part, next: Turn, ts: seq<string>, xs: seq<Part>, oks: seq<bool>,
                                      i: nat, room: nat, e: nat)
    requires |ts| == |xs| + 1 && |oks| == |xs| && i <= |xs| && e == Min(i + room, |xs|) && next(ts[|xs|]).None?
    requires forall k :: 0 <= k < |xs| ==> Turned(part, next, ts[k], xs[k], ts[k + 1], oks[k])
    ensures PartsFrom(part, next, ts[i], room) == xs[i..e] <==> forall k :: i <= k < e ==> oks[k]
    decreases |xs| - i
  {
    if i == |xs| || room == 0 {
      assert xs[i..e] == [];
    } else {
      assert Turned(part, next, ts[i], xs[i], ts[i + 1], oks[i]);
      TurnByTurn(part, next, ts, xs, oks, i + 1, room - 1, e);
      var (u, rest) := next(ts[i]).value;
      HeadTail(part(u), PartsFrom(part, next, rest, room - 1), xs, i, e);
    }
  }

  lemma {:induction false} HeadTail<T>(x: T, ys: seq<T>, xs: seq<T>, i: nat, e: nat)
    requires i < e <= |xs|
    ensures [x] + ys == xs[i..e] <==> x == xs[i] && ys == xs[i + 1..e]
  {
    assert xs[i..e] == [xs[i]] + xs[i + 1..e];
    if [x] + ys == xs[i..e] {
      assert ([x] + ys)[0] == x && ([x] + ys)[1..] == ys;
      assert xs[i..e][1..] == xs[i + 1..e];
    }
  }

  lemma {:induction false} TurnOf(h: string, p: Part, b: string, rest: string)
    requires HeadersOf(h, p) && '\r' !in b
    ensures Turned(PartOf, Turns(Sep(b)), CRLF + ((h + EOH + p.data) + (Sep(b) + rest)), p, rest, Clean(b, p.data))
  {
    var e, sep := h + EOH + p.data, Sep(b);
    var u := e + (sep + rest);
    var n := FirstInEntity(h, p.data, rest, b);
    NextIs(sep, u, n);
    if Clean(b, p.data) {
      assert u[..n] == e && u[n + |sep|..] == rest;
      assert ReadWith(h, p, p.data);
    } else {
      assert u[..|e|] == e;
      CutShort(h, p, b, n, u);
    }
  }

  lemma {:induction false} NextIs(sep: string, u: string, n: nat)
    requires Find(u, sep, 0) == Some(n)
    ensures Turns(sep)(CRLF + u) == Some((u[..n], u[n + |sep|..]))
  {
    var t := CRLF + u;
    assert t[0] == '\r' && t[1] == '\n' && t[2..] == u;
    assert t[2..2 + n] == u[..n] && t[2 + n + |sep|..] == u[n + |sep|..];
  }

  lemma {:induction false} ClosingStops(sep: string)
    ensures Turns(sep)("--" + CRLF).None?
  {
    assert Dashes("--" + CRLF);
  }

  /** The first boundary is found at the start of the body. */
  lemma {:induction false} StartsWithBoundary(b: string, t: string)
    ensures Find("--" + b + t, "--" + b, 0) == Some(0) && ("--" + b + t)[|b| + 2..] == t
  {
    var d := "--" + b;
    assert (d + t)[0..|d|] == d;
    FindIs(d + t, d, 0, 0);
  }

  /** Parsing the printed body gives back the first max parts exactly when the separator is in none of their data, the
      CRLF before it included. */
  lemma {:induction false} RoundTrip(parts: seq<Part>, b: string, max: nat)
    requires '\r' !in b && |b| + 2 < DELIM_BUF && forall i :: 0 <= i < |parts| ==> Printable(parts[i])
    ensures Parse(Print(parts, b), b, max) == Some(parts[..Min(max, |parts|)])
      <==> forall i :: 0 <= i < Min(max, |parts|) ==> Clean(b, parts[i].data)
  {
    var hs := Headers(parts);
    forall i | 0 <= i < |parts| ensures HeadersOf(hs[i], parts[i]) { HeaderTextIs(parts[i]); }
    AfterFirst(hs, parts, b, max);
    StartsWithBoundary(b, After(hs, parts, b, 0));
  }

  lemma {:induction false} AfterFirst(hs: seq<string>, parts: seq<Part>, b: string, max: nat)
    requires '\r' !in b && |hs| == |parts| && forall i :: 0 <= i < |parts| ==> HeadersOf(hs[i], parts[i])
    ensures PartsAfter(b, After(hs, parts, b, 0), max) == parts[..Min(max, |parts|)]
      <==> forall i :: 0 <= i < Min(max, |parts|) ==> Clean(b, parts[i].data)
  {
    var n := |parts|;
    var ts := seq(n + 1, i requires 0 <= i <= n => After(hs, parts, b, i));
    var oks := CleanOnes(b, parts);
    forall k | 0 <= k < n ensures Turned(PartOf, Turns(Sep(b)), ts[k], parts[k], ts[k + 1], oks[k]) {
      assert HeadersOf(hs[k], parts[k]);
      TurnOf(hs[k], parts[k], b, After(hs, parts, b, k + 1));
    }
    ClosingStops(Sep(b));
    TurnByTurn(PartOf, Turns(Sep(b)), ts, parts, oks, 0, max, Min(max, n));
    assert parts[0..Min(max, n)] == parts[..Min(max, n)];
  }

  ghost function CleanOnes(b: string, parts: seq<Part>): (oks: seq<bool>)
    ensures |oks| == |parts| && forall i :: 0 <= i < |oks| ==> oks[i] == Clean(b, parts[i].data)
  {
    seq(|parts|, i requires 0 <= i < |parts| => Clean(b, parts[i].data))
  }

  /** What comes before the first boundary is skipped. */
  lemma {:induction false} Preamble(pre: string, parts: seq<Part>, b: string, max: nat)
    requires forall i :: 0 <= i < |pre| ==> !OccursAt(pre + Print(parts, b), "--" + b, i)
    ensures Parse(pre + Print(parts, b), b, max) == Parse(Print(parts, b), b, max)
  {
    var rest := After(Headers(parts), parts, b, 0);
    FirstAt(pre, "--" + b, rest, Print(parts, b));
    assert |"--" + b| == |b| + 2 && Print(parts, b)[|b| + 2..] == rest;
    ParseFrom(pre + Print(parts, b), b, max, |pre|, rest);
    ParseFrom(Print(parts, b), b, max, 0, rest);
  }

  lemma {:induction false} ParseFrom(body: string, b: string, max: nat, at: nat, rest: string)
    requires Find(body, "--" + b, 0) == Some(at) && at + |b| + 2 <= |body| && body[at + |b| + 2..] == rest
    ensures Parse(body, b, max) == if |b| + 2 >= DELIM_BUF then None else Some(PartsAfter(b, rest, max))
  {
    ParseIs(body, b, max, FirstBoundary(body, b));
  }

  lemma {:induction false} FirstAt(pre: string, delim: string, rest: string, body: string)
    requires body == delim + rest && forall i :: 0 <= i < |pre| ==> !OccursAt(pre + body, delim, i)
    ensures Find(body, delim, 0) == Some(0) && Find(pre + body, delim, 0) == Some(|pre|)
    ensures (pre + body)[|pre| + |delim|..] == body[0 + |delim|..]
  {
    assert body[0..|delim|] == delim;
    FindIs(body, delim, 0, 0);
    assert (pre + body)[|pre|..|pre| + |delim|] == delim;
    FindIs(pre + body, delim, 0, |pre|);
  }

  /** Any spaces may stand before a type. */
  lemma {:induction false} SpacesSkipped(n: nat, t: string)
    requires t == [] || t[0] != ' '
    ensures SkipSpaces(seq(n, _ => ' ') + t) == t
    decreases n
  {
    if n == 0 {
      assert seq(n, _ => ' ') + t == t;
    } else {
      assert (seq(n, _ => ' ') + t)[1..] == seq(n - 1, _ => ' ') + t;
      SpacesSkipped(n - 1, t);
    }
  }

  /** Data that does not contain the separator but starts with the boundary: the part does not survive. */
  lemma {:induction false} BoundaryAtStart()
    ensures var parts, b := [Part("a", [], [], "--x")], "x";
      Absent("--x", Sep(b)) && Parse(Print(parts, b), b, 1) != Some(parts)
  {
    var p, b := Part("a", [], [], "--x"), "x";
    var parts := [p];
    assert Sep(b) == "\r\n--x" && |"--x"| < |Sep(b)|;
    assert CRLF + "--x" == Sep(b);
    assert OccursAt(CRLF + "--x", Sep(b), 0);
    Keys();
    AbsentNoEnd([], FILE_KEY, '"');
    assert Printable(p);
    RoundTrip(parts, b, 1);
    assert parts[..1] == parts && !Clean(b, parts[0].data);
  }
}
