/** The HTTP/1.1 request parser (http_request.c). Characters stand for bytes and slices are the strings they denote. */
module Http {
  import opened Bytes
  import opened Decimals

  const CRLF := "\r\n"
  const EOH := "\r\n\r\n"
  const MAX_HEADERS := 64
  const MAX_HEADER_BYTES := 32768
  const SIZE_MAX := 0xFFFF_FFFF_FFFF_FFFF

  datatype Header = Header(name: string, value: string)
  datatype Request = Request(verb: string, target: string, minor: nat, headers: seq<Header>, length: Option<nat>)

  datatype Parsed = Incomplete | Error | Ok(req: Request, consumed: nat)

  function Lower(c: char): char { if 'A' <= c <= 'Z' then c - 'A' + 'a' else c }

  /** islabel_eq: equal up to the case of letters. */
  predicate SameLabel(a: string, b: string)
  {
    |a| == |b| && forall i :: 0 <= i < |a| ==> Lower(a[i]) == Lower(b[i])
  }

  predicate IsTokenChar(c: char)
  {
    'a' <= c <= 'z' || 'A' <= c <= 'Z' || '0' <= c <= '9' || c in "!#$%&'*+-.^_`|~"
  }

  predicate Token(s: string) { s != [] && forall i :: 0 <= i < |s| ==> IsTokenChar(s[i]) }

  predicate IsSpace(c: char) { c in " \t\r\n" || c == 11 as char || c == 12 as char }

  function TrimLeft(s: string): string
  {
    if s != [] && IsSpace(s[0]) then TrimLeft(s[1..]) else s
  }

  function TrimRight(s: string): string
  {
    if s != [] && IsSpace(s[|s| - 1]) then TrimRight(s[..|s| - 1]) else s
  }

  function Trim(s: string): string { TrimRight(TrimLeft(s)) }

  /** The token characters of section 5.6.2 of RFC 9110: visible ones that are not delimiters. */
  lemma {:induction false} TokenChars(c: char)
    ensures IsTokenChar(c) <==> '!' <= c <= '~' && c !in "\"(),/:;<=>?@[\\]{}"
  {
  }

  function OtherCase(c: char): char
  {
    if 'a' <= c <= 'z' then c - 'a' + 'A' else if 'A' <= c <= 'Z' then c - 'A' + 'a' else c
  }

  /** Labels are the same when each character is the other's, in either case. */
  lemma {:induction false} LabelsIgnoreCase(a: string, b: string)
    ensures SameLabel(a, b) <==> |a| == |b| && forall i :: 0 <= i < |a| ==> a[i] == b[i] || a[i] == OtherCase(b[i])
  {
    if |a| == |b| {
      forall i | 0 <= i < |a| ensures Lower(a[i]) == Lower(b[i]) <==> a[i] == b[i] || a[i] == OtherCase(b[i]) { }
    }
  }

  /** Blanks are the space and the five control characters from tab to carriage return. */
  lemma {:induction false} Blanks(c: char)
    ensures IsSpace(c) <==> c == ' ' || 9 as char <= c <= 13 as char
  {
  }

  // ---- the request line ----

  const VERSION := "HTTP/1."

  function RequestLine(line: string): Option<(string, string, nat)>
  {
    var sp1 :- Find(line, " ", 0);
    var rest := line[sp1 + 1..];
    var sp2 :- Find(rest, " ", 0);
    var verb, target := line[..sp1], rest[..sp2];
    if !Token(verb) || target == [] then None else
    var minor :- Minor(rest[sp2 + 1..]);
    Some((verb, target, minor))
  }

  /** The minor version of HTTP/1.0 and HTTP/1.1. */
  function Minor(version: string): Option<nat>
  {
    if |version| != 8 || version[..7] != VERSION || version[7] !in "01" then None
    else Some(if version[7] == '0' then 0 else 1)
  }

  /** The path ends at the first question mark; the query is what follows it. */
  function PathQuery(target: string): (string, string)
  {
    match Find(target, "?", 0)
    case None => (target, [])
    case Some(q) => (target[..q], target[q + 1..])
  }

  // ---- header fields ----

  function Field(line: string): Option<Header>
  {
    var colon :- Find(line, ":", 0);
    if Token(line[..colon]) then Some(Header(line[..colon], Trim(line[colon + 1..]))) else None
  }

  predicate IsLength(h: Header) { SameLabel(h.name, "content-length") }

  predicate Digits(s: string) { forall i :: 0 <= i < |s| ==> IsDigit(s[i]) }

  /** A Content-Length value: None when it is empty, has anything but digits, or does not fit size_t. */
  function LengthOf(value: string): Option<nat>
  {
    if value == [] || !Digits(value) || ValueOf(value) > SIZE_MAX then None else Some(ValueOf(value))
  }

  datatype Fields = Fields(headers: seq<Header>, length: Option<nat>)

  /** One more field: at most 64 of them, and every Content-Length the same number. */
  function AddField(f: Fields, h: Header): Option<Fields>
  {
    if |f.headers| >= MAX_HEADERS then None
    else if !IsLength(h) then Some(Fields(f.headers + [h], f.length))
    else
      var n :- LengthOf(h.value);
      if f.length.Some? && f.length.value != n then None else Some(Fields(f.headers + [h], Some(n)))
  }

  /** The header loop over what is left of the head, which ends in CRLF. */
  function FieldsFrom(t: string, f: Fields): Option<Fields>
    decreases |t|
  {
    if |t| <= 2 then Some(f) else
    var le :- Find(t, CRLF, 0);
    var h :- Field(t[..le]);
    var f' :- AddField(f, h);
    FieldsFrom(t[le + 2..], f')
  }

  /** The head of a request, up to and including the CRLF of its last line. */
  function ParseHead(s: string): Option<Request>
  {
    var rl :- Find(s, CRLF, 0);
    var line :- RequestLine(s[..rl]);
    var f :- FieldsFrom(s[rl + 2..], Fields([], None));
    Some(Request(line.0, line.1, line.2, f.headers, f.length))
  }

  /** ntc_http_parse_request. */
  function Parse(buf: string): Parsed
  {
    match Find(buf, EOH, 0)
    case None => if |buf| > MAX_HEADER_BYTES then Error else Incomplete
    case Some(eoh) => Verdict(ParseHead(buf[..eoh + 2]), eoh)
  }

  function Verdict(r: Option<Request>, eoh: nat): Parsed { if r.None? then Error else Ok(r.value, eoh + 4) }

  // ---- stability ----

  lemma {:induction false} SliceAgrees<T>(a: seq<T>, b: seq<T>, n: nat, i: nat, k: nat)
    requires i + k <= n <= |a| && n <= |b| && a[..n] == b[..n]
    ensures a[i..i + k] == b[i..i + k]
  {
    assert a[i..i + k] == a[..n][i..i + k];
    assert b[i..i + k] == b[..n][i..i + k];
  }

  /** Where a needle is found depends only on the text up to its end. */
  lemma {:induction false} FindPrefix<T>(a: seq<T>, b: seq<T>, needle: seq<T>, at: nat)
    requires Find(a, needle, 0) == Some(at)
    requires |b| >= at + |needle| && b[..at + |needle|] == a[..at + |needle|]
    ensures Find(b, needle, 0) == Some(at)
  {
    SliceAgrees(a, b, at + |needle|, at, |needle|);
    forall i | 0 <= i < at ensures !OccursAt(b, needle, i) {
      assert !OccursAt(a, needle, i);
      SliceAgrees(a, b, at + |needle|, i, |needle|);
    }
    FindIs(b, needle, 0, at);
  }

  /** Once the end of the head is in the buffer, more bytes change nothing: the verdict, what was consumed and every
      field of the request depend only on the bytes up to it. */
  lemma {:induction false} Stable(buf: string, more: string)
    requires Find(buf, EOH, 0).Some?
    ensures Parse(buf + more) == Parse(buf) && !Parse(buf).Incomplete?
    ensures Parse(buf).Ok? ==> Parse(buf[..Parse(buf).consumed]) == Parse(buf)
  {
    var eoh := Find(buf, EOH, 0).value;
    var long, head := buf + more, buf[..eoh + 4];
    assert long[..eoh + 4] == head[..eoh + 4] == buf[..eoh + 4];
    FindPrefix(buf, long, EOH, eoh);
    FindPrefix(buf, head, EOH, eoh);
    assert long[..eoh + 2] == head[..eoh + 2] == buf[..eoh + 2];
  }

  // ---- Content-Length ----

  /** What the fields say about the length: each Content-Length is that number in decimal, below 2^64. */
  ghost predicate Exact(f: Fields)
  {
    && |f.headers| <= MAX_HEADERS
    && (f.length.Some? <==> exists h :: h in f.headers && IsLength(h))
    && forall h :: h in f.headers && IsLength(h) ==> LengthOf(h.value) == f.length
  }

  lemma {:induction false} AddExact(f: Fields, h: Header)
    requires Exact(f) && AddField(f, h).Some?
    ensures Exact(AddField(f, h).value) && AddField(f, h).value.headers == f.headers + [h]
  {
    var g := AddField(f, h).value;
    if IsLength(h) {
      assert h in g.headers;
    } else if g.length.Some? {
      var k :| k in f.headers && IsLength(k);
      assert k in g.headers;
    }
  }

  lemma {:induction false} FieldsExact(t: string, f: Fields)
    requires Exact(f)
    ensures FieldsFrom(t, f).Some? ==> Exact(FieldsFrom(t, f).value)
    decreases |t|
  {
    if FieldsFrom(t, f).Some? && |t| > 2 {
      var le := Find(t, CRLF, 0).value;
      var h := Field(t[..le]).value;
      AddExact(f, h);
      FieldsExact(t[le + 2..], AddField(f, h).value);
    }
  }

  /** For every accepted request the length is the exact decimal value shared by all its Content-Length fields, and
      there is none exactly when there is no such field. */
  lemma {:induction false} LengthIsExact(buf: string)
    requires Parse(buf).Ok?
    ensures Exact(Fields(Parse(buf).req.headers, Parse(buf).req.length))
  {
    var s := buf[..Find(buf, EOH, 0).value + 2];
    FieldsExact(s[Find(s, CRLF, 0).value + 2..], Fields([], None));
  }

  // ---- arrival ----

  /** What process_request does with the bytes so far: wait for more, close, answer with an error, or go on. */
  datatype Decision = Wait | Close | Reject(status: nat) | Dispatch(req: Request, consumed: nat)

  /** The first half of process_request; maxBody 0 is no limit and room is the size of the connection's buffer. */
  function Decide(buf: string, eof: bool, maxBody: nat, room: nat): Decision
  {
    match Parse(buf)
    case Incomplete => if eof then Close else if |buf| < room then Wait else Reject(431)
    case Error => Reject(400)
    case Ok(r, n) =>
      if r.length.None? then Dispatch(r, n)
      else if maxBody != 0 && r.length.value > maxBody then Reject(413)
      else if n + r.length.value > SIZE_MAX then Reject(400)
      else if n + r.length.value > |buf| then (if eof then Close else if |buf| < room then Wait else Reject(413))
      else Dispatch(r, n)
  }

  /** How many bytes of body a request announces. */
  function BodyLen(r: Request): nat { if r.length.None? then 0 else r.length.value }

  /** The body is too large for the limit, if there is one. */
  predicate TooLarge(r: Request, maxBody: nat) { maxBody > 0 && BodyLen(r) > maxBody }

  /** The head is here, its body is acceptable and not all here yet. */
  ghost predicate Pending(buf: string, maxBody: nat)
  {
    match Parse(buf)
    case Ok(r, n) => !TooLarge(r, maxBody) && |buf| < n + BodyLen(r) <= SIZE_MAX
    case _ => Parse(buf).Incomplete?
  }

  /** Exactly when a request is dispatched: it parses, its body is within the limit, and head and body are here. */
  lemma {:induction false} DispatchIff(buf: string, eof: bool, maxBody: nat, room: nat, r: Request, n: nat)
    requires |buf| <= SIZE_MAX
    ensures Decide(buf, eof, maxBody, room) == Dispatch(r, n)
      <==> Parse(buf) == Ok(r, n) && !TooLarge(r, maxBody) && n + BodyLen(r) <= |buf|
  {
    if Parse(buf).Ok? { ConsumedIsHere(buf); }
  }

  lemma {:induction false} ConsumedIsHere(buf: string)
    requires Parse(buf).Ok?
    ensures Parse(buf).consumed <= |buf|
  {
  }

  /** And when it is not: while head or body are missing it waits, unless the client is done sending, or the buffer is
      full; what does not parse, or announces more than a size can hold, is a 400, and a body over the limit a 413. */
  lemma {:induction false} OtherwiseIff(buf: string, eof: bool, maxBody: nat, room: nat)
    requires |buf| <= SIZE_MAX
    ensures Decide(buf, eof, maxBody, room).Wait? <==> Pending(buf, maxBody) && !eof && |buf| < room
    ensures Decide(buf, eof, maxBody, room).Close? <==> Pending(buf, maxBody) && eof
    ensures Decide(buf, eof, maxBody, room) == Reject(431)
      <==> Parse(buf).Incomplete? && !eof && |buf| >= room
    ensures Decide(buf, eof, maxBody, room) == Reject(413)
      <==> Parse(buf).Ok? && (TooLarge(Parse(buf).req, maxBody) || (Pending(buf, maxBody) && !eof && |buf| >= room))
    ensures Decide(buf, eof, maxBody, room) == Reject(400)
      <==> Parse(buf).Error? || (Parse(buf).Ok? && !TooLarge(Parse(buf).req, maxBody)
                                 && Parse(buf).consumed + BodyLen(Parse(buf).req) > SIZE_MAX)
  {
    if Parse(buf).Ok? { ConsumedIsHere(buf); }
  }

  /** However a request arrives: a decision taken once its head is complete is the decision on any longer buffer. */
  lemma {:induction false} DecisionsStand(buf: string, more: string, eof: bool, maxBody: nat, room: nat)
    requires Find(buf, EOH, 0).Some? && |buf + more| <= room && (more != [] ==> !eof)
    requires !Decide(buf, false, maxBody, room).Wait?
    ensures Decide(buf + more, eof, maxBody, room) == Decide(buf, eof, maxBody, room)
  {
    Stable(buf, more);
    if more == [] { assert buf + more == buf; }
  }

  // ---- the loops ----

  method FindEoh(buf: string) returns (r: Option<nat>)
    ensures r == Find(buf, EOH, 0)
  {
    var i: nat := 0;
    while i + 4 <= |buf|
      invariant i <= |buf| && Find(buf, EOH, 0) == Find(buf, EOH, i)
    {
      if buf[i..i + 4] == EOH { return Some(i); }
      i := i + 1;
    }
    r := None;
  }

  method FindCrlf(t: string) returns (r: Option<nat>)
    ensures r == Find(t, CRLF, 0)
  {
    var p: nat := 0;
    while p + 1 < |t|
      invariant p <= |t| && Find(t, CRLF, 0) == Find(t, CRLF, p)
    {
      assert t[p..p + 2] == [t[p], t[p + 1]];
      if t[p] == '\r' && t[p + 1] == '\n' { return Some(p); }
      p := p + 1;
    }
    r := None;
  }

  lemma {:induction false} ValueGrows(s: string, i: nat)
    requires Digits(s) && i <= |s|
    ensures ValueOf(s[..i]) <= ValueOf(s)
    decreases |s|
  {
    if i < |s| {
      var p := s[..|s| - 1];
      ValueGrows(p, i);
      assert p[..i] == s[..i];
    } else {
      assert s[..i] == s;
    }
  }

  /** The digit loop, with its overflow tests. */
  method ReadLength(value: string) returns (r: Option<nat>)
    ensures r == LengthOf(value)
  {
    if |value| == 0 { return None; }
    var i: nat, cl: nat := 0, 0;
    while i < |value|
      invariant i <= |value| && Digits(value[..i]) && cl == ValueOf(value[..i]) <= SIZE_MAX
    {
      var ch := value[i];
      if !IsDigit(ch) { return None; }
      assert value[..i + 1][..i] == value[..i];
      if Digits(value) { ValueGrows(value, i + 1); }
      if cl * 10 > SIZE_MAX { return None; }
      cl := cl * 10;
      if cl + DigitValue(ch) > SIZE_MAX { return None; }
      cl, i := cl + DigitValue(ch), i + 1;
    }
    assert value[..i] == value;
    r := Some(cl);
  }

  /** One header line into the request being filled. */
  method ReadField(line: string, f: Fields) returns (r: Option<Fields>)
    ensures r == (match Field(line) case None => None case Some(h) => AddField(f, h))
  {
    var colon := Find(line, ":", 0);
    if colon.None? { return None; }
    var name, value := line[..colon.value], Trim(line[colon.value + 1..]);
    if !Token(name) || |f.headers| >= MAX_HEADERS { return None; }
    var h := Header(name, value);
    var length := f.length;
    if SameLabel(name, "content-length") {
      var cl := ReadLength(value);
      if cl.None? || (length.Some? && length != cl) { return None; }
      length := cl;
    }
    r := Some(Fields(f.headers + [h], length));
  }

  /** The header loop of ntc_http_parse_request. */
  method ReadFields(s: string, from: nat) returns (r: Option<Fields>)
    requires from <= |s|
    ensures r == FieldsFrom(s[from..], Fields([], None))
  {
    var cur: nat, f, ok := from, Fields([], None), true;
    ghost var all := FieldsFrom(s[from..], f);
    while cur + 2 < |s| && ok
      invariant cur <= |s| && all == if ok then FieldsFrom(s[cur..], f) else None
      decreases |s| - cur, ok
    {
      ok, cur, f := ReadLine(s, cur, f);
    }
    r := if ok then Some(f) else None;
  }

  /** One turn of the header loop. */
  method ReadLine(s: string, cur: nat, f: Fields) returns (ok: bool, next: nat, g: Fields)
    requires cur + 2 < |s|
    ensures if ok then cur < next <= |s| && FieldsFrom(s[cur..], f) == FieldsFrom(s[next..], g)
            else next == cur && FieldsFrom(s[cur..], f) == None
  {
    var t := s[cur..];
    var le := FindCrlf(t);
    ok, next, g := false, cur, f;
    if le.Some? {
      var r := ReadField(t[..le.value], f);
      NextLine(t, f, le.value, r);
      if r.Some? {
        ok, next, g := true, cur + le.value + 2, r.value;
        assert t[le.value + 2..] == s[next..];
      }
    }
  }

  lemma {:induction false} NextLine(t: string, f: Fields, le: nat, r: Option<Fields>)
    requires |t| > 2 && Find(t, CRLF, 0) == Some(le)
    requires r == (match Field(t[..le]) case None => None case Some(h) => AddField(f, h))
    ensures FieldsFrom(t, f) == if r.None? then None else FieldsFrom(t[le + 2..], r.value)
  {
  }

  method ParseRequest(buf: string) returns (r: Parsed)
    ensures r == Parse(buf)
  {
    var eoh := FindEoh(buf);
    if eoh.None? {
      r := if |buf| > MAX_HEADER_BYTES then Error else Incomplete;
    } else {
      var q := ReadHead(buf[..eoh.value + 2]);
      r := Verdict(q, eoh.value);
    }
  }

  method ReadHead(s: string) returns (r: Option<Request>)
    ensures r == ParseHead(s)
  {
    var rl := FindCrlf(s);
    if rl.None? { return None; }
    var line := RequestLine(s[..rl.value]);
    if line.None? { return None; }
    var f := ReadFields(s, rl.value + 2);
    if f.None? { return None; }
    var (verb, target, minor) := line.value;
    r := Some(Request(verb, target, minor, f.value.headers, f.value.length));
  }
}
