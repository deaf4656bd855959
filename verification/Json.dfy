/** JSON text: what ntc_json_emit prints for a value, what ntc_json_parse reads, and that the second undoes the first.
    Characters stand for bytes. The C library's strtod and %g are parameters. */
module Json {
  import opened Bytes
  import opened Decimals

  const MAX_MEMBERS := 64
  const MAX_DEPTH := 32
  const NUM_BUF := 63
  const WHOLE := 1_000_000_000_000_000

  datatype Json =
    | Null
    | Bool(b: bool)
    | Num(num: real)
    | Str(str: string)
    | Arr(items: seq<Json>)
    | Obj(members: seq<Member>)
  datatype Member = Member(key: string, val: Json)

  datatype Libc = Libc(strtod: string -> real, percentG: real -> string)

  /** What the round trip needs of the C library: strtod reads back the integers %lld prints. */
  ghost predicate ReadsIntegers(c: Libc)
  {
    forall n: int :: -WHOLE < n < WHOLE ==> ReadsInteger(c, n)
  }

  ghost predicate ReadsInteger(c: Libc, n: int) { c.strtod(Integer(n)) == n as real }

  // ---- printing ----

  function HexChar(d: nat): char
    requires d < 16
  {
    if d < 10 then '0' + d as char else 'a' + (d - 10) as char
  }

  /** One character inside a string. */
  function Escape(c: char): (s: string)
    ensures 1 <= |s| <= 6
  {
    if c == '"' then ['\\', '"']
    else if c == '\\' then ['\\', '\\']
    else if c == '\n' then ['\\', 'n']
    else if c == '\r' then ['\\', 'r']
    else if c == '\t' then ['\\', 't']
    else if c == 8 as char then ['\\', 'b']
    else if c == 12 as char then ['\\', 'f']
    else if c < 32 as char then ['\\', 'u', '0', '0', HexChar(c as nat / 16), HexChar(c as nat % 16)]
    else [c]
  }

  /** A string's characters from the i-th on, each as esc spells it. */
  function Spelled(esc: char -> string, x: string, i: nat): string
    decreases |x| - i
  {
    if i >= |x| then [] else esc(x[i]) + Spelled(esc, x, i + 1)
  }

  function Quoted(x: string): string { ['"'] + Spelled(Escape, x, 0) + ['"'] }

  predicate Whole(n: real) { n == n.Floor as real && -WHOLE < n.Floor < WHOLE }

  /** Integers below 10^15 in magnitude are printed as such. */
  lemma {:induction false} WholeNumbers(c: Libc, n: int)
    requires -1_000_000_000_000_000 < n < 1_000_000_000_000_000
    ensures Whole(n as real) && Number(c, n as real) == Integer(n)
  {
  }

  function Number(c: Libc, n: real): string { if Whole(n) then Integer(n.Floor) else c.percentG(n) }

  function Comma(i: nat): string { if i == 0 then "" else "," }

  /** The texts of a container's members from the i-th on, with commas between them. */
  function Joined(ts: seq<string>, i: nat): string
    decreases |ts| - i
  {
    if i >= |ts| then "" else Comma(i) + ts[i] + Joined(ts, i + 1)
  }

  function MemberText(key: string, text: string): string { Quoted(key) + ":" + text }

  /** The compact text of a value. */
  function Text(c: Libc, v: Json): string
    decreases v, 1
  {
    match v
    case Null => "null"
    case Bool(b) => if b then "true" else "false"
    case Num(n) => Number(c, n)
    case Str(x) => Quoted(x)
    case Arr(_) => "[" + Joined(Items(c, v), 0) + "]"
    case Obj(_) => "{" + Joined(Members(c, v), 0) + "}"
  }

  function Items(c: Libc, v: Json): (ts: seq<string>)
    requires v.Arr?
    ensures |ts| == |v.items| && forall i :: 0 <= i < |ts| ==> ts[i] == Text(c, v.items[i])
    decreases v, 0
  {
    seq(|v.items|, i requires 0 <= i < |v.items| => Text(c, v.items[i]))
  }

  function Members(c: Libc, v: Json): (ts: seq<string>)
    requires v.Obj?
    ensures |ts| == |v.members|
    ensures forall i :: 0 <= i < |ts| ==> ts[i] == MemberText(v.members[i].key, Text(c, v.members[i].val))
    decreases v, 0
  {
    seq(|v.members|, i requires 0 <= i < |v.members| => MemberText(v.members[i].key, Text(c, v.members[i].val)))
  }

  // ---- parsing ----

  predicate IsWs(c: char) { c == ' ' || c == '\t' || c == '\n' || c == '\r' }

  function SkipWs(s: string, p: nat): (q: nat)
    requires p <= |s|
    ensures p <= q <= |s|
    decreases |s| - p
  {
    if p < |s| && IsWs(s[p]) then SkipWs(s, p + 1) else p
  }

  function HexValue(h: char): (r: Option<nat>)
    ensures r.Some? ==> r.value < 16
  {
    if '0' <= h <= '9' then Some((h - '0') as nat)
    else if 'a' <= h <= 'f' then Some((h - 'a') as nat + 10)
    else if 'A' <= h <= 'F' then Some((h - 'A') as nat + 10)
    else None
  }

  function Pow16(n: nat): nat { if n == 0 then 1 else 16 * Pow16(n - 1) }

  /** The value of n hexadecimal digits. */
  function HexRun(s: string, p: nat, n: nat): (r: Option<nat>)
    requires p + n <= |s|
    ensures r.Some? ==> r.value < Pow16(n)
  {
    if n == 0 then Some(0) else
    var v :- HexRun(s, p, n - 1);
    var d :- HexValue(s[p + n - 1]);
    Some(16 * v + d)
  }

  /** A code point of at most 16 bits in UTF-8. */
  function Utf8(cp: nat): (s: string)
    requires cp < 0x10000
    ensures 1 <= |s| <= 3
  {
    if cp < 0x80 then [cp as char]
    else if cp < 0x800 then [(0xC0 + cp / 64) as char, (0x80 + cp % 64) as char]
    else [(0xE0 + cp / 4096) as char, (0x80 + cp / 64 % 64) as char, (0x80 + cp % 64) as char]
  }

  /** A backslash escape whose letter is e. */
  function Simple(e: char): Option<char>
  {
    if e == '"' || e == '\\' || e == '/' then Some(e)
    else if e == 'b' then Some(8 as char)
    else if e == 'f' then Some(12 as char)
    else if e == 'n' then Some('\n')
    else if e == 'r' then Some('\r')
    else if e == 't' then Some('\t')
    else None
  }

  /** One character or escape of a string body: what it stands for and where the next begins. */
  function Unit(s: string, p: nat): (r: Option<(string, nat)>)
    ensures r.Some? ==> p < r.value.1 <= |s| && |r.value.0| <= r.value.1 - p
  {
    if p >= |s| then None
    else if s[p] != '\\' then Some(([s[p]], p + 1))
    else if p + 1 >= |s| then None
    else if s[p + 1] == 'u' then
      if p + 6 > |s| then None else
      var cp :- HexRun(s, p + 2, 4);
      assert Pow16(4) == 0x10000;
      Some((Utf8(cp), p + 6))
    else
      var c :- Simple(s[p + 1]);
      Some(([c], p + 2))
  }

  type Units = (string, nat) -> Option<(string, nat)>

  /** A string made of what unit reads, from after its opening quote: its value and where its closing quote ends. */
  function Body(unit: Units, s: string, p: nat): (r: Option<(string, nat)>)
    ensures r.Some? ==> p < r.value.1 <= |s|
    decreases |s| - p
  {
    if p >= |s| then None
    else if s[p] == '"' then Some(([], p + 1))
    else
      var u :- unit(s, p);
      if !(p < u.1 <= |s|) then None else
      var t :- Body(unit, s, u.1);
      Some((u.0 + t.0, t.1))
  }

  function StringAt(s: string, p: nat): (r: Option<(string, nat)>)
    ensures r.Some? ==> p < r.value.1 <= |s|
  {
    Body(Unit, s, p)
  }

  predicate NumChar(c: char) { c == '-' || c == '+' || c == '.' || c == 'e' || c == 'E' || IsDigit(c) }

  function NumEnd(s: string, p: nat): (q: nat)
    requires p <= |s|
    ensures p <= q <= |s| && (p < |s| && NumChar(s[p]) ==> p < q)
    decreases |s| - p
  {
    if p < |s| && NumChar(s[p]) then NumEnd(s, p + 1) else p
  }

  type Result = Option<(Json, nat)>

  function Literal(s: string, p: nat, word: string, v: Json): Result
    requires p <= |s|
  {
    if p + |word| <= |s| && s[p..p + |word|] == word then Some((v, p + |word|)) else None
  }

  /** What parse_value returns at each position of a text. */
  type Values = seq<Result>

  /** The container keeps the first 64 members and drops the rest. */
  function Keep<T>(acc: seq<T>, x: T): seq<T> { if |acc| < MAX_MEMBERS then acc + [x] else acc }

  /** The value at p, when there is one. */
  function At(vals: Values, s: string, p: nat): (r: Result)
    ensures r.Some? ==> p < r.value.1 <= |s|
  {
    if p >= |vals| || vals[p].None? || !(p < vals[p].value.1 <= |s|) then None else vals[p]
  }

  /** The loop over an array's items. */
  function ArrayFrom(vals: Values, s: string, p: nat, acc: seq<Json>): (r: Result)
    ensures r.Some? ==> p < r.value.1 <= |s|
    decreases |s| - p
  {
    var v :- At(vals, s, p);
    var q := SkipWs(s, v.1);
    if q >= |s| then None
    else if s[q] == ',' then ArrayFrom(vals, s, q + 1, Keep(acc, v.0))
    else if s[q] == ']' then Some((Arr(Keep(acc, v.0)), q + 1))
    else None
  }

  /** A member's key, and where its value starts. */
  function KeyAt(s: string, p: nat): (r: Option<(string, nat)>)
    ensures r.Some? ==> p < r.value.1 <= |s|
  {
    if p > |s| then None else
    var k := SkipWs(s, p);
    if k >= |s| || s[k] != '"' then None else
    var key :- StringAt(s, k + 1);
    var d := SkipWs(s, key.1);
    if d >= |s| || s[d] != ':' then None else Some((key.0, d + 1))
  }

  /** The loop over an object's members. */
  function ObjectFrom(keyAt: Units, vals: Values, s: string, p: nat, acc: seq<Member>): (r: Result)
    ensures r.Some? ==> p < r.value.1 <= |s|
    decreases |s| - p
  {
    var k :- keyAt(s, p);
    if k.1 <= p then None else
    var v :- At(vals, s, k.1);
    var acc' := Keep(acc, Member(k.0, v.0));
    var q := SkipWs(s, v.1);
    if q >= |s| then None
    else if s[q] == ',' then ObjectFrom(keyAt, vals, s, q + 1, acc')
    else if s[q] == '}' then Some((Obj(acc'), q + 1))
    else None
  }

  /** An array whose bracket is at q. */
  function ArrayAt(vals: Values, s: string, q: nat): (r: Result)
    requires q < |s|
    ensures r.Some? ==> q < r.value.1 <= |s|
  {
    var o := SkipWs(s, q + 1);
    if o < |s| && s[o] == ']' then Some((Arr([]), o + 1)) else ArrayFrom(vals, s, o, [])
  }

  function ObjectAt(vals: Values, s: string, q: nat): (r: Result)
    requires q < |s|
    ensures r.Some? ==> q < r.value.1 <= |s|
  {
    var o := SkipWs(s, q + 1);
    if o < |s| && s[o] == '}' then Some((Obj([]), o + 1)) else ObjectFrom(KeyAt, vals, s, o, [])
  }

  function Scalar(c: Libc, s: string, q: nat): (r: Result)
    requires q < |s|
    ensures r.Some? ==> q < r.value.1 <= |s|
  {
    if s[q] == '"' then
      var t :- StringAt(s, q + 1);
      Some((Str(t.0), t.1))
    else if s[q] == 't' then Literal(s, q, "true", Bool(true))
    else if s[q] == 'f' then Literal(s, q, "false", Bool(false))
    else if s[q] == 'n' then Literal(s, q, "null", Null)
    else if s[q] == '-' || IsDigit(s[q]) then
      var e := NumEnd(s, q);
      Some((Num(c.strtod(s[q..q + Min(e - q, NUM_BUF)])), e))
    else None
  }

  /** parse_value at p, with depth values open around it. */
  function Value(c: Libc, s: string, p: nat, depth: nat): (r: Result)
    requires p <= |s|
    ensures r.Some? ==> p < r.value.1 <= |s|
    decreases |s| - p, 1
  {
    var q := SkipWs(s, p);
    if depth >= MAX_DEPTH || q >= |s| then None
    else if s[q] == '{' then ObjectAt(ValuesAfter(c, s, p, depth + 1), s, q)
    else if s[q] == '[' then ArrayAt(ValuesAfter(c, s, p, depth + 1), s, q)
    else Scalar(c, s, q)
  }

  function ValuesAfter(c: Libc, s: string, p: nat, depth: nat): (t: Values)
    requires p <= |s|
    ensures |t| == |s| + 1 && forall q :: p < q <= |s| ==> t[q] == Value(c, s, q, depth)
    decreases |s| - p, 0
  {
    seq(|s| + 1, q requires 0 <= q <= |s| => if q > p then Value(c, s, q, depth) else None)
  }

  /** ntc_json_parse: what follows the first value is not looked at. */
  function Parse(c: Libc, s: string): Option<Json>
  {
    var r :- Value(c, s, 0, 0);
    Some(r.0)
  }
}
