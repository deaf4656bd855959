/** The IPC "syscall ABI" between gateway and controller: payload encoders and decoders. */
module Wire {
  import opened Bytes
  import Bits

  const MAX_HEADERS := 64
  const MAX_PARAMS := 8

  // ---- big-endian primitives, as values ----

  function U16(v: nat): (r: bytes)
    ensures |r| == 2
  {
    [v / 256 % 256, v % 256]
  }

  function U32(v: nat): (r: bytes)
    ensures |r| == 4
  {
    U16(v / 65536) + U16(v)
  }

  function GetU16(b: bytes): (v: nat)
    requires |b| >= 2
    ensures v < 0x1_0000
  {
    b[0] as int * 256 + b[1] as int
  }

  function GetU32(b: bytes): (v: nat)
    requires |b| >= 4
    ensures v < 0x1_0000_0000
  {
    GetU16(b) * 65536 + GetU16(b[2..])
  }

  function U64(v: nat): (r: bytes) ensures |r| == 8 { U32(v / 0x1_0000_0000) + U32(v) }

  function GetU64(b: bytes): nat requires |b| == 8 { GetU32(b[..4]) * 0x1_0000_0000 + GetU32(b[4..]) }

  /** The number that bytes spell, the most significant first. */
  function BigEndian(b: bytes): nat { if b == [] then 0 else BigEndian(b[..|b| - 1]) * 256 + b[|b| - 1] }

  function Pow256(n: nat): nat { if n == 0 then 1 else 256 * Pow256(n - 1) }

  lemma {:induction false} BigEndianJoin(a: bytes, b: bytes)
    ensures BigEndian(a + b) == BigEndian(a) * Pow256(|b|) + BigEndian(b)
    decreases |b|
  {
    if b == [] {
      assert a + b == a;
    } else {
      var n := |b| - 1;
      assert (a + b)[..|a| + n] == a + b[..n];
      BigEndianJoin(a, b[..n]);
      Distribute(BigEndian(a), Pow256(n), BigEndian(b[..n]));
    }
  }

  lemma {:induction false} Distribute(x: nat, p: nat, y: nat)
    ensures (x * p + y) * 256 == x * (256 * p) + y * 256
  {
  }

  lemma {:induction false} BigEndian2(h: byte, l: byte)
    ensures BigEndian([h, l]) == h * 256 + l
  {
    assert [h, l][..1] == [h] && [h][..0] == [];
    assert BigEndian([h]) == h;
  }

  lemma {:induction false} BigEndian16(v: nat)
    ensures BigEndian(U16(v)) == v % 0x1_0000
  {
    BigEndian2(v / 256 % 256, v % 256);
    Halves(v, 256, 0x1_0000);
  }

  /** Every number on the wire is big-endian. */
  lemma {:induction false} BigEndian32(v: nat)
    ensures BigEndian(U32(v)) == v % 0x1_0000_0000
  {
    BigEndian16(v / 65536);
    BigEndian16(v);
    BigEndianJoin(U16(v / 65536), U16(v));
    assert Pow256(2) == 65536;
    Halves(v, 65536, 0x1_0000_0000);
  }

  lemma {:induction false} Halves(v: nat, m: nat, n: nat)
    requires m > 0 && n == m * m
    ensures v / m % m * m + v % m == v % n
  {
    var q, r := v / m, v % m;
    var a, b := q / m, q % m;
    HalvesOf(v, m, n, q, a, b, r);
  }

  lemma {:induction false} HalvesOf(v: nat, m: nat, n: nat, q: nat, a: nat, b: nat, r: nat)
    requires m > 0 && n == m * m && v == q * m + r && q == a * m + b && b < m && r < m
    ensures b * m + r == v % n
  {
    Small(b, m, r);
    MulOut(a, m, b);
    Bits.DivIs(v, n, a, b * m + r);
  }

  lemma {:induction false} MulOut(a: nat, m: nat, b: nat)
    ensures (a * m + b) * m == a * (m * m) + b * m
  {
  }

  lemma {:induction false} Small(q: nat, m: nat, r: nat)
    requires q < m && r < m
    ensures q * m + r < m * m
  {
    assert q * m <= (m - 1) * m;
  }

  lemma {:induction false} BigEndian64(v: nat)
    ensures BigEndian(U64(v)) == v % 0x1_0000_0000_0000_0000
  {
    BigEndian32(v / 0x1_0000_0000);
    BigEndian32(v);
    BigEndianJoin(U32(v / 0x1_0000_0000), U32(v));
    assert Pow256(4) == 0x1_0000_0000;
    Halves(v, 0x1_0000_0000, 0x1_0000_0000_0000_0000);
  }

  function Slice16(s: bytes): bytes { U16(|s|) + s }

  function Slice32(s: bytes): bytes { U32(|s|) + s }

  lemma {:induction false} GetPut16(v: nat, t: bytes)
    ensures GetU16(U16(v) + t) == v % 0x1_0000
  {
  }

  lemma {:induction false} GetPut32(v: nat, t: bytes)
    ensures GetU32(U32(v) + t) == v % 0x1_0000_0000
  {
    var b := U32(v) + t;
    assert b == U16(v / 65536) + (U16(v) + t);
    assert b[2..] == U16(v) + t;
    GetPut16(v / 65536, U16(v) + t);
    GetPut16(v, t);
  }

  lemma {:induction false} GetPut64(v: nat)
    requires v < 0x1_0000_0000
    ensures GetU64(U64(v)) == v
  {
    assert U64(v)[..4] == U32(0) + [] && U64(v)[4..] == U32(v) + [];
    GetPut32(0, []);
    GetPut32(v, []);
  }

  lemma {:induction false} PutGet16(b: bytes)
    requires |b| >= 2
    ensures U16(GetU16(b)) == b[..2]
  {
  }

  /** Only the low sixteen bits of a value reach U16. */
  lemma {:induction false} U16Low(hi: nat, v: nat)
    ensures U16(hi * 65536 + v) == U16(v)
  {
    assert (hi * 65536 + v) / 256 == hi * 256 + v / 256;
  }

  lemma {:induction false} PutGet32(b: bytes)
    requires |b| >= 4
    ensures U32(GetU32(b)) == b[..4]
  {
    var hi, lo := GetU16(b), GetU16(b[2..]);
    assert (hi * 65536 + lo) / 65536 == hi;
    U16Low(hi, lo);
    PutGet16(b);
    PutGet16(b[2..]);
    assert b[..4] == b[..2] + b[2..][..2];
  }

  // ---- payloads, as values: an encoding, and the strict reader that gives up at the first short field ----

  datatype Field = Field(name: bytes, value: bytes)

  datatype Request = Request(
    verb: bytes, path: bytes, query: bytes, headers: seq<Field>, params: seq<Field>,
    authSub: bytes, authScope: bytes, body: bytes)

  datatype Response = Response(status: nat, ctype: bytes, body: bytes)

  function TakeU8(b: bytes): Option<(byte, bytes)>
  {
    if |b| < 1 then None else Some((b[0], b[1..]))
  }

  function TakeU16(b: bytes): Option<(nat, bytes)>
  {
    if |b| < 2 then None else Some((GetU16(b), b[2..]))
  }

  function TakeU32(b: bytes): Option<(nat, bytes)>
  {
    if |b| < 4 then None else Some((GetU32(b), b[4..]))
  }

  function TakeBytes(b: bytes, n: nat): Option<(bytes, bytes)>
  {
    if |b| < n then None else Some((b[..n], b[n..]))
  }

  function TakeSlice16(b: bytes): Option<(bytes, bytes)>
  {
    var (n, rest) :- TakeU16(b);
    TakeBytes(rest, n)
  }

  function TakeSlice32(b: bytes): Option<(bytes, bytes)>
  {
    var (n, rest) :- TakeU32(b);
    TakeBytes(rest, n)
  }

  function TakeField(b: bytes): Option<(Field, bytes)>
  {
    var (name, b1) :- TakeSlice16(b);
    var (value, rest) :- TakeSlice16(b1);
    Some((Field(name, value), rest))
  }

  function TakeFields(b: bytes, n: nat): (r: Option<(seq<Field>, bytes)>)
    ensures r.Some? ==> |r.value.0| == n
  {
    if n == 0 then Some(([], b)) else
    var (fs, b1) :- TakeFields(b, n - 1);
    var (f, rest) :- TakeField(b1);
    Some((fs + [f], rest))
  }

  /** A count, refused above `max`, and that many fields. */
  function TakeCounted(b: bytes, max: nat): (r: Option<(seq<Field>, bytes)>)
    ensures r.Some? ==> |r.value.0| <= max
  {
    var (n, rest) :- TakeU16(b);
    if n > max then None else TakeFields(rest, n)
  }

  function PutField(f: Field, t: bytes): bytes { Slice16(f.name) + (Slice16(f.value) + t) }

  /** The fields in order, followed by `t`. */
  function PutFields(fs: seq<Field>, t: bytes): bytes
  {
    if fs == [] then t else PutFields(fs[..|fs| - 1], PutField(fs[|fs| - 1], t))
  }

  function PutCounted(fs: seq<Field>, t: bytes): bytes { U16(|fs|) + PutFields(fs, t) }

  /** The request payload followed by `t`. */
  function PutRequest(q: Request, t: bytes): bytes
  {
    Slice16(q.verb) + (Slice16(q.path) + (Slice16(q.query) + PutCounted(q.headers, PutCounted(q.params,
    Slice16(q.authSub) + (Slice16(q.authScope) + (Slice32(q.body) + t))))))
  }

  /** The reader of the wire format, returning what it did not consume. */
  function TakeRequest(b: bytes): Option<(Request, bytes)>
  {
    var (verb, b1) :- TakeSlice16(b);
    var (path, b2) :- TakeSlice16(b1);
    var (query, b3) :- TakeSlice16(b2);
    var (headers, b4) :- TakeCounted(b3, MAX_HEADERS);
    var (params, b5) :- TakeCounted(b4, MAX_PARAMS);
    var (sub, b6) :- TakeSlice16(b5);
    var (scope, b7) :- TakeSlice16(b6);
    var (body, rest) :- TakeSlice32(b7);
    Some((Request(verb, path, query, headers, params, sub, scope, body), rest))
  }

  ghost predicate Short(s: bytes) { |s| <= 0xFFFF }

  ghost predicate ShortFields(fs: seq<Field>)
  {
    forall i :: 0 <= i < |fs| ==> Short(fs[i].name) && Short(fs[i].value)
  }

  /** What a request must satisfy to survive the wire unchanged. */
  ghost predicate Encodable(q: Request)
  {
    && Short(q.verb) && Short(q.path) && Short(q.query)
    && |q.headers| <= MAX_HEADERS && ShortFields(q.headers)
    && |q.params| <= MAX_PARAMS && ShortFields(q.params)
    && Short(q.authSub) && Short(q.authScope)
    && |q.body| < 0x1_0000_0000
  }

  lemma {:induction false} TakePut16(v: nat, t: bytes)
    requires v < 0x1_0000
    ensures TakeU16(U16(v) + t) == Some((v, t))
  {
    GetPut16(v, t);
  }

  lemma {:induction false} TakePutSlice16(s: bytes, t: bytes)
    requires Short(s)
    ensures TakeSlice16(Slice16(s) + t) == Some((s, t))
  {
    assert Slice16(s) + t == U16(|s|) + (s + t);
    TakePut16(|s|, s + t);
  }

  lemma {:induction false} TakePutSlice32(s: bytes, t: bytes)
    requires |s| < 0x1_0000_0000
    ensures TakeSlice32(Slice32(s) + t) == Some((s, t))
  {
    assert Slice32(s) + t == U32(|s|) + (s + t);
    GetPut32(|s|, s + t);
  }

  lemma {:induction false} TakePutField(f: Field, t: bytes)
    requires Short(f.name) && Short(f.value)
    ensures TakeField(PutField(f, t)) == Some((f, t))
  {
    TakePutSlice16(f.name, Slice16(f.value) + t);
    TakePutSlice16(f.value, t);
  }

  lemma {:induction false} TakeNext(b: bytes, n: nat, fs: seq<Field>, b1: bytes, f: Field, t: bytes)
    requires TakeFields(b, n) == Some((fs, b1)) && TakeField(b1) == Some((f, t))
    ensures TakeFields(b, n + 1) == Some((fs + [f], t))
  {
  }

  lemma {:induction false} TakePutFields(fs: seq<Field>, n: nat, t: bytes)
    requires ShortFields(fs) && |fs| == n
    ensures TakeFields(PutFields(fs, t), n) == Some((fs, t))
    decreases n
  {
    if n > 0 {
      var before, f, b := fs[..n - 1], fs[n - 1], PutFields(fs, t);
      assert before + [f] == fs;
      assert b == PutFields(before, PutField(f, t));
      TakePutFields(before, n - 1, PutField(f, t));
      TakePutField(f, t);
      TakeNext(b, n - 1, before, PutField(f, t), f, t);
    }
  }

  lemma {:induction false} TakePutCounted(fs: seq<Field>, t: bytes, max: nat)
    requires ShortFields(fs) && |fs| <= max < 0x1_0000
    ensures TakeCounted(PutCounted(fs, t), max) == Some((fs, t))
  {
    TakePut16(|fs|, PutFields(fs, t));
    TakePutFields(fs, |fs|, t);
  }

  /** Decoding inverts encoding, whatever bytes follow the payload. */
  lemma {:induction false} RequestRoundTrip(q: Request, t: bytes)
    requires Encodable(q)
    ensures TakeRequest(PutRequest(q, t)) == Some((q, t))
  {
    var c7 := Slice32(q.body) + t;
    var c6 := Slice16(q.authScope) + c7;
    var c5 := Slice16(q.authSub) + c6;
    var c4 := PutCounted(q.params, c5);
    var c3 := PutCounted(q.headers, c4);
    var c2 := Slice16(q.query) + c3;
    var c1 := Slice16(q.path) + c2;
    TakePutSlice16(q.verb, c1);
    TakePutSlice16(q.path, c2);
    TakePutSlice16(q.query, c3);
    TakePutCounted(q.headers, c4, MAX_HEADERS);
    TakePutCounted(q.params, c5, MAX_PARAMS);
    TakePutSlice16(q.authSub, c6);
    TakePutSlice16(q.authScope, c7);
    TakePutSlice32(q.body, t);
  }

  lemma {:induction false} PutTakeU16(b: bytes, v: nat, t: bytes)
    requires TakeU16(b) == Some((v, t))
    ensures v < 0x1_0000 && U16(v) + t == b
  {
    PutGet16(b);
  }

  lemma {:induction false} PutTakeSlice16(b: bytes, s: bytes, t: bytes)
    requires TakeSlice16(b) == Some((s, t))
    ensures Short(s) && Slice16(s) + t == b
  {
    var (n, rest) := TakeU16(b).value;
    PutTakeU16(b, n, rest);
    assert rest == s + t;
  }

  lemma {:induction false} PutTakeSlice32(b: bytes, s: bytes, t: bytes)
    requires TakeSlice32(b) == Some((s, t))
    ensures |s| < 0x1_0000_0000 && Slice32(s) + t == b
  {
    PutGet32(b);
  }

  lemma {:induction false} PutTakeField(b: bytes, f: Field, t: bytes)
    requires TakeField(b) == Some((f, t))
    ensures Short(f.name) && Short(f.value) && PutField(f, t) == b
  {
    var (_, b1) := TakeSlice16(b).value;
    PutTakeSlice16(b, f.name, b1);
    PutTakeSlice16(b1, f.value, t);
  }

  lemma {:induction false} PutTakeFields(b: bytes, n: nat, fs: seq<Field>, t: bytes)
    requires TakeFields(b, n) == Some((fs, t))
    ensures ShortFields(fs) && PutFields(fs, t) == b
    decreases n
  {
    if n > 0 {
      var before, f, b1 := LastTaken(b, n, fs, t);
      PutTakeFields(b, n - 1, before, b1);
      PutTakeField(b1, f, t);
      PutLast(before, f, t);
    }
  }

  lemma {:induction false} LastTaken(b: bytes, n: nat, fs: seq<Field>, t: bytes)
    returns (before: seq<Field>, f: Field, b1: bytes)
    requires n > 0 && TakeFields(b, n) == Some((fs, t))
    ensures fs == before + [f] && TakeFields(b, n - 1) == Some((before, b1)) && TakeField(b1) == Some((f, t))
  {
    before, b1 := TakeFields(b, n - 1).value.0, TakeFields(b, n - 1).value.1;
    f := TakeField(b1).value.0;
  }

  lemma {:induction false} PutLast(before: seq<Field>, f: Field, t: bytes)
    ensures PutFields(before + [f], t) == PutFields(before, PutField(f, t))
  {
    assert (before + [f])[..|before|] == before;
  }

  lemma {:induction false} PutTakeCounted(b: bytes, max: nat, fs: seq<Field>, t: bytes)
    requires TakeCounted(b, max) == Some((fs, t))
    ensures ShortFields(fs) && |fs| <= max && PutCounted(fs, t) == b
  {
    var (n, rest) := TakeU16(b).value;
    PutTakeU16(b, n, rest);
    PutTakeFields(rest, n, fs, t);
  }

  /** Whatever payload is accepted re-encodes to exactly the bytes that were consumed. */
  lemma {:induction false} RequestReencode(b: bytes, q: Request, t: bytes)
    requires TakeRequest(b) == Some((q, t))
    ensures Encodable(q) && PutRequest(q, t) == b
  {
    var (_, b1) := TakeSlice16(b).value;
    var (_, b2) := TakeSlice16(b1).value;
    var (_, b3) := TakeSlice16(b2).value;
    var (_, b4) := TakeCounted(b3, MAX_HEADERS).value;
    var (_, b5) := TakeCounted(b4, MAX_PARAMS).value;
    var (_, b6) := TakeSlice16(b5).value;
    var (_, b7) := TakeSlice16(b6).value;
    PutTakeSlice16(b, q.verb, b1);
    PutTakeSlice16(b1, q.path, b2);
    PutTakeSlice16(b2, q.query, b3);
    PutTakeCounted(b3, MAX_HEADERS, q.headers, b4);
    PutTakeCounted(b4, MAX_PARAMS, q.params, b5);
    PutTakeSlice16(b5, q.authSub, b6);
    PutTakeSlice16(b6, q.authScope, b7);
    PutTakeSlice32(b7, q.body, t);
  }

  function FieldsSize(fs: seq<Field>): nat
  {
    if fs == [] then 0
    else FieldsSize(fs[..|fs| - 1]) + 4 + |fs[|fs| - 1].name| + |fs[|fs| - 1].value|
  }

  /** The size formula of a request payload. */
  function RequestSize(q: Request): nat
  {
    18 + |q.verb| + |q.path| + |q.query| + FieldsSize(q.headers) + FieldsSize(q.params)
    + |q.authSub| + |q.authScope| + |q.body|
  }

  lemma {:induction false} FieldsLength(fs: seq<Field>, t: bytes)
    ensures |PutFields(fs, t)| == FieldsSize(fs) + |t|
    decreases |fs|
  {
    if fs != [] {
      FieldsLength(fs[..|fs| - 1], PutField(fs[|fs| - 1], t));
    }
  }

  lemma {:induction false} RequestLength(q: Request, t: bytes)
    ensures |PutRequest(q, t)| == RequestSize(q) + |t|
  {
    var c7 := Slice16(q.authSub) + (Slice16(q.authScope) + (Slice32(q.body) + t));
    FieldsLength(q.params, c7);
    FieldsLength(q.headers, U16(|q.params|) + PutFields(q.params, c7));
  }

  /** One field after the other. */
  function Flat(fs: seq<Field>): bytes { if fs == [] then [] else Flat(fs[..|fs| - 1]) + Pair(fs[|fs| - 1]) }

  function Pair(f: Field): bytes { Slice16(f.name) + Slice16(f.value) }

  lemma {:induction false} FieldsAreFlat(fs: seq<Field>, t: bytes)
    ensures PutFields(fs, t) == Flat(fs) + t
    decreases |fs|
  {
    if fs != [] {
      var n := |fs| - 1;
      FieldsAreFlat(fs[..n], PutField(fs[n], t));
      Assoc(Slice16(fs[n].name), Slice16(fs[n].value), t);
      Assoc(Flat(fs[..n]), Pair(fs[n]), t);
    }
  }

  /** The layout of a request: method, path, query, counted headers, counted parameters, subject, scope and body. */
  lemma {:induction false} RequestLayout(q: Request)
    ensures PutRequest(q, [])
         == Slice16(q.verb) + Slice16(q.path) + Slice16(q.query) + U16(|q.headers|) + Flat(q.headers) + U16(|q.params|)
            + Flat(q.params) + Slice16(q.authSub) + Slice16(q.authScope) + Slice32(q.body)
  {
    var c := Slice16(q.authSub) + (Slice16(q.authScope) + (Slice32(q.body) + []));
    FieldsAreFlat(q.params, c);
    FieldsAreFlat(q.headers, PutCounted(q.params, c));
    Flatten(Slice16(q.verb), Slice16(q.path), Slice16(q.query), U16(|q.headers|), Flat(q.headers),
            U16(|q.params|) + (Flat(q.params) + c));
    Flatten(Slice16(q.verb) + Slice16(q.path) + Slice16(q.query) + U16(|q.headers|) + Flat(q.headers), U16(|q.params|),
            Flat(q.params), Slice16(q.authSub), Slice16(q.authScope), Slice32(q.body) + []);
    assert Slice32(q.body) + [] == Slice32(q.body);
  }

  lemma {:induction false} Flatten(a: bytes, b: bytes, c: bytes, d: bytes, e: bytes, t: bytes)
    ensures a + (b + (c + (d + (e + t)))) == a + b + c + d + e + t
  {
  }

  // ---- responses, plain and with the trailing header blob ----

  function PutResponse(r: Response, t: bytes): bytes
  {
    U16(r.status) + (Slice16(r.ctype) + (Slice32(r.body) + t))
  }

  function TakeResponse(b: bytes): Option<(Response, bytes)>
  {
    var (status, b1) :- TakeU16(b);
    var (ctype, b2) :- TakeSlice16(b1);
    var (body, rest) :- TakeSlice32(b2);
    Some((Response(status, ctype, body), rest))
  }

  /** The plain decoder stops after the body. */
  function DecodeResponse(b: bytes): Option<Response>
  {
    var (r, _) :- TakeResponse(b);
    Some(r)
  }

  /** The extended decoder reads a header blob only when bytes are left. */
  function DecodeResponseEx(b: bytes): Option<(Response, bytes)>
  {
    var (r, rest) :- TakeResponse(b);
    if rest == [] then Some((r, [])) else
    var (headers, _) :- TakeSlice16(rest);
    Some((r, headers))
  }

  lemma {:induction false} ResponseRoundTrip(r: Response, t: bytes)
    requires r.status < 0x1_0000 && Short(r.ctype) && |r.body| < 0x1_0000_0000
    ensures TakeResponse(PutResponse(r, t)) == Some((r, t))
  {
    TakePut16(r.status, Slice16(r.ctype) + (Slice32(r.body) + t));
    TakePutSlice16(r.ctype, Slice32(r.body) + t);
    TakePutSlice32(r.body, t);
  }

  /** Plain and extended payloads decode under each other's decoder. */
  lemma {:induction false} ResponseCompatibility(r: Response, headers: bytes)
    requires r.status < 0x1_0000 && Short(r.ctype) && |r.body| < 0x1_0000_0000 && Short(headers)
    ensures DecodeResponse(PutResponse(r, [])) == Some(r)
    ensures DecodeResponse(PutResponse(r, Slice16(headers))) == Some(r)
    ensures DecodeResponseEx(PutResponse(r, [])) == Some((r, []))
    ensures DecodeResponseEx(PutResponse(r, Slice16(headers))) == Some((r, headers))
  {
    ResponseRoundTrip(r, []);
    ResponseRoundTrip(r, Slice16(headers));
    TakePutSlice16(headers, []);
    assert Slice16(headers) + [] == Slice16(headers);
  }

  // ---- streaming and WebSocket payloads ----

  const FLAG_SSE := 1
  const FLAG_CHUNKED := 2

  datatype Begin = Begin(status: nat, flags: byte, ctype: bytes)

  function PutBegin(b: Begin): bytes { U16(b.status) + ([b.flags] + Slice16(b.ctype)) }

  function DecodeBegin(b: bytes): Option<Begin>
  {
    var (status, b1) :- TakeU16(b);
    var (flags, b2) :- TakeU8(b1);
    var (ctype, _) :- TakeSlice16(b2);
    Some(Begin(status, flags, ctype))
  }

  function DecodeChunk(b: bytes): Option<bytes>
  {
    var (data, _) :- TakeSlice32(b);
    Some(data)
  }

  function PutWsMsg(op: byte, data: bytes): bytes { [op] + Slice32(data) }

  function DecodeWsMsg(b: bytes): Option<(byte, bytes)>
  {
    var (op, b1) :- TakeU8(b);
    var (data, _) :- TakeSlice32(b1);
    Some((op, data))
  }

  lemma {:induction false} StreamPayloadsRoundTrip(b: Begin, op: byte, data: bytes, t: bytes)
    requires b.status < 0x1_0000 && Short(b.ctype) && |data| < 0x1_0000_0000
    ensures DecodeBegin(PutBegin(b) + t) == Some(b)
    ensures DecodeChunk(Slice32(data) + t) == Some(data)
    ensures DecodeWsMsg(PutWsMsg(op, data) + t) == Some((op, data))
  {
    assert PutBegin(b) + t == U16(b.status) + ([b.flags] + (Slice16(b.ctype) + t));
    TakePut16(b.status, [b.flags] + (Slice16(b.ctype) + t));
    TakePutSlice16(b.ctype, t);
    TakePutSlice32(data, t);
    assert PutWsMsg(op, data) + t == [op] + (Slice32(data) + t);
  }
}
