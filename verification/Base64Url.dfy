/** base64url without padding characters (section 5 of RFC 4648). Both directions are tied to one bit-level reference:
    the text, read as six-bit digits, is the message's bits and fewer than six zero bits. */
module Base64Url {
  import opened Bytes
  import opened Bits

  const WRAP32 := 0x1_0000_0000

  // ---- the reference: strings of bits ----

  /** The w low bits of n, the highest first. */
  function BitsOf(n: nat, w: nat): (r: seq<bool>)
    ensures |r| == w
    decreases w, n
  {
    if w == 0 then [] else BitsOf(n / 2, w - 1) + [n % 2 == 1]
  }

  function Octets(m: bytes): (r: seq<bool>)
    ensures |r| == 8 * |m|
  {
    if m == [] then [] else Octets(m[..|m| - 1]) + BitsOf(m[|m| - 1], 8)
  }

  function Letter(v: nat): char
    requires v < 64
  {
    if v < 26 then 'A' + v as char
    else if v < 52 then 'a' + (v - 26) as char
    else if v < 62 then '0' + (v - 52) as char
    else if v == 62 then '-' else '_'
  }

  /** b64val. */
  function Value(c: char): (v: Option<nat>)
    ensures v.Some? ==> v.value < 64 && Letter(v.value) == c
  {
    if 'A' <= c <= 'Z' then Some((c - 'A') as nat)
    else if 'a' <= c <= 'z' then Some((c - 'a') as nat + 26)
    else if '0' <= c <= '9' then Some((c - '0') as nat + 52)
    else if c == '-' then Some(62)
    else if c == '_' then Some(63)
    else None
  }

  const ALPHABET := "ABCDEFGHIJKLMNOPQRSTUVWXYZabcdefghijklmnopqrstuvwxyz0123456789-_"

  /** The alphabet of section 5 of RFC 4648. */
  lemma {:induction false} LettersAre()
    ensures [
      Letter(0), Letter(1), Letter(2), Letter(3), Letter(4), Letter(5), Letter(6), Letter(7),
      Letter(8), Letter(9), Letter(10), Letter(11), Letter(12), Letter(13), Letter(14), Letter(15),
      Letter(16), Letter(17), Letter(18), Letter(19), Letter(20), Letter(21), Letter(22), Letter(23),
      Letter(24), Letter(25), Letter(26), Letter(27), Letter(28), Letter(29), Letter(30), Letter(31),
      Letter(32), Letter(33), Letter(34), Letter(35), Letter(36), Letter(37), Letter(38), Letter(39),
      Letter(40), Letter(41), Letter(42), Letter(43), Letter(44), Letter(45), Letter(46), Letter(47),
      Letter(48), Letter(49), Letter(50), Letter(51), Letter(52), Letter(53), Letter(54), Letter(55),
      Letter(56), Letter(57), Letter(58), Letter(59), Letter(60), Letter(61), Letter(62), Letter(63)] == ALPHABET
  {
  }

  predicate Text(s: string) { forall i :: 0 <= i < |s| ==> Value(s[i]).Some? }

  function Digits(s: string): (r: seq<bool>)
    requires Text(s)
    ensures |r| == 6 * |s|
  {
    if s == [] then [] else Digits(s[..|s| - 1]) + BitsOf(Value(s[|s| - 1]).value, 6)
  }

  lemma {:induction false} OctetsAppend(a: bytes, b: bytes)
    ensures Octets(a + b) == Octets(a) + Octets(b)
    decreases |b|
  {
    if b == [] {
      assert a + b == a;
    } else {
      var n := |b| - 1;
      assert (a + b)[..|a + b| - 1] == a + b[..n];
      OctetsAppend(a, b[..n]);
      Assoc(Octets(a), Octets(b[..n]), BitsOf(b[n], 8));
    }
  }

  lemma {:induction false} DigitsAppend(a: string, b: string)
    requires Text(a) && Text(b)
    ensures Text(a + b) && Digits(a + b) == Digits(a) + Digits(b)
    decreases |b|
  {
    if b == [] {
      assert a + b == a;
    } else {
      var n := |b| - 1;
      assert (a + b)[..|a + b| - 1] == a + b[..n];
      DigitsAppend(a, b[..n]);
      Assoc(Digits(a), Digits(b[..n]), BitsOf(Value(b[n]).value, 6));
    }
  }

  /** Concatenating bit strings is shifting and adding. */
  lemma {:induction false} BitsJoin(hi: nat, lo: nat, w: nat, k: nat)
    requires lo < Pow2(k)
    ensures BitsOf(hi * Pow2(k) + lo, w + k) == BitsOf(hi, w) + BitsOf(lo, k)
    decreases k
  {
    if k > 0 {
      var p := Pow2(k - 1);
      BitsJoin(hi, lo / 2, w, k - 1);
      Halve(hi, p, lo);
      Assoc(BitsOf(hi, w), BitsOf(lo / 2, k - 1), [lo % 2 == 1]);
    }
  }

  lemma {:induction false} Halve(hi: nat, p: nat, lo: nat)
    ensures (hi * (2 * p) + lo) / 2 == hi * p + lo / 2 && (hi * (2 * p) + lo) % 2 == lo % 2
  {
    assert hi * (2 * p) == 2 * (hi * p);
  }

  lemma {:induction false} SplitEqual<T>(a: seq<T>, b: seq<T>, c: seq<T>, d: seq<T>)
    requires |a| == |c| && a + b == c + d
    ensures a == c && b == d
  {
    assert a == (a + b)[..|a|] && c == (c + d)[..|c|];
    assert b == (a + b)[|a|..] && d == (c + d)[|c|..];
  }

  lemma {:induction false} Zero(n: nat, k: nat)
    requires n == 0
    ensures BitsOf(n, k) == seq(k, _ => false)
    decreases k
  {
    if k > 0 { Zero(0, k - 1); }
  }

  /** Bit strings of equal length are equal only for equal numbers. */
  lemma {:induction false} BitsInjective(a: nat, b: nat, w: nat)
    requires a < Pow2(w) && b < Pow2(w) && BitsOf(a, w) == BitsOf(b, w)
    ensures a == b
    decreases w
  {
    if w > 0 {
      SplitEqual(BitsOf(a / 2, w - 1), [a % 2 == 1], BitsOf(b / 2, w - 1), [b % 2 == 1]);
      assert [a % 2 == 1][0] == [b % 2 == 1][0];
      BitsInjective(a / 2, b / 2, w - 1);
    }
  }

  lemma {:induction false} OctetInjective(a: byte, b: byte)
    requires BitsOf(a, 8) == BitsOf(b, 8)
    ensures a == b
  {
    Pow2Of8();
    BitsInjective(a, b, 8);
  }

  lemma {:induction false} Unsnoc<T>(s: seq<T>) returns (p: seq<T>, x: T)
    requires s != []
    ensures s == p + [x]
  {
    p, x := s[..|s| - 1], s[|s| - 1];
  }

  lemma {:induction false} OctetsSnoc(p: bytes, x: byte)
    ensures Octets(p + [x]) == Octets(p) + BitsOf(x, 8)
  {
    assert (p + [x])[..|p + [x]| - 1] == p;
  }

  lemma {:induction false} OctetsInjective(a: bytes, b: bytes)
    requires Octets(a) == Octets(b)
    ensures a == b
    decreases |a|
  {
    assert |a| == |b|;
    if a != [] {
      var p, x := Unsnoc(a);
      var q, y := Unsnoc(b);
      OctetsSnoc(p, x);
      OctetsSnoc(q, y);
      SplitEqual(Octets(p), BitsOf(x, 8), Octets(q), BitsOf(y, 8));
      OctetInjective(x, y);
      OctetsInjective(p, q);
    }
  }

  // ---- encoding: blocks of three bytes ----

  /** The three bytes of a block as one number, bytes past the end being zero. */
  function Block(m: bytes): (n: nat)
    requires m != []
    ensures n < 0x100_0000
  {
    m[0] as int * 65536 + (if |m| > 1 then m[1] as int * 256 else 0) + (if |m| > 2 then m[2] else 0)
  }

  function BlockChars(m: bytes): nat { if |m| >= 3 then 4 else |m| + 1 }

  /** The j-th six-bit digit of a block. */
  function Digit(n: nat, j: nat): (v: nat)
    requires j < 4
    ensures v < 64
  {
    (if j == 0 then n / 262144 else if j == 1 then n / 4096 else if j == 2 then n / 64 else n) % 64
  }

  function Group(m: bytes): (s: string)
    requires m != []
    ensures |s| == BlockChars(m)
  {
    seq(BlockChars(m), j requires 0 <= j < BlockChars(m) => Letter(Digit(Block(m), j)))
  }

  function Encode(m: bytes): string
    decreases |m|
  {
    if m == [] then [] else Group(m) + (if |m| <= 3 then [] else Encode(m[3..]))
  }

  lemma {:induction false} LetterValue(v: nat)
    requires v < 64
    ensures Value(Letter(v)) == Some(v)
  {
  }

  lemma {:induction false} Join6(a: nat, v: nat, w: nat)
    requires v < 64
    ensures BitsOf(a * 64 + v, w + 6) == BitsOf(a, w) + BitsOf(v, 6)
  {
    assert Pow2(6) == 64;
    BitsJoin(a, v, w, 6);
  }

  lemma {:induction false} Join8(a: nat, v: nat, w: nat)
    requires v < 256
    ensures BitsOf(a * 256 + v, w + 8) == BitsOf(a, w) + BitsOf(v, 8)
  {
    Pow2Of8();
    BitsJoin(a, v, w, 8);
  }

  lemma {:induction false} DigitsSnoc(s: string, v: nat)
    requires Text(s) && v < 64
    ensures Text(s + [Letter(v)]) && Digits(s + [Letter(v)]) == Digits(s) + BitsOf(v, 6)
  {
    LetterValue(v);
    assert (s + [Letter(v)])[..|s + [Letter(v)]| - 1] == s;
  }

  /** The first k letters of a block are the top 6k bits of its number. */
  lemma {:induction false} GroupDigits(m: bytes, k: nat)
    requires m != [] && k <= BlockChars(m)
    ensures Text(Group(m)[..k]) && Digits(Group(m)[..k]) == BitsOf(Top(Block(m), k), 6 * k)
    decreases k
  {
    if k > 0 {
      GroupDigits(m, k - 1);
      var n, g := Block(m), Group(m)[..k - 1];
      assert Group(m)[..k] == g + [Letter(Digit(n, k - 1))];
      DigitsSnoc(g, Digit(n, k - 1));
      TopBits(n, k);
    }
  }

  lemma {:induction false} TopBits(n: nat, k: nat)
    requires 0 < k <= 4
    ensures BitsOf(Top(n, k), 6 * k) == BitsOf(Top(n, k - 1), 6 * (k - 1)) + BitsOf(Digit(n, k - 1), 6)
  {
    TopStep(n, k);
    Join6(Top(n, k - 1), Digit(n, k - 1), 6 * (k - 1));
  }

  /** A 24-bit number without its last 24 - 6k bits. */
  function Top(n: nat, k: nat): nat
    requires k <= 4
  {
    if k == 0 then n / 16777216 else if k == 1 then n / 262144
    else if k == 2 then n / 4096 else if k == 3 then n / 64 else n
  }

  lemma {:induction false} TopStep(n: nat, k: nat)
    requires 0 < k <= 4
    ensures Top(n, k) == Top(n, k - 1) * 64 + Digit(n, k - 1)
  {
  }

  lemma {:induction false} Octets1(a: byte)
    ensures Octets([a]) == BitsOf(a, 8)
  {
    OctetsSnoc([], a);
    assert [] + [a] == [a];
  }

  lemma {:induction false} Octets2(a: byte, b: byte)
    ensures Octets([a, b]) == BitsOf(a as int * 256 + b, 16)
  {
    Octets1(a);
    OctetsSnoc([a], b);
    assert [a] + [b] == [a, b];
    Join8(a, b, 8);
  }

  lemma {:induction false} Octets3(a: byte, b: byte, c: byte)
    ensures Octets([a, b, c]) == BitsOf((a as int * 256 + b) * 256 + c, 24)
  {
    Octets2(a, b);
    OctetsSnoc([a, b], c);
    assert [a, b] + [c] == [a, b, c];
    Join8(a as int * 256 + b, c, 16);
  }

  function Fill(k: nat): (z: seq<bool>) ensures |z| == k { seq(k, _ => false) }

  /** The text's digits are the message's bits and then k zeros. */
  ghost predicate Spells(s: string, m: bytes, k: nat) { Text(s) && Digits(s) == Octets(m) + Fill(k) }

  /** The numbers behind the letters of a block of one, two and three bytes. */
  lemma {:induction false} BlockTop(m: bytes)
    requires m != []
    ensures |m| == 1 ==> Top(Block(m), 2) == m[0] as int * 16
    ensures |m| == 2 ==> Top(Block(m), 3) == (m[0] as int * 256 + m[1]) * 4
    ensures |m| >= 3 ==> Top(Block(m), 4) == (m[0] as int * 256 + m[1]) * 256 + m[2]
  {
  }

  lemma {:induction false} BlockBits(m: bytes)
    requires m != []
    ensures BitsOf(Top(Block(m), BlockChars(m)), 6 * BlockChars(m))
         == Octets(m[..Min(3, |m|)]) + Fill(6 * BlockChars(m) - 8 * Min(3, |m|))
  {
    BlockTop(m);
    if |m| == 1 {
      assert m[..1] == [m[0]];
      Octets1(m[0]);
      assert Pow2(4) == 16;
      Tail(m[0], 8, 4, 16);
    } else if |m| == 2 {
      assert m[..2] == [m[0], m[1]];
      Octets2(m[0], m[1]);
      assert Pow2(2) == 4;
      Tail(m[0] as int * 256 + m[1], 16, 2, 4);
    } else {
      assert m[..3] == [m[0], m[1], m[2]];
      Octets3(m[0], m[1], m[2]);
      assert Octets(m[..3]) + Fill(0) == Octets(m[..3]);
    }
  }

  /** A block's letters are the bits of its bytes, filled with zeros to a whole number of digits. */
  lemma {:induction false} GroupBits(m: bytes)
    requires m != []
    ensures Spells(Group(m), m[..Min(3, |m|)], 6 * BlockChars(m) - 8 * Min(3, |m|))
  {
    GroupDigits(m, BlockChars(m));
    assert Group(m)[..BlockChars(m)] == Group(m);
    BlockBits(m);
  }

  lemma {:induction false} Tail(n: nat, w: nat, k: nat, p: nat)
    requires p == Pow2(k)
    ensures BitsOf(n * p, w + k) == BitsOf(n, w) + Fill(k)
  {
    BitsJoin(n, 0, w, k);
    Zero(0, k);
  }

  lemma {:induction false} EncodeLength(m: bytes)
    ensures |Encode(m)| == (4 * |m| + 2) / 3
    decreases |m|
  {
    if |m| > 3 { EncodeLength(m[3..]); }
  }

  lemma {:induction false} EncodeStep(g: string, e: string, a: bytes, b: bytes, k: nat)
    requires Spells(g, a, 0) && Spells(e, b, k)
    ensures Spells(g + e, a + b, k)
  {
    OctetsAppend(a, b);
    DigitsAppend(g, e);
    assert Octets(a) + Fill(0) == Octets(a);
    Assoc(Octets(a), Octets(b), Fill(k));
  }

  lemma {:induction false} EncodeCases(m: bytes)
    requires m != []
    ensures |m| <= 3 ==> Encode(m) == Group(m) && m[..Min(3, |m|)] == m
    ensures |m| > 3 ==> Encode(m) == Group(m) + Encode(m[3..]) && m[..Min(3, |m|)] + m[3..] == m
  {
  }

  /** The text has ceil(4n/3) letters, and its bits are the message's with fewer than six zeros after them. */
  lemma {:induction false} EncodeBits(m: bytes)
    ensures |Encode(m)| == (4 * |m| + 2) / 3 && 0 <= 6 * |Encode(m)| - 8 * |m| < 6
    ensures Spells(Encode(m), m, 6 * |Encode(m)| - 8 * |m|)
    decreases |m|
  {
    EncodeLength(m);
    if m == [] {
      assert Fill(0) == [];
    } else if |m| <= 3 {
      GroupBits(m);
      EncodeCases(m);
    } else {
      var g, e, a, b := Group(m), Encode(m[3..]), m[..Min(3, |m|)], m[3..];
      EncodeBits(b);
      GroupBits(m);
      EncodeStep(g, e, a, b, 6 * |e| - 8 * |b|);
      assert Encode(m) == g + e && a + b == m by { EncodeCases(m); }
    }
  }

  // ---- decoding ----

  /** What decoding means: d is the whole bytes among the digits of s. */
  ghost predicate Decodes(s: string, d: bytes)
  {
    Text(s) && |d| == 6 * |s| / 8 && Octets(d) == Digits(s)[..8 * |d|]
  }

  lemma {:induction false} DecodesOne(s: string, d: bytes, e: bytes)
    requires Decodes(s, d) && Decodes(s, e)
    ensures d == e
  {
    OctetsInjective(d, e);
  }

  /** Decoding inverts encoding: the encoded text decodes to the message and to nothing else. */
  lemma {:induction false} RoundTrip(m: bytes, d: bytes)
    ensures Decodes(Encode(m), d) <==> d == m
  {
    EncodeBits(m);
    var e := Encode(m);
    assert Digits(e)[..8 * |m|] == Octets(m);
    assert Decodes(e, m);
    if Decodes(e, d) { DecodesOne(e, d, m); }
  }

  lemma {:induction false} DigitsInjective(a: string, b: string)
    requires Text(a) && Text(b) && Digits(a) == Digits(b)
    ensures a == b
    decreases |a|
  {
    assert |a| == |b|;
    if a != [] {
      var p, x := Unsnoc(a);
      var q, y := Unsnoc(b);
      TextSnoc(p, x);
      TextSnoc(q, y);
      SplitEqual(Digits(p), BitsOf(Value(x).value, 6), Digits(q), BitsOf(Value(y).value, 6));
      assert Pow2(6) == 64;
      BitsInjective(Value(x).value, Value(y).value, 6);
      DigitsInjective(p, q);
    }
  }

  lemma {:induction false} TextSnoc(p: string, x: char)
    requires Text(p + [x])
    ensures Text(p) && Value(x).Some? && Digits(p + [x]) == Digits(p) + BitsOf(Value(x).value, 6)
  {
    var s := p + [x];
    assert forall i :: 0 <= i < |p| ==> p[i] == s[i];
    assert s[|p|] == x && s[..|s| - 1] == p;
  }

  /** Re-encoding what a text decodes to gives the text back exactly when it is canonical: no lone last letter, and
      only zeros in the bits that were dropped. */
  lemma {:induction false} Canonical(s: string, d: bytes)
    requires Decodes(s, d)
    ensures Encode(d) == s <==> |s| % 4 != 1 && Digits(s)[8 * |d|..] == Fill(6 * |s| - 8 * |d|)
  {
    EncodeBits(d);
    var e := Encode(d);
    var k := 6 * |e| - 8 * |d|;
    assert Digits(e)[8 * |d|..] == Fill(k);
    SameLength(|s|, |d|, |e|);
    if |s| % 4 != 1 && Digits(s)[8 * |d|..] == Fill(k) {
      assert Digits(s) == Octets(d) + Fill(k);
      DigitsInjective(e, s);
    }
  }

  lemma {:induction false} SameLength(s: nat, d: nat, e: nat)
    requires d == 6 * s / 8 && e == (4 * d + 2) / 3
    ensures e == s <==> s % 4 != 1
  {
    var q, r := s / 4, s % 4;
    assert s == 4 * q + r && 6 * s == 8 * (3 * q) + 6 * r;
    assert d == 3 * q + 6 * r / 8;
    assert 4 * d + 2 == 3 * (4 * q) + 4 * (6 * r / 8) + 2;
    assert e == 4 * q + (4 * (6 * r / 8) + 2) / 3;
  }

  /** The bits the decoder still holds, of an accumulator that keeps only its low 32 bits. */
  function Held(acc: nat, bits: nat): nat
    requires bits in {0, 2, 4, 6}
  {
    if bits == 0 then 0 else if bits == 2 then acc % 4 else if bits == 4 then acc % 16 else acc % 64
  }

  function Shifted(acc: nat, bits: nat): nat
    requires bits in {0, 2, 4}
  {
    if bits == 0 then acc else if bits == 2 then acc / 4 else acc / 16
  }

  /** Only the low 26 bits of the accumulator survive the shift, and they include the held ones. */
  lemma {:induction false} LowBits(acc: nat, p: nat, m: nat) returns (l: nat)
    requires p * m == 0x400_0000 && p > 0
    ensures acc * 64 % WRAP32 == l * 64 && l % p == acc % p && l == acc % 0x400_0000
  {
    var h := acc / 0x400_0000;
    l := acc % 0x400_0000;
    assert acc * 64 == h * WRAP32 + l * 64;
    DivIs(acc * 64, WRAP32, h, l * 64);
    assert l == l / p * p + l % p;
    assert acc == (h * m + l / p) * p + l % p by { assert h * (p * m) == h * m * p; }
    DivIs(acc, p, h * m + l / p, l % p);
  }

  lemma {:induction false} Below(x: int, c: int, y: int)
    requires c > 0 && 0 <= y < c && 0 <= x * c + y < 256 * c
    ensures 0 <= x < 256
  {
    assert x >= 256 ==> (x - 256) * c >= 0;
    assert x <= -1 ==> (-x - 1) * c >= 0;
  }

  /** A digit after l, with the last k of the eight bits before it and its own end split off. */
  lemma {:induction false} ShiftLow(l: nat, p: nat, c: nat, v: nat)
    requires p > 0 && c > 0 && p * 64 == 256 * c && v < 64
    ensures l % p * 64 + v == (l * 64 + v) / c % 256 * c + (l * 64 + v) % c
  {
    var q, r, n := l / p, l % p, l * 64 + v;
    assert l == q * p + r;
    assert n == 256 * (q * c) + (r * 64 + v) by { assert q * p * 64 == q * (256 * c); }
    var x, y := (r * 64 + v) / c, (r * 64 + v) % c;
    assert x * c + y == r * 64 + v < p * 64;
    assert n == (256 * q + x) * c + y;
    DivIs(n, c, 256 * q + x, y);
    Below(x, c, y);
    DivIs(256 * q + x, 256, q, x);
  }

  /** One letter into the accumulator: the held bits and the digit's, whatever the 32-bit shift lost. */
  lemma {:induction false} Shift(acc: nat, bits: nat, v: nat, a: nat)
    requires bits in {0, 2, 4, 6} && v < 64 && a == acc * 64 % WRAP32 + v
    ensures bits == 0 ==> Held(a, 6) == v
    ensures bits > 0 ==> Held(acc, bits) * 64 + v == Shifted(a, bits - 2) % 256 * Power(bits - 2) + Held(a, bits - 2)
  {
    var l := LowBits(acc, 64, 0x10_0000);
    if bits == 0 {
      DivIs(a, 64, l, v);
    } else if bits == 2 {
      l := LowBits(acc, 4, 0x100_0000);
      ShiftLow(l, 4, 1, v);
    } else if bits == 4 {
      l := LowBits(acc, 16, 0x40_0000);
      ShiftLow(l, 16, 4, v);
    } else {
      ShiftLow(l, 64, 16, v);
    }
  }

  function Power(k: nat): (p: nat)
    requires k in {0, 2, 4}
    ensures p == Pow2(k)
  {
    assert Pow2(2) == 4 && Pow2(4) == 16;
    if k == 0 then 1 else if k == 2 then 4 else 16
  }

  /** The decoder's state after the letters s: the bytes out are written, the low bits of acc are not. */
  ghost predicate Read(s: string, out: bytes, acc: nat, bits: nat)
  {
    Text(s) && bits in {0, 2, 4, 6} && Digits(s) == Octets(out) + BitsOf(Held(acc, bits), bits)
  }

  /** One letter joins the held bits. */
  lemma {:induction false} ReadLetter(s: string, c: char, out: bytes, h: nat, bits: nat, v: nat)
    requires Text(s) && Value(c) == Some(v) && Digits(s) == Octets(out) + BitsOf(h, bits)
    ensures Text(s + [c]) && Digits(s + [c]) == Octets(out) + BitsOf(h * 64 + v, bits + 6)
  {
    DigitsSnoc(s, v);
    Join6(h, v, bits);
    Assoc(Octets(out), BitsOf(h, bits), BitsOf(v, 6));
  }

  /** A whole byte leaves them. */
  lemma {:induction false} ReadByte(d: seq<bool>, out: bytes, n: nat, w: nat, x: byte, h: nat, k: nat)
    requires d == Octets(out) + BitsOf(n, w) && h < Pow2(k) && n == x * Pow2(k) + h && w == 8 + k
    ensures d == Octets(out + [x]) + BitsOf(h, k)
  {
    BitsJoin(x, h, 8, k);
    OctetsSnoc(out, x);
    Assoc(Octets(out), BitsOf(x, 8), BitsOf(h, k));
  }

  lemma {:induction false} ReadFirst(s: string, c: char, out: bytes, acc: nat, v: nat, a: nat)
    requires Read(s, out, acc, 0) && Value(c) == Some(v) && a == acc * 64 % WRAP32 + v
    ensures Read(s + [c], out, a, 6)
  {
    ReadLetter(s, c, out, 0, 0, v);
    assert Held(a, 6) == v by { Shift(acc, 0, v, a); }
  }

  lemma {:induction false} ReadNext(s: string, c: char, out: bytes, acc: nat, k: nat, v: nat, a: nat)
    requires k in {0, 2, 4} && Read(s, out, acc, k + 2) && Value(c) == Some(v) && a == acc * 64 % WRAP32 + v
    ensures Read(s + [c], out + [Shifted(a, k) % 256], a, k)
  {
    HeldStep(acc, k, v, a);
    ReadBoth(s, c, out, Held(acc, k + 2), k, v, Shifted(a, k) % 256, Held(a, k));
  }

  lemma {:induction false} ReadBoth(s: string, c: char, out: bytes, h: nat, k: nat, v: nat, x: byte, h': nat)
    requires Text(s) && Value(c) == Some(v) && Digits(s) == Octets(out) + BitsOf(h, k + 2)
    requires h * 64 + v == x * Pow2(k) + h' && h' < Pow2(k)
    ensures Text(s + [c]) && Digits(s + [c]) == Octets(out + [x]) + BitsOf(h', k)
  {
    ReadLetter(s, c, out, h, k + 2, v);
    ReadByte(Digits(s + [c]), out, h * 64 + v, k + 8, x, h', k);
  }

  lemma {:induction false} HeldStep(acc: nat, k: nat, v: nat, a: nat)
    requires k in {0, 2, 4} && v < 64 && a == acc * 64 % WRAP32 + v
    ensures Held(acc, k + 2) * 64 + v == Shifted(a, k) % 256 * Pow2(k) + Held(a, k) && Held(a, k) < Pow2(k)
  {
    Shift(acc, k + 2, v, a);
    assert Power(k) == Pow2(k);
  }

  /** At the end the bytes written are the whole bytes of the text. */
  lemma {:induction false} ReadEnd(s: string, out: bytes, acc: nat, bits: nat)
    requires Read(s, out, acc, bits)
    ensures |out| == 6 * |s| / 8 && Decodes(s, out)
  {
    assert 6 * |s| == 8 * |out| + bits;
    assert Digits(s)[..8 * |out|] == Octets(out);
  }

  /** One turn of the decoding loop, for a letter of value v after the letters s. */
  method DecodeLetter(ghost s: string, ghost c: char, v: nat, out: array<byte>, o: nat, cap: nat, acc: nat, bits: nat)
    returns (ok: bool, end: nat, acc': nat, bits': nat)
    requires o <= cap <= out.Length && Value(c) == Some(v) && Read(s, out[..o], acc, bits)
    modifies out
    ensures o <= end <= cap && Kept(out[..], old(out[..]), if ok then end else cap)
    ensures ok ==> Read(s + [c], out[..end], acc', bits')
    ensures !ok ==> 6 * (|s| + 1) >= 8 * (cap + 1)
  {
    acc', bits', ok, end := acc * 64 % WRAP32 + v, bits + 6, true, o;
    if bits' >= 8 {
      bits' := bits' - 8;
      ReadNext(s, c, out[..o], acc, bits', v, acc');
      var x := Shifted(acc', bits') % 256;
      if o >= cap {
        ok := false;
        ReadEnd(s + [c], out[..o] + [x], acc', bits');
      } else {
        ghost var sofar := out[..o];
        out[o] := x;
        end := o + 1;
        assert out[..end] == sofar + [x];
      }
    } else {
      ReadFirst(s, c, out[..o], acc, v, acc');
    }
  }

  /** ntc_base64url_decode: refused exactly for a character outside the alphabet or too small a buffer. */
  method Decode(s: string, out: array<byte>, cap: nat) returns (r: int)
    requires cap <= out.Length
    modifies out
    ensures r == -1 <==> !Text(s) || 6 * |s| / 8 > cap
    ensures r != -1 ==> 0 <= r <= cap && Decodes(s, out[..r])
    ensures Kept(out[..], old(out[..]), if r == -1 then cap else r)
  {
    var o: nat, acc: nat, bits: nat, i, ok := 0, 0, 0, 0, true;
    while i < |s| && ok
      invariant 0 <= i <= |s| && o <= cap
      invariant if ok then Read(s[..i], out[..o], acc, bits) else !Text(s) || 6 * |s| >= 8 * (cap + 1)
      invariant Kept(out[..], old(out[..]), if ok then o else cap)
      decreases |s| - i, ok
    {
      var v := Value(s[i]);
      if v.None? {
        ok := false;
      } else {
        PrefixSnoc(s, i);
        ok, o, acc, bits := DecodeLetter(s[..i], s[i], v.value, out, o, cap, acc, bits);
        i := i + 1;
      }
    }
    if ok {
      assert s[..i] == s;
      ReadEnd(s, out[..o], acc, bits);
      r := o;
    } else {
      r := -1;
    }
  }

  /** Everything from `from` on is as it was. */
  ghost predicate Kept<T>(now: seq<T>, was: seq<T>, from: nat)
  {
    |now| == |was| && forall j :: from <= j < |now| ==> now[j] == was[j]
  }

  /** The inner loop of ntc_base64url_encode: the letters of one block, while there is room for them and the NUL. */
  method PutGroup(m: bytes, out: array<char>, o: nat, cap: nat) returns (ok: bool, end: nat)
    requires m != [] && o <= cap <= out.Length
    modifies out
    ensures ok <==> o + |Group(m)| < cap
    ensures ok ==> end == o + |Group(m)| && out[..end] == old(out[..o]) + Group(m)
    ensures out[cap..] == old(out[cap..])
  {
    var j := 0;
    end := o;
    while j < BlockChars(m)
      invariant 0 <= j <= BlockChars(m) && end == o + j && end <= cap
      invariant j > 0 ==> end < cap
      invariant out[..end] == old(out[..o]) + Group(m)[..j] && out[cap..] == old(out[cap..])
    {
      if end + 1 >= cap { return false, end; }
      out[end] := Letter(Digit(Block(m), j));
      end, j := end + 1, j + 1;
    }
    assert Group(m)[..j] == Group(m);
    ok := true;
  }

  /** ntc_base64url_encode: succeeds exactly when the text is shorter than cap, and then ends it with a NUL. */
  method EncodeInto(m: bytes, out: array<char>, cap: nat) returns (r: int)
    requires cap <= out.Length
    modifies out
    ensures r == -1 <==> |Encode(m)| >= cap
    ensures r != -1 ==> r == |Encode(m)| && out[..r] == Encode(m) && out[r] == 0 as char
    ensures out[cap..] == old(out[cap..])
  {
    var o: nat, i: nat := 0, 0;
    while i < |m|
      invariant 0 <= i && 0 <= o <= cap
      invariant o > 0 ==> o < cap
      invariant out[..o] + EncodeFrom(m, i) == Encode(m) && out[cap..] == old(out[cap..])
    {
      EncodeFromStep(m, i);
      ghost var head := out[..o];
      var ok, end := PutGroup(m[i..], out, o, cap);
      Assoc(head, Group(m[i..]), EncodeFrom(m, i + 3));
      if !ok { return -1; }
      o, i := end, i + 3;
    }
    assert out[..o] + [] == out[..o];
    if o >= cap { return -1; }
    out[o] := 0 as char;
    r := o;
  }

  function EncodeFrom(m: bytes, i: nat): string { if i < |m| then Encode(m[i..]) else [] }

  lemma {:induction false} EncodeFromStep(m: bytes, i: nat)
    requires i < |m|
    ensures EncodeFrom(m, i) == Group(m[i..]) + EncodeFrom(m, i + 3)
  {
    if i + 3 < |m| { assert m[i..][3..] == m[i + 3..]; }
  }
}
