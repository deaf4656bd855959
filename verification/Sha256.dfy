/** Incremental SHA-256 and HMAC against their one-shot definitions (sections 5.1.1 and 6.2 of FIPS 180-4, section 2 of
    RFC 2104), for any block function: the compression of one 64-byte block is a parameter. */
module Sha256 {
  import opened Bytes
  import opened Bits
  import opened Wire

  const BLOCK := 64
  const WRAP64 := 0x1_0000_0000_0000_0000

  type Words = s: seq<nat> | |s| == 8 witness [0, 0, 0, 0, 0, 0, 0, 0]
  type Compress = (Words, bytes) -> Words

  const IV: Words := [0x6a09e667, 0xbb67ae85, 0x3c6ef372, 0xa54ff53a, 0x510e527f, 0x9b05688c, 0x1f83d9ab, 0x5be0cd19]

  /** The first 32 bits of the fractional part of the square root of p, whose integer part is k. */
  ghost predicate RootBits(h: nat, p: nat, k: nat)
  {
    var r := k * 0x1_0000_0000 + h;
    h < 0x1_0000_0000 && k * k <= p < (k + 1) * (k + 1) && r * r <= p * WRAP64 < (r + 1) * (r + 1)
  }

  /** The initial hash value of section 5.3.3 of FIPS 180-4: the square roots of the first eight primes. */
  lemma {:induction false} InitialWords()
    ensures RootBits(IV[0], 2, 1) && RootBits(IV[1], 3, 1) && RootBits(IV[2], 5, 2) && RootBits(IV[3], 7, 2)
    ensures RootBits(IV[4], 11, 3) && RootBits(IV[5], 13, 3) && RootBits(IV[6], 17, 4) && RootBits(IV[7], 19, 4)
  {
  }

  // ---- the definition ----

  /** The block function folded over the whole blocks of m. */
  function Blocks(f: Compress, h: Words, m: bytes): Words
    decreases |m|
  {
    if |m| < BLOCK then h else Blocks(f, f(h, m[..BLOCK]), m[BLOCK..])
  }

  function Zeros(n: nat): (z: bytes) ensures |z| == n { seq(n, _ => 0) }

  /** How many zero bytes bring a message of len bytes and the 0x80 byte to 56 modulo 64. */
  function PadZeros(len: nat): nat { (119 - len % 64) % 64 }

  function Padded(m: bytes): bytes { m + [0x80] + Zeros(PadZeros(|m|)) + U64(8 * |m| % WRAP64) }

  function Digest(h: Words): (d: bytes)
    ensures |d| == 32
  {
    U32(h[0]) + U32(h[1]) + U32(h[2]) + U32(h[3]) + U32(h[4]) + U32(h[5]) + U32(h[6]) + U32(h[7])
  }

  function Sha(f: Compress, m: bytes): (d: bytes) ensures |d| == 32 { Digest(Blocks(f, IV, Padded(m))) }

  function BlockKey(f: Compress, key: bytes): (k: bytes)
    ensures |k| == BLOCK
  {
    var k := if |key| > BLOCK then Sha(f, key) else key;
    k + Zeros(BLOCK - |k|)
  }

  function XorAll(k: bytes, b: byte): (r: bytes)
    ensures |r| == |k|
  {
    seq(|k|, i requires 0 <= i < |k| => Xor(k[i], b))
  }

  function Hmac(f: Compress, key: bytes, msg: bytes): bytes
  {
    var k := BlockKey(f, key);
    Sha(f, XorAll(k, 0x5c) + Sha(f, XorAll(k, 0x36) + msg))
  }

  lemma {:induction false} BlocksAppend(f: Compress, h: Words, m: bytes, b: bytes)
    requires |m| % BLOCK == 0 && |b| == BLOCK
    ensures Blocks(f, h, m + b) == f(Blocks(f, h, m), b)
    decreases |m|
  {
    if m == [] {
      assert m + b == b && b[..BLOCK] == b && |b[BLOCK..]| == 0;
    } else {
      assert (m + b)[..BLOCK] == m[..BLOCK] && (m + b)[BLOCK..] == m[BLOCK..] + b;
      BlocksAppend(f, f(h, m[..BLOCK]), m[BLOCK..], b);
    }
  }

  /** The padding is that of the standard: the fewest zero bytes that leave room for the length in the last block. */
  lemma {:induction false} PadLeast(len: nat, k: nat)
    ensures (len + 1 + PadZeros(len)) % 64 == 56
    ensures (len + 1 + k) % 64 == 56 ==> PadZeros(len) <= k
  {
    var r := len % 64;
    assert len == len / 64 * 64 + r;
    assert (len + 1 + PadZeros(len)) % 64 == (r + 1 + PadZeros(len)) % 64;
    assert (len + 1 + k) % 64 == (r + 1 + k) % 64;
  }

  /** The padded message is a whole number of blocks. */
  /** The padded message: the message, one byte 0x80, zeros, and the length in bits, big-endian, at the end of a
      block. */
  lemma {:induction false} PaddedIs(m: bytes)
    ensures var p := Padded(m);
      && |p| % 64 == 0 && |m| + 9 <= |p| < |m| + 9 + 64 && p[..|m|] == m && p[|m|] == 0x80
      && (forall i :: |m| < i < |p| - 8 ==> p[i] == 0) && BigEndian(p[|p| - 8..]) == 8 * |m| % WRAP64
  {
    var z := Zeros(PadZeros(|m|));
    PadLeast(|m|, 0);
    PaddedLayout(m, z, U64(8 * |m| % WRAP64), Padded(m));
    BigEndian64(8 * |m| % WRAP64);
    PaddedLength(|m|, |z|);
  }

  lemma {:induction false} PaddedLayout(m: bytes, z: bytes, u: bytes, p: bytes)
    requires p == m + [0x80] + z + u && |u| == 8 && forall i :: 0 <= i < |z| ==> z[i] == 0
    ensures |p| == |m| + 9 + |z| && p[..|m|] == m && p[|m|] == 0x80 && p[|p| - 8..] == u
    ensures forall i :: |m| < i < |p| - 8 ==> p[i] == 0
  {
  }

  lemma {:induction false} PaddedLength(len: nat, zeros: nat)
    requires zeros < 64 && (len + 1 + zeros) % 64 == 56
    ensures (len + 9 + zeros) % 64 == 0
  {
  }

  /** The digest spells the words, each big-endian. */
  lemma {:induction false} DigestIs(h: Words, i: nat)
    requires i < 8 && h[i] < 0x1_0000_0000
    ensures BigEndian(Digest(h)[4 * i..4 * i + 4]) == h[i]
  {
    BigEndian32(h[i]);
    assert Digest(h)[4 * i..4 * i + 4] == U32(h[i]);
  }

  /** A key of at most a block is used as it is, a longer one is hashed; zeros make up a block. */
  ghost predicate KeyBlock(f: Compress, key: bytes, k: bytes)
  {
    && |k| == 64
    && if |key| <= 64 then k[..|key|] == key && (forall i :: |key| <= i < 64 ==> k[i] == 0)
       else k[..32] == Sha(f, key) && (forall i :: 32 <= i < 64 ==> k[i] == 0)
  }

  /** Section 2 of RFC 2104: H(K xor opad, H(K xor ipad, text)). */
  lemma {:induction false} HmacIs(f: Compress, key: bytes, msg: bytes, k: bytes, inner: bytes, outer: bytes)
    requires KeyBlock(f, key, k) && |inner| == |outer| == 64
    requires forall i :: 0 <= i < 64 ==> inner[i] == Xor(k[i], 0x36) && outer[i] == Xor(k[i], 0x5c)
    ensures Hmac(f, key, msg) == Sha(f, outer + Sha(f, inner + msg))
  {
    assert k == BlockKey(f, key);
    assert inner == XorAll(k, 0x36) && outer == XorAll(k, 0x5c);
  }

  lemma {:induction false} PaddedWhole(m: bytes)
    ensures |Padded(m)| % BLOCK == 0 && |Padded(m)| == |m| + 1 + PadZeros(|m|) + 8
  {
    PadWhole(|m|);
    assert |Padded(m)| == |m| + 1 + PadZeros(|m|) + 8;
  }

  // ---- the code ----

  class Ctx {
    const f: Compress
    var h: Words
    var total: nat          // bytes so far, modulo 2^64
    const buf: array<byte>
    var n: nat
    ghost var m: bytes      // the message so far
    ghost var done: bytes   // the whole blocks of it

    /** The buffer and the chaining value stand for the message so far. */
    ghost predicate Holds()
      reads this, buf
    {
      && buf.Length == BLOCK && n < BLOCK
      && m == done + buf[..n] && |done| % BLOCK == 0 && h == Blocks(f, IV, done)
    }

    ghost predicate Valid()
      reads this, buf
    {
      Holds() && total == |m| % WRAP64
    }

    constructor (f: Compress)
      ensures Valid() && m == [] && this.f == f && fresh(buf)
    {
      this.f := f;
      h, total, n, m, done := IV, 0, 0, [], [];
      buf := new byte[BLOCK](_ => 0);
    }

    /** The copy of one turn of sha_update. */
    method Fill(p: bytes)
      requires buf.Length == BLOCK && |p| <= BLOCK - n
      modifies `n, buf
      ensures n == old(n) + |p| && buf[..n] == old(buf[..n]) + p
    {
      forall i | 0 <= i < |p| { buf[n + i] := p[i]; }
      n := n + |p|;
    }

    /** One turn of sha_update: fill the buffer, compress when it is full. */
    method Absorb(p: bytes)
      requires Holds() && |p| <= BLOCK - n
      modifies `h, `n, `m, `done, buf
      ensures Holds() && m == old(m) + p
    {
      Assoc(done, buf[..n], p);
      Fill(p);
      m := m + p;
      if n == BLOCK { Turn(); }
    }

    method Turn()
      requires buf.Length == BLOCK == n && m == done + buf[..n] && |done| % BLOCK == 0 && h == Blocks(f, IV, done)
      modifies `h, `n, `done
      ensures Holds()
    {
      assert buf[..n] == buf[..];
      BlocksAppend(f, IV, done, buf[..]);
      h, done, n := f(h, buf[..]), done + buf[..], 0;
      assert done + buf[..0] == done;
    }

    method Update(p: bytes)
      requires Valid()
      modifies `h, `n, `m, `done, `total, buf
      ensures Valid() && m == old(m) + p
    {
      SumWrap(|m|, total, |p|);
      total := (total + |p|) % WRAP64;
      var i := 0;
      while i < |p|
        invariant 0 <= i <= |p| && Holds() && m == old(m) + p[..i]
        invariant total == (|old(m)| + |p|) % WRAP64
      {
        var take := Min(BLOCK - n, |p| - i);
        Absorb(p[i..i + take]);
        assert p[..i + take] == p[..i] + p[i..i + take];
        Assoc(old(m), p[..i], p[i..i + take]);
        i := i + take;
      }
      assert p[..i] == p;
    }

    /** Zero bytes one at a time until the buffer holds 56. */
    method Pad(ghost m0: bytes)
      requires Valid() && m == m0 + [0x80]
      modifies `h, `n, `m, `done, `total, buf
      ensures Valid() && m == m0 + [0x80] + Zeros(PadZeros(|m0|))
    {
      ghost var j := 0;
      assert m == m0 + [0x80] + Zeros(0);
      while n != 56
        invariant Valid() && j <= PadZeros(|m0|) && m == m0 + [0x80] + Zeros(j)
        decreases PadZeros(|m0|) - j
      {
        PadCount(|m0|, |done|, n, j);
        Update([0]);
        assert Zeros(j + 1) == Zeros(j) + [0];
        Assoc(m0 + [0x80], Zeros(j), [0]);
        j := j + 1;
      }
      PadCount(|m0|, |done|, n, j);
    }

    /** sha_final: pad, append the bit length, emit the digest. */
    method Final() returns (out: bytes)
      requires Valid()
      modifies `h, `n, `m, `done, `total, buf
      ensures out == Sha(f, old(m))
    {
      ghost var m0 := m;
      BitCount(|m0|, total);
      var bits := total * 8 % WRAP64;
      Update([0x80]);
      Pad(m0);
      Update(U64(bits));
      assert m == Padded(m0);
      PaddedWhole(m0);
      Remainder(|m|, |done|, n);
      assert done == m;
      out := Digest(h);
    }
  }

  lemma {:induction false} SumWrap(len: nat, total: nat, k: nat)
    requires total == len % WRAP64
    ensures (total + k) % WRAP64 == (len + k) % WRAP64
  {
    assert len + k == (len / WRAP64) * WRAP64 + (total + k);
  }

  lemma {:induction false} PadWhole(len: nat)
    ensures (len + 1 + PadZeros(len) + 8) % 64 == 0
  {
    var r := len % 64;
    assert len == len / 64 * 64 + r;
    assert (r + 1 + PadZeros(len) + 8) % 64 == 0;
  }

  lemma {:induction false} Remainder(len: nat, done: nat, n: nat)
    requires len == done + n && done % 64 == 0 && n < 64
    ensures len % 64 == n
  {
  }

  lemma {:induction false} PadCount(len: nat, done: nat, n: nat, j: nat)
    requires j <= PadZeros(len) && len + 1 + j == done + n && done % 64 == 0 && n < 64
    ensures n == 56 <==> j == PadZeros(len)
  {
    Remainder(len + 1 + j, done, n);
    var r := len % 64;
    assert (len + 1 + j) % 64 == (r + 1 + j) % 64;
  }

  lemma {:induction false} BitCount(len: nat, total: nat)
    requires total == len % WRAP64
    ensures total * 8 % WRAP64 == 8 * len % WRAP64
  {
    assert len == len / WRAP64 * WRAP64 + total;
    assert 8 * len == 8 * total + (8 * (len / WRAP64)) * WRAP64;
  }

  /** However a message is cut into sha_update calls, the digest is that of the whole message. */
  method HashPieces(f: Compress, pieces: seq<bytes>) returns (out: bytes)
    ensures out == Sha(f, Concat(pieces))
  {
    var c := new Ctx(f);
    var i := 0;
    while i < |pieces|
      invariant 0 <= i <= |pieces| && c.Valid() && c.m == Concat(pieces[..i]) && c.f == f && fresh(c) && fresh(c.buf)
    {
      c.Update(pieces[i]);
      ConcatSnoc(pieces[..i], pieces[i]);
      assert pieces[..i + 1] == pieces[..i] + [pieces[i]];
      i := i + 1;
    }
    assert pieces[..i] == pieces;
    out := c.Final();
  }

  /** ntc_sha256. */
  method Sha256(f: Compress, data: bytes) returns (out: bytes)
    ensures out == Sha(f, data)
  {
    var c := new Ctx(f);
    c.Update(data);
    assert [] + data == data;
    out := c.Final();
  }

  /** ntc_hmac_sha256, for every key length. */
  method HmacSha256(f: Compress, key: bytes, msg: bytes) returns (out: bytes)
    ensures out == Hmac(f, key, msg)
  {
    var k := key;
    if |key| > BLOCK { k := Sha256(f, key); }
    k := k + Zeros(BLOCK - |k|);
    var ipad, opad := XorAll(k, 0x36), XorAll(k, 0x5c);
    var inner := HashPieces(f, [ipad, msg]);
    out := HashPieces(f, [opad, inner]);
    TwoPieces(ipad, msg);
    TwoPieces(opad, inner);
  }

  lemma {:induction false} TwoPieces(a: bytes, b: bytes)
    ensures Concat([a, b]) == a + b
  {
    assert [a, b][1..] == [b];
    assert Concat([b]) == b + Concat<byte>([]);
  }
}
