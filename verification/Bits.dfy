/** Exclusive or on bytes, bit by bit, what XOR-ing twice with one key gives, and division with remainder. */
module Bits {
  import opened Bytes

  function Pow2(n: nat): (r: nat)
    ensures r > 0
  {
    if n == 0 then 1 else 2 * Pow2(n - 1)
  }

  function XorBits(a: nat, b: nat, n: nat): (r: nat)
    ensures r < Pow2(n)
    decreases n
  {
    if n == 0 then 0 else (a + b) % 2 + 2 * XorBits(a / 2, b / 2, n - 1)
  }

  lemma {:induction false} XorStep(a: nat, b: nat, r: nat)
    ensures ((a + b) % 2 + 2 * r) / 2 == r
    ensures ((a + b) % 2 + 2 * r + b) % 2 == a % 2
  {
    var i, j := a / 2, b / 2;
    assert a == 2 * i + a % 2 && b == 2 * j + b % 2;
    if a % 2 == b % 2 {
      assert a + b == 2 * (i + j + a % 2);
      assert (a + b) % 2 == 0;
    } else {
      assert a + b == 2 * (i + j) + 1;
      assert (a + b) % 2 == 1;
    }
  }

  lemma {:induction false} XorBitsTwice(a: nat, b: nat, n: nat)
    requires a < Pow2(n)
    ensures XorBits(XorBits(a, b, n), b, n) == a
    decreases n
  {
    if n > 0 {
      var r := XorBits(a / 2, b / 2, n - 1);
      XorStep(a, b, r);
      XorBitsTwice(a / 2, b / 2, n - 1);
    }
  }

  lemma {:induction false} Pow2Of8()
    ensures Pow2(8) == 256
  {
    assert Pow2(8) == 16 * Pow2(4) by { assert Pow2(6) == 4 * Pow2(4); }
    assert Pow2(4) == 16;
  }

  function Xor(a: byte, b: byte): byte
  {
    Pow2Of8();
    XorBits(a, b, 8)
  }

  lemma {:induction false} XorTwice(a: byte, b: byte)
    ensures Xor(Xor(a, b), b) == a
  {
    Pow2Of8();
    XorBitsTwice(a, b, 8);
  }

  /** Data under a repeating four-byte key. */
  function XorKey(data: bytes, key: bytes): (r: bytes)
    requires |key| == 4
    ensures |r| == |data| && forall i :: 0 <= i < |data| ==> r[i] == Xor(data[i], key[i % 4])
  {
    seq(|data|, i requires 0 <= i < |data| => Xor(data[i], key[i % 4]))
  }

  lemma {:induction false} XorKeyTwice(data: bytes, key: bytes)
    requires |key| == 4
    ensures XorKey(XorKey(data, key), key) == data
  {
    forall i | 0 <= i < |data| ensures XorKey(XorKey(data, key), key)[i] == data[i] {
      XorTwice(data[i], key[i % 4]);
    }
  }

  // ---- division ----

  lemma {:induction false} Cancel(k: int, d: int, e: int)
    requires k * d == e && -d < e < d
    ensures k == 0
  {
    assert k >= 1 ==> (k - 1) * d >= 0;
    assert k <= -1 ==> (-k - 1) * d >= 0;
  }

  /** Quotient and remainder are the only ones. */
  lemma {:induction false} DivIs(n: int, d: int, q: int, r: int)
    requires n == q * d + r && 0 <= r < d
    ensures n / d == q && n % d == r
  {
    var k := q - n / d;
    assert n == n / d * d + n % d;
    assert k * d == q * d - n / d * d;
    Cancel(k, d, n % d - r);
  }
}
