/** Bytes, their bits and their exclusive or. */
module Bytes {

  type Byte = b: nat | b < 256

  function Pow2(k: nat): (p: nat)
    ensures p >= 1
  {
    if k == 0 then 1 else 2 * Pow2(k - 1)
  }

  lemma {:induction false} Pow2Sum(a: nat, b: nat)
    ensures Pow2(a + b) == Pow2(a) * Pow2(b)
  {
    if a > 0 {
      Pow2Sum(a - 1, b);
      Doubled(Pow2(a - 1), Pow2(b));
    }
  }

  lemma {:induction false} Doubled(x: nat, y: nat)
    ensures (2 * x) * y == 2 * (x * y)
  {
  }

  /** Bit `k` of a number, the least significant one first. */
  predicate Bit(n: nat, k: nat)
    decreases k
  {
    if k == 0 then n % 2 == 1 else Bit(n / 2, k - 1)
  }

  /** The bits of h * 2^s + l are those of l and, above them, those of h. */
  lemma {:induction false} BitsOfParts(h: nat, l: nat, s: nat, k: nat)
    requires l < Pow2(s)
    ensures Bit(h * Pow2(s) + l, k) <==> if k < s then Bit(l, k) else Bit(h, k - s)
    decreases s
  {
    if s == 0 {
      assert h * Pow2(0) + l == h;
    } else {
      var p := h * Pow2(s - 1);
      assert h * Pow2(s) == 2 * p by { Doubled(Pow2(s - 1), h); }
      assert (2 * p + l) / 2 == p + l / 2 && (2 * p + l) % 2 == l % 2;
      if k > 0 { BitsOfParts(h, l / 2, s - 1, k - 1); }
    }
  }

  /** Bitwise exclusive or of the lower `k` bits. */
  function XorBits(a: nat, b: nat, k: nat): (x: nat)
    ensures x < Pow2(k)
  {
    if k == 0 then 0 else (if a % 2 == b % 2 then 0 else 1) + 2 * XorBits(a / 2, b / 2, k - 1)
  }

  function Xor(a: Byte, b: Byte): Byte {
    assert Pow2(8) == 256;
    XorBits(a, b, 8)
  }

  lemma {:induction false} XorBitsAt(a: nat, b: nat, n: nat, k: nat)
    requires k < n
    ensures Bit(XorBits(a, b, n), k) <==> (Bit(a, k) <==> !Bit(b, k))
    decreases n
  {
    var x, y := XorBits(a, b, n), XorBits(a / 2, b / 2, n - 1);
    assert x / 2 == y && x % 2 == if a % 2 == b % 2 then 0 else 1;
    if k > 0 { XorBitsAt(a / 2, b / 2, n - 1, k - 1); }
  }

  /** A bit of the exclusive or is set exactly if it is set in one of the two and not in the other. */
  lemma {:induction false} XorAt(a: Byte, b: Byte, k: nat)
    requires k < 8
    ensures Bit(Xor(a, b), k) <==> (Bit(a, k) <==> !Bit(b, k))
  {
    XorBitsAt(a, b, 8, k);
  }

  lemma {:induction false} XorBitsLaws(a: nat, b: nat, k: nat)
    requires a < Pow2(k)
    ensures XorBits(a, 0, k) == a && XorBits(a, a, k) == 0 && XorBits(a, b, k) == XorBits(b, a, k)
  {
    if k > 0 { XorBitsLaws(a / 2, b / 2, k - 1); }
  }

  lemma {:induction false} XorLaws(a: Byte, b: Byte)
    ensures Xor(a, 0) == a && Xor(a, a) == 0 && Xor(a, b) == Xor(b, a)
  {
    assert Pow2(8) == 256;
    XorBitsLaws(a, b, 8);
  }

  lemma {:induction false} XorBitsTwice(a: nat, b: nat, k: nat)
    requires a < Pow2(k)
    ensures XorBits(XorBits(a, b, k), b, k) == a
  {
    if k > 0 {
      var x, y := XorBits(a, b, k), XorBits(a / 2, b / 2, k - 1);
      assert x / 2 == y && x % 2 == if a % 2 == b % 2 then 0 else 1;
      XorBitsTwice(a / 2, b / 2, k - 1);
    }
  }

  lemma {:induction false} XorTwice(a: Byte, b: Byte)
    ensures Xor(Xor(a, b), b) == a
  {
    assert Pow2(8) == 256;
    XorBitsTwice(a, b, 8);
  }
}
