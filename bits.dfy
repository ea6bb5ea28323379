/** JavaScript's bitwise operators on unsigned 32-bit values, as operations on natural
    numbers: `a ^ b` is `Xor(a, b)`, `a & (2^k - 1)` is `a % 2^k`, and `a >>> k` is
    `a / 2^k`. JavaScript computes `^` on signed 32-bit integers, but the bits are the same,
    and every value this model stores is read back through `>>>`, `&` or a `Uint32Array`,
    all of which take the unsigned view. */
module Bits {

  function Pow2(k: nat): (r: nat)
    ensures r >= 1
  {
    if k == 0 then 1 else 2 * Pow2(k - 1)
  }

  /** The two powers of two the CRC uses: a byte and a 32-bit word. */
  lemma Pow2Values()
    ensures Pow2(8) == 256 && Pow2(32) == 0x1_0000_0000
  {
    assert Pow2(4) == 16 by {
      assert Pow2(2) == 4;
    }
    assert Pow2(8) == 256 by {
      assert Pow2(6) == 64;
    }
    assert Pow2(16) == 0x1_0000 by {
      assert Pow2(10) == 1024;
      assert Pow2(12) == 4096;
      assert Pow2(14) == 0x4000;
    }
    assert Pow2(24) == 0x100_0000 by {
      assert Pow2(18) == 0x4_0000;
      assert Pow2(20) == 0x10_0000;
      assert Pow2(22) == 0x40_0000;
    }
    assert Pow2(32) == 0x1_0000_0000 by {
      assert Pow2(26) == 0x400_0000;
      assert Pow2(28) == 0x1000_0000;
      assert Pow2(30) == 0x4000_0000;
    }
  }

  /** Exclusive or, bit by bit from the least significant end. */
  function Xor(a: nat, b: nat): nat
    decreases a + b
  {
    if a == 0 && b == 0 then 0 else (if a % 2 == b % 2 then 0 else 1) + 2 * Xor(a / 2, b / 2)
  }

  /** The low bit of an exclusive or, and what is left above it. */
  lemma XorBits(a: nat, b: nat)
    ensures Xor(a, b) % 2 == if a % 2 == b % 2 then 0 else 1
    ensures Xor(a, b) / 2 == Xor(a / 2, b / 2)
  {
    if a != 0 || b != 0 {
      var v, h := if a % 2 == b % 2 then 0 else 1, Xor(a / 2, b / 2);
      assert Xor(a, b) == v + 2 * h;
      HalfSplit(v, h);
    }
  }

  lemma HalfSplit(v: nat, h: nat)
    requires v < 2
    ensures (v + 2 * h) % 2 == v && (v + 2 * h) / 2 == h
  {
  }

  /** Two numbers with the same low bit and the same higher bits are equal. */
  lemma SameBits(x: nat, y: nat)
    requires x % 2 == y % 2 && x / 2 == y / 2
    ensures x == y
  {
  }

  lemma {:induction false} XorZero(a: nat)
    ensures Xor(a, 0) == a && Xor(0, a) == a
    decreases a
  {
    if a != 0 {
      XorBits(a, 0);
      XorBits(0, a);
      XorZero(a / 2);
      SameBits(Xor(a, 0), a);
      SameBits(Xor(0, a), a);
    }
  }

  lemma {:induction false} XorSelf(a: nat)
    ensures Xor(a, a) == 0
    decreases a
  {
    if a != 0 {
      XorBits(a, a);
      XorSelf(a / 2);
      SameBits(Xor(a, a), 0);
    }
  }

  lemma {:induction false} XorComm(a: nat, b: nat)
    ensures Xor(a, b) == Xor(b, a)
    decreases a + b
  {
    if a != 0 || b != 0 {
      XorBits(a, b);
      XorBits(b, a);
      XorComm(a / 2, b / 2);
      SameBits(Xor(a, b), Xor(b, a));
    }
  }

  lemma {:induction false} XorAssoc(a: nat, b: nat, c: nat)
    ensures Xor(Xor(a, b), c) == Xor(a, Xor(b, c))
    decreases a + b + c
  {
    if a != 0 || b != 0 || c != 0 {
      var x, y := Xor(a, b), Xor(b, c);
      var l, r := Xor(x, c), Xor(a, y);
      XorBits(a, b);
      XorBits(b, c);
      XorBits(x, c);
      XorBits(a, y);
      assert l % 2 == r % 2;
      XorAssoc(a / 2, b / 2, c / 2);
      assert x / 2 == Xor(a / 2, b / 2);
      assert y / 2 == Xor(b / 2, c / 2);
      assert l / 2 == Xor(x / 2, c / 2);
      assert r / 2 == Xor(a / 2, y / 2);
      assert l / 2 == r / 2;
      SameBits(l, r);
    }
  }

  /** Exclusive or of two k-bit values is a k-bit value. */
  lemma {:induction false} XorBound(a: nat, b: nat, k: nat)
    requires a < Pow2(k) && b < Pow2(k)
    ensures Xor(a, b) < Pow2(k)
    decreases k
  {
    if k == 0 {
      assert a == 0 && b == 0;
    } else {
      XorBits(a, b);
      XorBound(a / 2, b / 2, k - 1);
    }
  }

  /** Xor-ing in an even number keeps the low bit. */
  lemma XorEven(a: nat, m: nat)
    ensures Xor(a, 2 * m) % 2 == a % 2 && Xor(a, 2 * m) / 2 == Xor(a / 2, m)
  {
    var e := 2 * m;
    HalfSplit(0, m);
    assert e % 2 == 0 && e / 2 == m;
    XorBits(a, e);
  }

  /** Exclusive or of values with no bits in common is their sum. */
  lemma {:induction false} XorDisjoint(low: nat, high: nat, k: nat)
    requires low < Pow2(k)
    ensures Xor(low, high * Pow2(k)) == low + high * Pow2(k)
    decreases k
  {
    if k == 0 {
      XorZero(high);
      assert low == 0;
    } else {
      var p := Pow2(k - 1);
      var m := high * p;
      var h := high * Pow2(k);
      assert h == 2 * m;
      XorEven(low, m);
      XorDisjoint(low / 2, high, k - 1);
      var x := Xor(low, h);
      assert x % 2 == low % 2 && x / 2 == low / 2 + m;
      HalfSplit(low % 2, low / 2 + m);
      assert low + h == low % 2 + 2 * (low / 2 + m);
      SameBits(x, low + h);
    }
  }

  /** The quotient is determined by any decomposition with a remainder in range. */
  lemma DivUnique(a: nat, d: nat, q: nat, r: nat)
    requires d > 0 && a == q * d + r && r < d
    ensures a / d == q && a % d == r
  {
    var q', r' := a / d, a % d;
    assert a == q' * d + r';
    if q' > q {
      assert q' * d == q * d + (q' - q) * d;
      MulAtLeast(q' - q, d);
    } else if q' < q {
      assert q * d == q' * d + (q - q') * d;
      MulAtLeast(q - q', d);
    }
  }

  lemma {:induction false} MulAtLeast(x: nat, y: nat)
    requires x >= 1
    ensures x * y >= y
    decreases x
  {
    if x > 1 {
      MulAtLeast(x - 1, y);
      assert x * y == (x - 1) * y + y;
    }
  }
}
