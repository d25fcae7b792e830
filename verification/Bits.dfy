/** Bit arithmetic on machine words, which are naturals below a power of two: shifts, bitwise or, single bits.
    `1 << n` is Pow2(n); a shift that drops high bits is Shl64 or Shl32. */
module Bits {

  const TWO_31: int := 0x8000_0000
  const TWO_32: int := 0x1_0000_0000
  const TWO_63: int := 0x8000_0000_0000_0000
  const TWO_64: int := 0x1_0000_0000_0000_0000

  /** x shifted left by n places, without a word size. */
  function Shl(x: nat, n: nat): nat
  {
    if n == 0 then x else 2 * Shl(x, n - 1)
  }

  function Pow2(n: nat): nat { Shl(1, n) }

  /** Bitwise or on naturals. */
  function Or(a: nat, b: nat): nat
    decreases a + b
  {
    if a == 0 then b
    else if b == 0 then a
    else (if a % 2 == 1 || b % 2 == 1 then 1 else 0) + 2 * Or(a / 2, b / 2)
  }

  /** `(uint64_t)x << n` and `(uint32_t)x << n`. */
  function Shl64(x: nat, n: nat): nat { Shl(x, n) % TWO_64 }
  function Shl32(x: nat, n: nat): nat { Shl(x, n) % TWO_32 }

  predicate TestBit(w: nat, k: nat)
  {
    if k == 0 then w % 2 == 1 else TestBit(w / 2, k - 1)
  }

  lemma {:induction false} OrBits(a: nat, b: nat, k: nat)
    ensures TestBit(Or(a, b), k) == (TestBit(a, k) || TestBit(b, k))
    decreases a + b
  {
    if a == 0 || b == 0 {
      ZeroBits(k);
    } else if k > 0 {
      OrBits(a / 2, b / 2, k - 1);
    }
  }

  lemma {:induction false} ZeroBits(k: nat)
    ensures !TestBit(0, k)
  {
    if k > 0 { ZeroBits(k - 1); }
  }

  lemma {:induction false} Pow2Bits(n: nat, k: nat)
    ensures TestBit(Pow2(n), k) == (k == n)
  {
    if n == 0 {
      if k > 0 { ZeroBits(k - 1); }
    } else if k > 0 {
      Pow2Bits(n - 1, k - 1);
    }
  }

  lemma {:induction false} Pow2Positive(n: nat)
    ensures Pow2(n) >= 1
  {
    if n > 0 { Pow2Positive(n - 1); }
  }

  // ---------------------------------------------------------------- shifts and Or as arithmetic

  lemma {:induction false} ShlAdd(x: nat, y: nat, n: nat)
    ensures Shl(x + y, n) == Shl(x, n) + Shl(y, n)
  {
    if n > 0 { ShlAdd(x, y, n - 1); }
  }

  lemma {:induction false} ShlMono(x: nat, y: nat, n: nat)
    requires x <= y
    ensures Shl(x, n) <= Shl(y, n)
  {
    if n > 0 { ShlMono(x, y, n - 1); }
  }

  lemma {:induction false} ShlStrict(x: nat, y: nat, n: nat)
    requires x < y
    ensures Shl(x, n) < Shl(y, n)
  {
    if n > 0 { ShlStrict(x, y, n - 1); }
  }

  lemma {:induction false} ShlShl(x: nat, m: nat, n: nat)
    ensures Shl(x, m + n) == Shl(Shl(x, m), n)
  {
    if n > 0 { ShlShl(x, m, n - 1); }
  }

  lemma Shl7(x: nat, n: nat)
    ensures Shl(x, n + 7) == Shl(128 * x, n)
  {
    ShlShl(x, 7, n);
    assert Shl(x, 1) == 2 * x && Shl(x, 2) == 4 * x && Shl(x, 3) == 8 * x;
    assert Shl(x, 5) == 32 * x by { assert Shl(x, 4) == 16 * x; }
  }

  lemma Shl8(x: nat, n: nat)
    ensures Shl(x, n + 8) == Shl(256 * x, n)
  {
    Shl7(x, n + 1);
    ShlShl(128 * x, 1, n);
    assert Shl(128 * x, 1) == 256 * x;
  }

  lemma Pow2Mono(m: nat, n: nat)
    requires m <= n
    ensures Pow2(m) <= Pow2(n)
  {
    if m < n { Pow2Mono(m, n - 1); }
  }

  lemma Pow2Values()
    ensures Pow2(0) == 1 && Pow2(7) == 128 && Pow2(8) == 256 && Pow2(14) == 0x4000
    ensures Pow2(21) == 0x20_0000 && Pow2(28) == 0x1000_0000 && Pow2(32) == TWO_32 && Pow2(64) == TWO_64
  {
    Shl7(1, 0);
    Shl8(1, 0);
    ShlShl(1, 7, 7); Shl7(128, 0);
    ShlShl(1, 14, 7); Shl7(0x4000, 0);
    ShlShl(1, 21, 7); Shl7(0x20_0000, 0);
    ShlShl(1, 8, 8); Shl8(256, 0);
    ShlShl(1, 16, 8); Shl8(0x1_0000, 0);
    ShlShl(1, 24, 8); Shl8(0x100_0000, 0);
    ShlShl(1, 32, 8); Shl8(0x1_0000_0000, 0);
    ShlShl(1, 40, 8); Shl8(0x100_0000_0000, 0);
    ShlShl(1, 48, 8); Shl8(0x1_0000_0000_0000, 0);
    ShlShl(1, 56, 8); Shl8(0x100_0000_0000_0000, 0);
  }

  /** Or-ing in bits above every bit already present is addition. */
  lemma {:induction false} OrDisjoint(a: nat, c: nat, n: nat)
    requires a < Pow2(n)
    ensures Or(a, Shl(c, n)) == a + Shl(c, n)
    decreases n
  {
    if n > 0 { OrDisjoint(a / 2, c, n - 1); }
  }

  lemma {:induction false} OrBound(a: nat, b: nat, n: nat)
    requires a < Pow2(n) && b < Pow2(n)
    ensures Or(a, b) < Pow2(n)
    decreases n
  {
    if n > 0 { OrBound(a / 2, b / 2, n - 1); }
  }

  // ---------------------------------------------------------------- single bits of shifted words

  lemma {:induction false} ShlBit(x: nat, n: nat, i: nat)
    ensures TestBit(Shl(x, n), i) <==> i >= n && TestBit(x, i - n)
  {
    if n > 0 && i > 0 { ShlBit(x, n - 1, i - 1); }
  }

  /** Bits below n do not see what is added above. */
  lemma {:induction false} LowBit(a: nat, q: nat, n: nat, i: nat)
    requires i < n
    ensures TestBit(a + Shl(q, n), i) == TestBit(a, i)
  {
    if i > 0 {
      assert (a + Shl(q, n)) / 2 == a / 2 + Shl(q, n - 1);
      LowBit(a / 2, q, n - 1, i - 1);
    }
  }

  lemma ShlBy64(x: nat)
    ensures Shl(x, 64) == TWO_64 * x
  {
    Shl8(x, 56);
    Shl8(256 * x, 48);
    Shl8(0x1_0000 * x, 40);
    Shl8(0x100_0000 * x, 32);
    Shl8(0x1_0000_0000 * x, 24);
    Shl8(0x100_0000_0000 * x, 16);
    Shl8(0x1_0000_0000_0000 * x, 8);
    Shl8(0x100_0000_0000_0000 * x, 0);
  }

  /** The bits of a 64-bit word shifted left. */
  lemma Shl64Bit(x: nat, n: nat, i: nat)
    requires i < 64
    ensures TestBit(Shl64(x, n), i) <==> i >= n && TestBit(x, i - n)
  {
    hide Shl, TestBit;
    var y := Shl(x, n);
    ShlBy64(y / TWO_64);
    assert y == y % TWO_64 + Shl(y / TWO_64, 64);
    LowBit(y % TWO_64, y / TWO_64, 64, i);
    ShlBit(x, n, i);
  }

  // ---------------------------------------------------------------- masks

  lemma {:induction false} OnesBits(n: nat, k: nat)
    requires k < n
    ensures Pow2(n) >= 1 && TestBit(Pow2(n) - 1, k)
  {
    Pow2Positive(n - 1);
    assert (Pow2(n) - 1) / 2 == Pow2(n - 1) - 1;
    if k > 0 { OnesBits(n - 1, k - 1); }
  }

  /** No bit at or above n is set. */
  ghost predicate Below(w: nat, n: nat) { forall k: nat :: k >= n ==> !TestBit(w, k) }

  /** All of the low n bits are set. */
  ghost predicate Full(w: nat, n: nat) { forall k: nat :: k < n ==> TestBit(w, k) }

  lemma {:induction false} AllOnes(w: nat, n: nat)
    requires Below(w, n) && Full(w, n)
    ensures w == Pow2(n) - 1
  {
    if n == 0 {
      NoBits(w);
    } else {
      forall k: nat | k >= n - 1 ensures !TestBit(w / 2, k) { assert !TestBit(w, k + 1); }
      forall k: nat | k < n - 1 ensures TestBit(w / 2, k) { assert TestBit(w, k + 1); }
      AllOnes(w / 2, n - 1);
      assert TestBit(w, 0);
    }
  }

  /** Comparing a word with a mask of ones tests all of its low bits. */
  lemma MaskBits(w: nat, n: nat)
    requires Below(w, n)
    ensures w == Pow2(n) - 1 <==> Full(w, n)
  {
    if Full(w, n) {
      AllOnes(w, n);
    }
    if w == Pow2(n) - 1 {
      forall k: nat | k < n ensures TestBit(w, k) { OnesBits(n, k); }
    }
  }

  lemma {:induction false} NoBits(w: nat)
    requires forall k :: k >= 0 ==> !TestBit(w, k)
    ensures w == 0
  {
    if w > 0 {
      assert !TestBit(w, 0);
      forall k: nat ensures !TestBit(w / 2, k) { assert !TestBit(w, k + 1); }
      NoBits(w / 2);
    }
  }

  /** a & ~b */
  function AndNot(a: nat, b: nat): (r: nat)
    ensures r <= a
  {
    if a == 0 then 0 else (if a % 2 == 1 && b % 2 == 0 then 1 else 0) + 2 * AndNot(a / 2, b / 2)
  }

  lemma {:induction false} AndNotBits(a: nat, b: nat, k: nat)
    ensures TestBit(AndNot(a, b), k) <==> TestBit(a, k) && !TestBit(b, k)
  {
    if a == 0 {
      ZeroBits(k);
    } else if k > 0 {
      AndNotBits(a / 2, b / 2, k - 1);
    }
  }

  lemma {:induction false} SmallBits(w: nat, n: nat, k: nat)
    requires w < Pow2(n) && k >= n
    ensures !TestBit(w, k)
  {
    if n == 0 {
      ZeroBits(k);
    } else {
      SmallBits(w / 2, n - 1, k - 1);
    }
  }

  lemma OnesExactly(n: nat, k: nat)
    ensures Pow2(n) >= 1 && (TestBit(Pow2(n) - 1, k) <==> k < n)
  {
    Pow2Positive(n);
    if k < n { OnesBits(n, k); } else { SmallBits(Pow2(n) - 1, n, k); }
  }
}
