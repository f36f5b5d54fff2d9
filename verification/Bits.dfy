/** The 64-bit words of the occupancy bitmap: `&`, `|`, `!`, `<<` and the two
    zero-counting intrinsics on unsigned integers, and what they do bit by bit. */
module Bits {
  const WORD: nat := 0x1_0000_0000_0000_0000
  const ALL_ONES: nat := WORD - 1

  /** Bit `i` of `w`. */
  predicate Bit(w: nat, i: nat) {
    if i == 0 then w % 2 == 1 else Bit(w / 2, i - 1)
  }

  function And(a: nat, b: nat): nat {
    if a == 0 || b == 0 then 0
    else 2 * And(a / 2, b / 2) + if a % 2 == 1 && b % 2 == 1 then 1 else 0
  }

  function Or(a: nat, b: nat): nat {
    if a == 0 then b
    else if b == 0 then a
    else 2 * Or(a / 2, b / 2) + if a % 2 == 1 || b % 2 == 1 then 1 else 0
  }

  function Xor(a: nat, b: nat): nat {
    if a == 0 then b
    else if b == 0 then a
    else 2 * Xor(a / 2, b / 2) + if a % 2 != b % 2 then 1 else 0
  }

  /** `!w` on 64 bits. */
  function Not(w: nat): nat
    requires w < WORD
  {
    ALL_ONES - w
  }

  /** `w << i` on 64 bits: what is shifted past bit 63 is lost. */
  function Shl(w: nat, i: nat): nat {
    if i == 0 then w else (2 * Shl(w, i - 1)) % WORD
  }

  /** `leading_zeros`, counting down from bit `i`. */
  function LeadingZeros(w: nat, i: nat := 63): nat
    requires i < 64
  {
    if Bit(w, i) then 63 - i else if i == 0 then 64 else LeadingZeros(w, i - 1)
  }

  /** `trailing_zeros`, counting up from bit `i`. */
  function TrailingZeros(w: nat, i: nat := 0): nat
    requires i < 64
    decreases 64 - i
  {
    if Bit(w, i) then i else if i == 63 then 64 else TrailingZeros(w, i + 1)
  }

  /** 2^i as a plain number. */
  function Pow2(i: nat): (p: nat)
    ensures p > 0
  {
    if i == 0 then 1 else 2 * Pow2(i - 1)
  }

  lemma {:induction false} AndBit(a: nat, b: nat, i: nat)
    ensures Bit(And(a, b), i) <==> Bit(a, i) && Bit(b, i)
  {
    if a == 0 || b == 0 {
      ZeroBit(i);
    } else if i > 0 {
      AndBit(a / 2, b / 2, i - 1);
    }
  }

  lemma {:induction false} OrBit(a: nat, b: nat, i: nat)
    ensures Bit(Or(a, b), i) <==> Bit(a, i) || Bit(b, i)
  {
    if a == 0 || b == 0 {
      ZeroBit(i);
    } else if i > 0 {
      OrBit(a / 2, b / 2, i - 1);
    }
  }

  lemma {:induction false} XorBit(a: nat, b: nat, i: nat)
    ensures Bit(Xor(a, b), i) <==> Bit(a, i) != Bit(b, i)
  {
    if a == 0 || b == 0 {
      ZeroBit(i);
    } else if i > 0 {
      XorBit(a / 2, b / 2, i - 1);
    }
  }

  lemma {:induction false} XorBound(a: nat, b: nat, n: nat)
    requires a < Pow2(n) && b < Pow2(n)
    ensures Xor(a, b) < Pow2(n)
  {
    if n > 0 {
      XorBound(a / 2, b / 2, n - 1);
    }
  }

  lemma {:induction false} ZeroBit(i: nat)
    ensures !Bit(0, i)
  {
    if i > 0 {
      ZeroBit(i - 1);
    }
  }

  lemma {:induction false} PowerBit(i: nat, j: nat)
    ensures Bit(Pow2(i), j) <==> i == j
  {
    if i > 0 && j > 0 {
      PowerBit(i - 1, j - 1);
    } else if j > 0 {
      ZeroBit(j - 1);
    }
  }

  lemma {:induction false} BelowPowerBit(i: nat, j: nat)
    ensures Bit(Pow2(i) - 1, j) <==> j < i
  {
    if i > 0 && j > 0 {
      BelowPowerBit(i - 1, j - 1);
      assert (Pow2(i) - 1) / 2 == Pow2(i - 1) - 1;
    } else if i == 0 {
      ZeroBit(j);
    }
  }

  lemma {:induction false} ComplementBit(w: nat, n: nat, i: nat)
    requires w < Pow2(n) && i < n
    ensures Bit(Pow2(n) - 1 - w, i) <==> !Bit(w, i)
  {
    if i > 0 {
      ComplementBit(w / 2, n - 1, i - 1);
      assert (Pow2(n) - 1 - w) / 2 == Pow2(n - 1) - 1 - w / 2;
    }
  }

  lemma WordIsPow2()
    ensures Pow2(64) == WORD
  {
    assert Pow2(8) == 0x100;
    assert Pow2(16) == 0x1_0000;
    assert Pow2(24) == 0x100_0000;
    assert Pow2(32) == 0x1_0000_0000;
    assert Pow2(40) == 0x100_0000_0000;
    assert Pow2(48) == 0x1_0000_0000_0000;
    assert Pow2(56) == 0x100_0000_0000_0000;
  }

  lemma {:induction false} PowMonotone(i: nat, n: nat)
    requires i <= n
    ensures Pow2(i) <= Pow2(n)
    ensures i < n ==> 2 * Pow2(i) <= Pow2(n)
  {
    if i < n {
      PowMonotone(i, n - 1);
    }
  }

  lemma {:induction false} ShlOne(i: nat)
    requires i < 64
    ensures Shl(1, i) == Pow2(i) < WORD
  {
    WordIsPow2();
    PowMonotone(i, 64);
    if i > 0 {
      ShlOne(i - 1);
    }
  }

  lemma {:induction false} ShlOnes(i: nat)
    requires i <= 64
    ensures Pow2(i) <= WORD && Shl(ALL_ONES, i) == WORD - Pow2(i)
  {
    WordIsPow2();
    PowMonotone(i, 64);
    if i > 0 {
      ShlOnes(i - 1);
      assert (2 * (WORD - Pow2(i - 1))) % WORD == WORD - Pow2(i);
    }
  }

  /** Setting a bit, as `w |= 1 << i` does, changes that bit only. */
  lemma SetBit(w: nat, i: nat, j: nat)
    requires i < 64
    ensures Bit(Or(w, Shl(1, i)), j) <==> j == i || Bit(w, j)
  {
    ShlOne(i);
    OrBit(w, Shl(1, i), j);
    PowerBit(i, j);
  }

  /** Clearing a bit, as `w &= !(1 << i)` does, changes that bit only. */
  lemma ClearBit(w: nat, i: nat, j: nat)
    requires i < 64 && j < 64
    ensures Shl(1, i) < WORD && (Bit(And(w, Not(Shl(1, i))), j) <==> j != i && Bit(w, j))
  {
    ShlOne(i);
    WordIsPow2();
    AndBit(w, Not(Shl(1, i)), j);
    ComplementBit(Shl(1, i), 64, j);
    PowerBit(i, j);
  }

  /** The test `w & (1 << i) != 0` reads bit `i`. */
  lemma TestBit(w: nat, i: nat)
    requires i < 64
    ensures And(w, Shl(1, i)) != 0 <==> Bit(w, i)
  {
    ShlOne(i);
    SingleBit(w, i);
  }

  lemma {:induction false} SingleBit(w: nat, i: nat)
    ensures And(w, Pow2(i)) != 0 <==> Bit(w, i)
  {
    if w == 0 {
      ZeroBit(i);
    } else if i > 0 {
      SingleBit(w / 2, i - 1);
    }
  }

  /** Masking with `(1 << i) - 1` keeps the bits below `i`. */
  lemma KeepBelow(w: nat, i: nat, j: nat)
    requires i < 64
    ensures Shl(1, i) > 0 && (Bit(And(w, Shl(1, i) - 1), j) <==> j < i && Bit(w, j))
  {
    ShlOne(i);
    AndBit(w, Shl(1, i) - 1, j);
    BelowPowerBit(i, j);
  }

  /** Masking with `MAX << i` keeps the bits from `i` up. */
  lemma KeepFrom(w: nat, i: nat, j: nat)
    requires i < 64 && j < 64
    ensures Bit(And(w, Shl(ALL_ONES, i)), j) <==> i <= j && Bit(w, j)
  {
    ShlOnes(i);
    WordIsPow2();
    AndBit(w, Shl(ALL_ONES, i), j);
    PowMonotone(0, i);
    PowMonotone(i, 64);
    ComplementBit(Pow2(i) - 1, 64, j);
    BelowPowerBit(i, j);
  }

  lemma {:induction false} AndBound(a: nat, b: nat)
    ensures And(a, b) <= a && And(a, b) <= b
  {
    if a != 0 && b != 0 {
      AndBound(a / 2, b / 2);
    }
  }

  lemma {:induction false} OrBound(a: nat, b: nat, n: nat)
    requires a < Pow2(n) && b < Pow2(n)
    ensures Or(a, b) < Pow2(n)
  {
    if a != 0 && b != 0 {
      OrBound(a / 2, b / 2, n - 1);
    }
  }

  /** Setting a bit of a 64-bit word gives a 64-bit word. */
  lemma SetBitFits(w: nat, i: nat)
    requires w < WORD && i < 64
    ensures Or(w, Shl(1, i)) < WORD
  {
    WordIsPow2();
    ShlOne(i);
    OrBound(w, Shl(1, i), 64);
  }

  /** `w | (1 << i)`. */
  function WithBit(w: nat, i: nat): (r: nat)
    requires w < WORD && i < 64
    ensures r < WORD
  {
    SetBitFits(w, i);
    Or(w, Shl(1, i))
  }

  /** `w & !(1 << i)`. */
  function WithoutBit(w: nat, i: nat): (r: nat)
    requires w < WORD && i < 64
    ensures r <= w
  {
    ShlOne(i);
    AndBound(w, Not(Shl(1, i)));
    And(w, Not(Shl(1, i)))
  }

  /** A non-zero word has a set bit. */
  lemma {:induction false} SomeBit(w: nat, n: nat) returns (i: nat)
    requires 0 < w < Pow2(n)
    ensures i < n && Bit(w, i)
  {
    if w % 2 == 1 {
      i := 0;
    } else {
      i := SomeBit(w / 2, n - 1);
      i := i + 1;
    }
  }

  lemma {:induction false} LeadingZerosUpTo(w: nat, i: nat)
    requires i < 64
    ensures var z := LeadingZeros(w, i);
            if z == 64 then forall j: nat :: j <= i ==> !Bit(w, j)
            else z < 64 && 63 - z <= i && Bit(w, 63 - z) && forall j: nat :: 63 - z < j <= i ==> !Bit(w, j)
  {
    if !Bit(w, i) && i > 0 {
      LeadingZerosUpTo(w, i - 1);
    }
  }

  lemma {:induction false} TrailingZerosFrom(w: nat, i: nat)
    requires i < 64
    ensures var z := TrailingZeros(w, i);
            if z == 64 then forall j: nat :: i <= j < 64 ==> !Bit(w, j)
            else i <= z < 64 && Bit(w, z) && forall j: nat :: i <= j < z ==> !Bit(w, j)
    decreases 64 - i
  {
    if !Bit(w, i) && i < 63 {
      TrailingZerosFrom(w, i + 1);
    }
  }

  /** `63 - leading_zeros` is the highest set bit of a non-zero word. */
  lemma HighestBit(w: nat)
    requires 0 < w < WORD
    ensures LeadingZeros(w) < 64
    ensures Bit(w, 63 - LeadingZeros(w))
    ensures forall j: nat :: 63 - LeadingZeros(w) < j < 64 ==> !Bit(w, j)
  {
    WordIsPow2();
    var i := SomeBit(w, 64);
    LeadingZerosUpTo(w, 63);
  }

  /** `trailing_zeros` is the lowest set bit of a non-zero word. */
  lemma LowestBit(w: nat)
    requires 0 < w < WORD
    ensures TrailingZeros(w) < 64
    ensures Bit(w, TrailingZeros(w))
    ensures forall j: nat :: j < TrailingZeros(w) ==> !Bit(w, j)
  {
    WordIsPow2();
    var i := SomeBit(w, 64);
    TrailingZerosFrom(w, 0);
  }
}
