/**
 The multiplier of the simulated processor (machine/mipssim): 32 steps of shift and add
 on pairs of 32-bit words, with two's complement at both ends.
 */
module Multiplier {
  import opened Words

  /** The double word with a given high and low half. */
  function Pair(hi: word, lo: word): int
  {
    hi * 0x1_0000_0000 + lo
  }

  /** A double word read as a signed number. */
  function SignedPair(hi: word, lo: word): int
  {
    if hi < 0x8000_0000 then Pair(hi, lo) else Pair(hi, lo) - 0x1_0000_0000_0000_0000
  }

  /** A sum of two words, or a doubled word, as a word. */
  function Wrapped(x: nat): word
    requires x < 0x2_0000_0000
  {
    if x < 0x1_0000_0000 then x else x - 0x1_0000_0000
  }

  /** Negation of an int; the most negative one is its own. */
  function Negated(a: int32): int32
  {
    if a == -0x8000_0000 then a else -(a as int)
  }

  /** The bit pattern of the negated pattern has the absolute value. */
  lemma NegatedIsAbsolute(a: int32)
    requires a < 0
    ensures ToWord(Negated(a)) as int + a == 0
  {
  }

  // --------------------------------------------------------- one step

  /** lo += bLo, hi += bHi with carry. */
  method AddPair(hi: word, lo: word, bHi: word, bLo: word) returns (hi': word, lo': word)
    requires Pair(hi, lo) + Pair(bHi, bLo) < 0x1_0000_0000_0000_0000
    ensures Pair(hi', lo') == Pair(hi, lo) + Pair(bHi, bLo)
  {
    hi' := hi;
    lo' := Wrapped(lo + bLo);
    if lo' < bLo {
      hi' := Wrapped(hi' + 1);
    }
    hi' := Wrapped(hi' + bHi);
  }

  method ShiftPair(bHi: word, bLo: word) returns (bHi': word, bLo': word)
    requires 2 * Pair(bHi, bLo) < 0x1_0000_0000_0000_0000
    ensures Pair(bHi', bLo') == 2 * Pair(bHi, bLo)
  {
    bHi' := Wrapped(2 * bHi);
    if bLo >= 0x8000_0000 {
      bHi' := bHi' + 1;
    }
    bLo' := Wrapped(2 * bLo);
  }

  /** Two's complement of a double word. */
  method NegatePair(hi: word, lo: word) returns (hi': word, lo': word)
    ensures Pair(hi', lo') == if Pair(hi, lo) == 0 then 0 else 0x1_0000_0000_0000_0000 - Pair(hi, lo)
  {
    hi' := 0xFFFF_FFFF - hi;
    lo' := 0xFFFF_FFFF - lo;
    lo' := Wrapped(lo' + 1);
    if lo' == 0 {
      hi' := Wrapped(hi' + 1);
    }
  }

  // ---------------------------------------------------------- the loop

  /**
   `a` after `i` arithmetic shifts stands for the bits that are still to be looked at: it
   is their value, or that value less a power of two when copies of the sign came in.
   */
  ghost predicate StandsFor(a: int, rest: nat, i: nat)
    requires i <= 32
  {
    rest < Pow2(32 - i) && (a == rest || a == rest - Pow2(32 - i))
  }

  lemma StandsForShifted(a: int, rest: nat, i: nat)
    requires i < 32 && StandsFor(a, rest, i)
    ensures StandsFor(a / 2, rest / 2, i + 1) && a % 2 == rest % 2
    ensures a == 1 ==> rest == 1
  {
    assert Pow2(32 - i) == 2 * Pow2(31 - i);
  }

  lemma StandsForAll(a: int32)
    ensures StandsFor(a, ToWord(a), 0)
  {
    WordWidth();
  }

  /** Taking the low bit of `rest` and doubling `x` leaves `rest * x` as it was. */
  lemma ShiftedProduct(rest: nat, x: int)
    ensures rest * x == (rest / 2) * (2 * x) + (if rest % 2 == 1 then x else 0)
  {
    var half := rest / 2;
    if rest % 2 == 1 {
      assert rest == 2 * half + 1;
      assert (2 * half + 1) * x == half * (2 * x) + x;
    } else {
      assert rest == 2 * half;
      assert (2 * half) * x == half * (2 * x);
    }
  }

  lemma Monotone(a: nat, b: nat, m: nat)
    requires a <= m && b <= m
    ensures 0 <= a * b <= m * m
  {
    assert a * b <= a * m;
    assert a * m <= m * m;
  }

  lemma Nonnegative(a: nat, b: nat)
    ensures a * b >= 0
  {
  }

  /** What is left to add fits a double word. */
  lemma SumFits(rest: nat, x: nat, sum: nat, a: word, b: word)
    requires sum + rest * x == a * b && rest % 2 == 1
    ensures sum + x < 0x1_0000_0000_0000_0000
  {
    Monotone(a, b, 0xFFFF_FFFF);
    ShiftedProduct(rest, x);
    Nonnegative(rest / 2, 2 * x);
  }

  lemma {:induction false} PowersFit(k: nat)
    requires k <= 63
    ensures Pow2(k) <= 0x8000_0000_0000_0000
    decreases 63 - k
  {
    if k == 63 {
      WordWidth();
      PowersAdd(31, 32);
      assert Pow2(32) == 2 * Pow2(31);
    } else {
      PowersFit(k + 1);
    }
  }

  lemma {:induction false} PowersAdd(j: nat, k: nat)
    ensures Pow2(j + k) == Pow2(j) * Pow2(k)
  {
    if j > 0 {
      PowersAdd(j - 1, k);
      assert Pow2(j + k) == 2 * Pow2(j - 1 + k);
      assert 2 * (Pow2(j - 1) * Pow2(k)) == (2 * Pow2(j - 1)) * Pow2(k);
    }
  }

  method MultUnsigned(a0: int32, b: int32) returns (hi: word, lo: word)
    ensures Pair(hi, lo) == ToWord(a0) * ToWord(b)
  {
    var a: int := a0;
    var bHi: word, bLo: word := 0, ToWord(b);
    hi, lo := 0, 0;
    ghost var rest: nat, product := ToWord(a0), ToWord(a0) * ToWord(b);
    StandsForAll(a0);
    WordWidth();
    for i := 0 to 32
      invariant StandsFor(a, rest, i)
      invariant Pair(bHi, bLo) < Pow2(32 + i)
      invariant Pair(hi, lo) + rest * Pair(bHi, bLo) == product
    {
      ghost var sum, x := Pair(hi, lo), Pair(bHi, bLo);
      StandsForShifted(a, rest, i);
      ShiftedProduct(rest, x);
      PowersFit(32 + i);
      if a % 2 == 1 {
        SumFits(rest, x, sum, ToWord(a0), ToWord(b));
        hi, lo := AddPair(hi, lo, bHi, bLo);
        if a == 1 { // no other bit of an odd a is set
          return;
        }
      }
      bHi, bLo := ShiftPair(bHi, bLo);
      a, rest := a / 2, rest / 2;
    }
  }

  /** The exact product, signed or unsigned, of any two operands. */
  method Mult(a: int32, b: int32, signedArith: bool) returns (hi: int32, lo: int32)
    ensures signedArith ==> SignedPair(ToWord(hi), ToWord(lo)) == a * b
    ensures !signedArith ==> Pair(ToWord(hi), ToWord(lo)) == ToWord(a) * ToWord(b)
  {
    if a == 0 || b == 0 {
      return 0, 0;
    }
    var negative, a', b' := false, a, b;
    if signedArith {
      if a < 0 {
        negative := !negative;
        a' := Negated(a);
        NegatedIsAbsolute(a);
      }
      if b < 0 {
        negative := !negative;
        b' := Negated(b);
        NegatedIsAbsolute(b);
      }
    }
    var h, l := MultUnsigned(a', b');
    if signedArith {
      SignedProduct(a, b, ToWord(a'), ToWord(b'));
    }
    if negative {
      h, l := NegatePair(h, l);
    }
    hi, lo := ToInt(h), ToInt(l);
  }

  /** The product of two ints in terms of their absolute values. */
  lemma SignedProduct(a: int32, b: int32, a': nat, b': nat)
    requires a' == (if a < 0 then -(a as int) else a) && b' == (if b < 0 then -(b as int) else b)
    requires a != 0 && b != 0
    ensures a * b == if (a < 0) != (b < 0) then -(a' * b') else a' * b'
    ensures 0 < a' * b' <= 0x4000_0000_0000_0000
  {
    Monotone(a', b', 0x8000_0000);
  }
}
