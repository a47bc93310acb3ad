/** Unsigned C words as natural numbers, with the C bit operators written out bit by bit.
    Every operator is characterised by what it does to a single bit; two words with the
    same bits are the same word. */
module Bits {
  type u8 = n: nat | n < 0x100
  type u16 = n: nat | n < 0x1_0000
  type u32 = n: nat | n < 0x1_0000_0000
  type u64 = n: nat | n < 0x1_0000_0000_0000_0000

  /** Bit `i` of `n`, counting from the least significant one. */
  predicate Bit(n: nat, i: nat) {
    if i == 0 then n % 2 == 1 else Bit(n / 2, i - 1)
  }

  /** `a & b` */
  function And(a: nat, b: nat): nat {
    if a == 0 || b == 0 then 0
    else (if a % 2 == 1 && b % 2 == 1 then 1 else 0) + 2 * And(a / 2, b / 2)
  }

  /** `a | b` */
  function Or(a: nat, b: nat): nat {
    if a == 0 then b
    else if b == 0 then a
    else (if a % 2 == 1 || b % 2 == 1 then 1 else 0) + 2 * Or(a / 2, b / 2)
  }

  /** `a << s`, for values that stay inside their word */
  function Shl(a: nat, s: nat): nat {
    if s == 0 then a else 2 * Shl(a, s - 1)
  }

  /** `a >> s` */
  function Shr(a: nat, s: nat): nat {
    if s == 0 then a else Shr(a / 2, s - 1)
  }

  /** `(1 << w) - 1`: `w` ones */
  function Mask(w: nat): nat {
    if w == 0 then 0 else 1 + 2 * Mask(w - 1)
  }

  /** Conversion of a C `int` to `uint32_t`. */
  function U32(x: int): u32 {
    x % 0x1_0000_0000
  }

  lemma {:induction false} ZeroBit(i: nat)
    ensures !Bit(0, i)
  {
    if i > 0 { ZeroBit(i - 1); }
  }

  lemma {:induction false} AndBit(a: nat, b: nat, i: nat)
    ensures Bit(And(a, b), i) <==> Bit(a, i) && Bit(b, i)
  {
    if a == 0 || b == 0 {
      ZeroBit(i);
    } else if i > 0 {
      AndBit(a / 2, b / 2, i - 1);
    }
  }

  lemma {:induction false} OrBit(a: nat, b: nat, i: nat)
    ensures Bit(Or(a, b), i) <==> Bit(a, i) || Bit(b, i)
  {
    if a == 0 || b == 0 {
      ZeroBit(i);
    } else if i > 0 {
      OrBit(a / 2, b / 2, i - 1);
    }
  }

  lemma {:induction false} ShlBit(a: nat, s: nat, i: nat)
    ensures Bit(Shl(a, s), i) <==> i >= s && Bit(a, i - s)
  {
    if s > 0 && i > 0 { ShlBit(a, s - 1, i - 1); }
  }

  lemma {:induction false} ShrBit(a: nat, s: nat, i: nat)
    ensures Bit(Shr(a, s), i) <==> Bit(a, i + s)
  {
    if s > 0 { ShrBit(a / 2, s - 1, i); }
  }

  lemma {:induction false} MaskBit(w: nat, i: nat)
    ensures Bit(Mask(w), i) <==> i < w
  {
    if w == 0 {
      ZeroBit(i);
    } else if i > 0 {
      MaskBit(w - 1, i - 1);
    }
  }

  /** Two words that agree on every bit are equal. */
  lemma {:induction false} SameBits(a: nat, b: nat)
    requires forall i: nat :: Bit(a, i) <==> Bit(b, i)
    ensures a == b
    decreases a + b
  {
    if a + b > 0 {
      forall i: nat
        ensures Bit(a / 2, i) <==> Bit(b / 2, i)
      {
        assert Bit(a, i + 1) <==> Bit(b, i + 1);
      }
      assert Bit(a, 0) <==> Bit(b, 0);
      SameBits(a / 2, b / 2);
    }
  }

  /** Masking with `w` ones keeps a value that needs no more than `w` bits. */
  lemma {:induction false} AndMaskSmall(v: nat, w: nat)
    requires v <= Mask(w)
    ensures And(v, Mask(w)) == v
  {
    if v > 0 { AndMaskSmall(v / 2, w - 1); }
  }
}
