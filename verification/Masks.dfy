/** Machine words as sets: a left-aligned group mask as the groups it names, allocMask as its bits. */
module Masks {
  import opened CoreRecord

  /** CTRGRP_MASKBIT */
  function MaskBit(g: nat): (r: bv8)
    requires g < 8
  {
    [0x80, 0x40, 0x20, 0x10, 0x08, 0x04, 0x02, 0x01][g]
  }

  lemma MaskBitIsShift(g: nat)
    requires g < 8
    ensures MaskBit(g) == 0x80 as bv8 >> g
  {
    assert 0x80 as bv8 >> 0 == 0x80 && 0x80 as bv8 >> 1 == 0x40 && 0x80 as bv8 >> 2 == 0x20 && 0x80 as bv8 >> 3 == 0x10;
    assert 0x80 as bv8 >> 4 == 0x08 && 0x80 as bv8 >> 5 == 0x04 && 0x80 as bv8 >> 6 == 0x02 && 0x80 as bv8 >> 7 == 0x01;
  }

  predicate InMask(m: bv8, g: nat) {
    g < 8 && m & MaskBit(g) != 0
  }

  function Groups(m: bv8): (r: set<nat>) {
    set g: nat | g < 8 && InMask(m, g)
  }

  lemma GroupsOr(m: bv8, n: bv8)
    ensures Groups(m | n) == Groups(m) + Groups(n)
  {
    forall g: nat | g < 8 ensures InMask(m | n, g) <==> InMask(m, g) || InMask(n, g) {
      OrBit(m, n, MaskBit(g));
    }
  }

  lemma OrBit(m: bv8, n: bv8, b: bv8)
    ensures (m | n) & b != 0 <==> m & b != 0 || n & b != 0
  {
  }

  /** Exactly one bit set. */
  predicate Single(b: bv8) {
    b != 0 && b & (b - 1) == 0
  }

  lemma AndBit(m: bv8, n: bv8, b: bv8)
    requires Single(b)
    ensures (m & n) & b != 0 <==> m & b != 0 && n & b != 0
    ensures (m & !n) & b != 0 <==> m & b != 0 && n & b == 0
  {
  }

  lemma MaskBitSingle(g: nat)
    requires g < 8
    ensures Single(MaskBit(g))
  {
  }

  lemma GroupsAnd(m: bv8, n: bv8)
    ensures Groups(m & n) == Groups(m) * Groups(n)
    ensures Groups(m & !n) == Groups(m) - Groups(n)
  {
    forall g: nat | g < 8
      ensures InMask(m & n, g) <==> InMask(m, g) && InMask(n, g)
      ensures InMask(m & !n, g) <==> InMask(m, g) && !InMask(n, g)
    {
      MaskBitSingle(g);
      AndBit(m, n, MaskBit(g));
    }
  }

  lemma GroupsEmpty(m: bv8)
    ensures Groups(m) == {} <==> m == 0
  {
    if Groups(m) == {} {
      assert forall g: nat | g < 8 :: !InMask(m, g) by {
        forall g: nat | g < 8 ensures !InMask(m, g) { assert g !in Groups(m); }
      }
      assert !InMask(m, 0) && !InMask(m, 1) && !InMask(m, 2) && !InMask(m, 3);
      assert !InMask(m, 4) && !InMask(m, 5) && !InMask(m, 6) && !InMask(m, 7);
      AllBits(m);
    }
  }

  lemma AllBits(m: bv8)
    requires m & 0x80 == 0 && m & 0x40 == 0 && m & 0x20 == 0 && m & 0x10 == 0
    requires m & 0x08 == 0 && m & 0x04 == 0 && m & 0x02 == 0 && m & 0x01 == 0
    ensures m == 0
  {
  }

  lemma GroupsBit(g: nat)
    requires g < 8
    ensures Groups(MaskBit(g)) == {g}
  {
    forall h: nat | h < 8 ensures InMask(MaskBit(g), h) <==> h == g {
    }
  }

  /** `m |= CTRGRP_MASKBIT(g)` */
  function WithGroup(m: bv8, g: nat): (r: bv8)
    requires g < 8
    ensures Groups(r) == Groups(m) + {g}
  {
    GroupsOr(m, MaskBit(g));
    GroupsBit(g);
    m | MaskBit(g)
  }

  /** The masks of the hardware threads. */
  function GroupsOf(ms: seq<bv8>): (r: seq<set<nat>>)
    ensures |r| == |ms| && forall i | 0 <= i < |ms| :: r[i] == Groups(ms[i])
  {
    seq(|ms|, i requires 0 <= i < |ms| => Groups(ms[i]))
  }

  // ----- allocMask -----

  const ALL_BITS: set<Bit> :=
    {Has(L1p), Has(Qfpu), Has(Xu), Has(Sqrt), Has(Div), Has(Ctx), CtxBoth, CtxMixed}

  type Word = bv32

  /** CoreDepBits */
  function Flag(b: Bit): (w: Word) {
    match b
    case Has(L1p) => 0x0001
    case Has(Qfpu) => 0x0004
    case Has(Xu) => 0x0008
    case Has(Sqrt) => 0x0010
    case Has(Div) => 0x0020
    case Has(Ctx) => 0x0040
    case CtxBoth => 0x0080
    case CtxMixed => 0x0100
  }

  predicate On(m: Word, f: Word) {
    m & f != 0
  }

  lemma FlagsDistinct(b: Bit, c: Bit)
    ensures On(Flag(b), Flag(c)) <==> b == c
  {
  }

  lemma OrWord(m: Word, n: Word, f: Word)
    ensures (m | n) & f != 0 <==> m & f != 0 || n & f != 0
  {
  }

  lemma OrFlag(m: Word, n: Word, f: Word)
    ensures On(m | n, f) <==> On(m, f) || On(n, f)
  {
    OrWord(m, n, f);
  }

  lemma AllBitsThere(b: Bit)
    ensures b in ALL_BITS
  {
    match b
    case Has(a) => match a { case L1p => case Qfpu => case Xu => case Sqrt => case Div => case Ctx => }
    case CtxBoth =>
    case CtxMixed =>
  }

  function Bits(m: Word): (r: set<Bit>) {
    set b | b in ALL_BITS && On(m, Flag(b))
  }

  /** The bits by the numbers of the header. */
  lemma BitNumbers(m: Word)
    ensures Has(L1p) in Bits(m) <==> m & 0x0001 != 0
    ensures Has(Qfpu) in Bits(m) <==> m & 0x0004 != 0
    ensures Has(Xu) in Bits(m) <==> m & 0x0008 != 0
    ensures Has(Sqrt) in Bits(m) <==> m & 0x0010 != 0
    ensures Has(Div) in Bits(m) <==> m & 0x0020 != 0
    ensures Has(Ctx) in Bits(m) <==> m & 0x0040 != 0
    ensures CtxBoth in Bits(m) <==> m & 0x0080 != 0
    ensures CtxMixed in Bits(m) <==> m & 0x0100 != 0
  {
  }

  lemma BitsOn(m: Word)
    ensures Has(L1p) in Bits(m) <==> On(m, 0x0001)
    ensures Has(Qfpu) in Bits(m) <==> On(m, 0x0004)
    ensures Has(Xu) in Bits(m) <==> On(m, 0x0008)
    ensures Has(Sqrt) in Bits(m) <==> On(m, 0x0010)
    ensures Has(Div) in Bits(m) <==> On(m, 0x0020)
    ensures Has(Ctx) in Bits(m) <==> On(m, 0x0040)
    ensures CtxBoth in Bits(m) <==> On(m, 0x0080)
    ensures CtxMixed in Bits(m) <==> On(m, 0x0100)
  {
    hide On;
  }

  lemma NoBits()
    ensures Bits(0) == {}
  {
  }

  /** `m |= b` and `m & b` on allocMask. */
  function WithBit(m: Word, b: Bit): (r: Word)
    ensures Bits(r) == Bits(m) + {b}
  {
    BitsWith(m, b);
    m | Flag(b)
  }

  lemma BitWith(m: Word, b: Bit, c: Bit)
    ensures c in Bits(m | Flag(b)) <==> c in Bits(m) || c == b
  {
    hide Flag, On;
    AllBitsThere(c);
    OrFlag(m, Flag(b), Flag(c));
    FlagsDistinct(b, c);
  }

  lemma BitsWith(m: Word, b: Bit)
    ensures Bits(m | Flag(b)) == Bits(m) + {b}
  {
    hide Flag, Bits;
    forall c: Bit
      ensures c in Bits(m | Flag(b)) <==> c in Bits(m) || c == b
    {
      BitWith(m, b, c);
    }
  }

  /** allocMask once the context is fixed at ctx. */
  function ContextWord(m: Word, ctx: int): (r: Word) {
    var r := WithBit(m, Has(Ctx));
    if ctx == CTX_BOTH then WithBit(r, CtxBoth) else r
  }

  lemma ContextNumbers(m: Word, ctx: int)
    ensures ctx != 3 ==> ContextWord(m, ctx) == m | 0x0040
    ensures ctx == 3 ==> ContextWord(m, ctx) == (m | 0x0040) | 0x0080
  {
    hide Bits, On;
    WithNumbers(m);
    WithNumbers(m | 0x0040);
    hide WithBit;
  }

  lemma WithNumbers(m: Word)
    ensures WithBit(m, Has(Ctx)) == m | 0x0040 && WithBit(m, CtxBoth) == m | 0x0080
  {
    hide Bits, On;
  }

  lemma ContextBits(m: Word, ctx: int)
    ensures Bits(ContextWord(m, ctx)) == Bits(m) + {Has(Ctx)} + if ctx == CTX_BOTH then {CtxBoth} else {}
  {
    hide Bits;
  }

  /** The mask of group g is a byte with the bit 0x80 >> g. */
  lemma InMaskIs(m: bv8, g: nat)
    requires g < 8
    ensures InMask(m, g) <==> m & (0x80 as bv8 >> g) != 0
    ensures WithGroup(m, g) == m | (0x80 as bv8 >> g)
  {
    hide MaskBit, Groups;
    MaskBitIsShift(g);
  }

  predicate TestBit(m: Word, b: Bit)
    ensures TestBit(m, b) <==> b in Bits(m)
  {
    AllBitsThere(b);
    On(m, Flag(b))
  }
}
