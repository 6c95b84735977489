/**
 * Instruction match codes. Fields are named as in section 1.6 of Book I of the Power ISA, where bits are counted from 0
 * for the most significant to 31 for the least.
 */
module Opcodes {
  import opened Words

  /** An extended opcode x of s bits that ends at bit b, where it stands in a match code. */
  function XoBits(b: Word, x: Word, s: Word): Word
    requires s <= 10 && b <= 30
  {
    Left(And(x, Right(0x3FF, 10 - s)), 30 - b)
  }

  /** The same for a field that reaches bit 31, without that bit. */
  function XoBits31(b: Word, x: Word, s: Word): Word
    requires s <= 11 && b <= 31
  {
    Left(Right(And(x, Right(0x7FF, 11 - s)), 1), 31 - b)
  }

  function OcBits(x: Word): Word {
    Left(x, 10)
  }

  datatype Form = X | I | B | SC | D | DS | DQ | XL | XFL | XFX | XS | XO | A | M | MD | MDS | EVX | Z23

  function FormCode(f: Form, opcd: Word, xo: Word): Word {
    match f
    case I | B | SC | D | DQ | M => OcBits(opcd)
    case X | XL | XFL | XFX => Or(OcBits(opcd), XoBits(30, xo, 10))
    case XS => Or(OcBits(opcd), XoBits(29, xo, 9))
    case XO => Or(OcBits(opcd), XoBits(30, xo, 9))
    case A => Or(OcBits(opcd), XoBits(30, xo, 5))
    case MD => Or(OcBits(opcd), XoBits(29, xo, 3))
    case MDS => Or(OcBits(opcd), XoBits(30, xo, 4))
    case Z23 => Or(OcBits(opcd), XoBits(30, xo, 8))
    case DS => Or(OcBits(opcd), XoBits31(31, xo, 2))
    case EVX => Or(OcBits(opcd), XoBits31(31, xo, 11))
  }

  /** The mask of the Z23 form is made from eleven ones, not ten. */
  function FormMask(f: Form): Word {
    match f
    case I | B | SC | D | DQ | M => OcBits(0x3F)
    case X | XL | XFL | XFX => Or(OcBits(0x3F), XoBits(30, 0x3FF, 10))
    case XS => Or(OcBits(0x3F), XoBits(29, 0x3FF, 9))
    case XO => Or(OcBits(0x3F), XoBits(30, 0x3FF, 9))
    case A => Or(OcBits(0x3F), XoBits(30, 0x3FF, 5))
    case MD => Or(OcBits(0x3F), XoBits(29, 0x3FF, 3))
    case MDS => Or(OcBits(0x3F), XoBits(30, 0x3FF, 4))
    case Z23 => Or(OcBits(0x3F), XoBits(30, 0x7FF, 8))
    case DS => Or(OcBits(0x3F), XoBits31(31, 0x7FF, 2))
    case EVX => Or(OcBits(0x3F), XoBits31(31, 0x7FF, 11))
  }

  // ----- a word by its fields -----

  function Major(w: Word): Word {
    Right(w, 26)
  }

  /** Bits b - s + 1 to b of a word. */
  function Field(w: Word, b: Word, s: Word): Word
    requires s <= 31 && b <= 31
  {
    And(Right(w, 31 - b), Low(s))
  }

  /** What the matcher sees of a word: the major opcode and bits 21 to 30. */
  function Key(w: Word): Word {
    Or(OcBits(Major(w)), And(Right(w, 1), 0x3FF))
  }

  /** The bits from first to last of a word are those of an extended opcode; bit 31 does not matter. */
  predicate Agrees(w: Word, xo: Word, first: Word, last: Word)
    requires 21 <= first <= last <= 31
  {
    if last == 31 then
      Right(Field(w, 31, 32 - first), 1) == And(Right(xo, 1), Low(31 - first))
    else
      Field(w, last, last - first + 1) == And(xo, Low(last - first + 1))
  }

  /** The word has the extended opcode where the form has one. */
  predicate HasMinor(f: Form, xo: Word, w: Word) {
    match f
    case I | B | SC | D | DQ | M => true
    case X | XL | XFL | XFX => Agrees(w, xo, 21, 30)
    case XS => Agrees(w, xo, 21, 29)
    case XO => Agrees(w, xo, 22, 30)
    case A => Agrees(w, xo, 26, 30)
    case MD => Agrees(w, xo, 27, 29)
    case MDS => Agrees(w, xo, 27, 30)
    case Z23 => Agrees(w, xo, 23, 30)
    case DS => Agrees(w, xo, 30, 31)
    case EVX => Agrees(w, xo, 21, 31)
  }

  // ----- the parts, bit by bit -----

  lemma Masks(s: Word)
    ensures s <= 10 ==> Right(0x3FF, 10 - s) == Low(s)
    ensures s <= 11 ==> Right(0x7FF, 11 - s) == Low(s)
  {
  }

  lemma LiteralBit(j: Word)
    requires j <= 31
    ensures Bit(0x3F, j) <==> j < 6
    ensures Bit(0x3FF, j) <==> j < 10
    ensures Bit(0x7FF, j) <==> j < 11
  {
  }

  lemma PlacedBit(x: Word, s: Word, c: Word, j: Word)
    requires s <= 10 && c <= 31 && j <= 31
    ensures Bit(Left(And(x, Low(s)), c), j) <==> c <= j && j - c < s && Bit(x, j - c)
  {
    hide *;
    LeftBit(And(x, Low(s)), c, j);
    if c <= j {
      AndBit(x, Low(s), j - c);
      LowBit(s, j - c);
    }
  }

  lemma XoBit(b: Word, x: Word, s: Word, c: Word, j: Word)
    requires s <= 10 && b <= 30 && c == 30 - b && j <= 31
    ensures Bit(XoBits(b, x, s), j) <==> c <= j && j - c < s && Bit(x, j - c)
  {
    hide Left, And, Right, Low, Bit;
    Masks(s);
    PlacedBit(x, s, c, j);
  }

  lemma XoBit31(x: Word, s: Word, j: Word)
    requires s <= 11 && j <= 31
    ensures Bit(XoBits31(31, x, s), j) <==> j + 1 < s && Bit(x, j + 1)
  {
    hide Left, And, Right, Low, Bit;
    Masks(s);
    ShiftZero(Right(And(x, Low(s)), 1));
    RightBit(And(x, Low(s)), 1, j);
    if j < 31 {
      AndBit(x, Low(s), j + 1);
      LowBit(s, j + 1);
    }
  }

  lemma OcBit(x: Word, j: Word)
    requires j <= 31
    ensures Bit(OcBits(x), j) <==> 10 <= j && Bit(x, j - 10)
  {
    hide Left, Bit;
    LeftBit(x, 10, j);
  }

  lemma MajorBit(w: Word, j: Word)
    requires j <= 31
    ensures Bit(Major(w), j) <==> j < 6 && Bit(w, j + 26)
  {
    hide Right, Bit;
    RightBit(w, 26, j);
  }

  lemma FieldBit(w: Word, b: Word, s: Word, j: Word)
    requires 1 <= s <= 11 && s + 20 <= b <= 31 && j <= 31
    ensures Bit(Field(w, b, s), j) <==> j < s && Bit(w, j + (31 - b))
  {
    hide Right, And, Low, Bit;
    AndBit(Right(w, 31 - b), Low(s), j);
    LowBit(s, j);
    RightBit(w, 31 - b, j);
  }

  lemma KeyBit(w: Word, j: Word)
    requires j <= 31
    ensures Bit(Key(w), j) <==> (10 <= j < 16 && Bit(w, j + 16)) || (j < 10 && Bit(w, j + 1))
  {
    hide Right, And, Or, OcBits, Major, Bit;
    OrBit(OcBits(Major(w)), And(Right(w, 1), 0x3FF), j);
    AndBit(Right(w, 1), 0x3FF, j);
    LiteralBit(j);
    RightBit(w, 1, j);
    OcBit(Major(w), j);
    if 10 <= j {
      MajorBit(w, j - 10);
    }
  }

  // ----- matching -----

  /** A mask that keeps the major opcode and n bits from place c on. */
  ghost predicate IsMask(mask: Word, c: Word, n: Word)
    requires c <= 10 && n <= 10 - c
  {
    forall j: Word | j <= 31 :: Bit(mask, j) <==> 10 <= j < 16 || c <= j < c + n
  }

  /** A code for a major opcode and the n bits of x from place c on. */
  ghost predicate IsCode(code: Word, opcd: Word, x: Word, c: Word, n: Word)
    requires c <= 10 && n <= 10 - c
  {
    forall j: Word | j <= 31 ::
      Bit(code, j) <==> (10 <= j < 16 && Bit(opcd, j - 10)) || (c <= j < c + n && Bit(x, j - c))
  }

  /** The n bits of a word that the key has from place c on. */
  ghost predicate IsPart(part: Word, w: Word, c: Word, n: Word)
    requires c <= 10 && n <= 10 - c
  {
    forall j: Word | j <= 31 :: Bit(part, j) <==> j < n && Bit(w, j + c + 1)
  }

  lemma Masked(w: Word, mask: Word, c: Word, n: Word, j: Word)
    requires c <= 10 && n <= 10 - c && IsMask(mask, c, n) && j <= 31
    ensures Bit(And(Key(w), mask), j) <==> (10 <= j < 16 && Bit(w, j + 16)) || (c <= j < c + n && Bit(w, j + 1))
  {
    hide Key, And, Bit;
    AndBit(Key(w), mask, j);
    KeyBit(w, j);
  }

  lemma SameMajor(w: Word, mask: Word, code: Word, opcd: Word, x: Word, c: Word, n: Word)
    requires c <= 10 && n <= 10 - c && IsMask(mask, c, n) && IsCode(code, opcd, x, c, n)
    requires opcd <= 0x3F && And(Key(w), mask) == code
    ensures Major(w) == opcd
  {
    hide Key, And, Bit, Major, IsMask;
    forall j: Word | j <= 31
      ensures Bit(Major(w), j) <==> Bit(opcd, j)
    {
      MajorBit(w, j);
      if j < 6 {
        Masked(w, mask, c, n, j + 10);
      } else {
        OpcodeBit(opcd, j);
      }
    }
    Same(Major(w), opcd);
  }

  lemma SamePart(w: Word, mask: Word, code: Word, opcd: Word, x: Word, part: Word, c: Word, n: Word)
    requires c <= 10 && n <= 10 - c && IsMask(mask, c, n) && IsCode(code, opcd, x, c, n)
    requires IsPart(part, w, c, n) && And(Key(w), mask) == code
    ensures part == And(x, Low(n))
  {
    hide Key, And, Bit, Low, IsMask;
    forall j: Word | j <= 31
      ensures Bit(part, j) <==> Bit(And(x, Low(n)), j)
    {
      AndBit(x, Low(n), j);
      LowBit(n, j);
      if j < n {
        Masked(w, mask, c, n, j + c);
      }
    }
    Same(part, And(x, Low(n)));
  }

  lemma SameAt(w: Word, mask: Word, code: Word, x: Word, c: Word, n: Word, j: Word)
    requires c <= 10 && n <= 10 - c && IsMask(mask, c, n) && IsCode(code, Major(w), x, c, n) && j <= 31
    requires IsPart(And(x, Low(n)), w, c, n)
    ensures Bit(And(Key(w), mask), j) <==> Bit(code, j)
  {
    hide Key, And, Bit, Low, IsMask, Major;
    Masked(w, mask, c, n, j);
    if 10 <= j {
      MajorBit(w, j - 10);
    } else if c <= j {
      AndBit(x, Low(n), j - c);
      LowBit(n, j - c);
    }
  }

  lemma SameCode(w: Word, mask: Word, code: Word, x: Word, c: Word, n: Word)
    requires c <= 10 && n <= 10 - c && IsMask(mask, c, n) && IsCode(code, Major(w), x, c, n)
    requires IsPart(And(x, Low(n)), w, c, n)
    ensures And(Key(w), mask) == code
  {
    assert SameBits(And(Key(w), mask), code) by {
      hide Key, And, Bit, Low, IsMask, IsCode, IsPart, Major;
      forall j: Word | j <= 31
        ensures Bit(And(Key(w), mask), j) <==> Bit(code, j)
      {
        SameAt(w, mask, code, x, c, n, j);
      }
    }
    hide *;
    Same(And(Key(w), mask), code);
  }

  /** A mask lets a code pass exactly when the major opcode and the bits it keeps agree. */
  lemma PlaceExact(w: Word, mask: Word, code: Word, opcd: Word, x: Word, part: Word, c: Word, n: Word)
    requires c <= 10 && n <= 10 - c && IsMask(mask, c, n) && IsCode(code, opcd, x, c, n)
    requires IsPart(part, w, c, n) && opcd <= 0x3F
    ensures And(Key(w), mask) == code <==> Major(w) == opcd && part == And(x, Low(n))
  {
    hide *;
    if And(Key(w), mask) == code {
      SameMajor(w, mask, code, opcd, x, c, n);
      SamePart(w, mask, code, opcd, x, part, c, n);
    }
    if Major(w) == opcd && part == And(x, Low(n)) {
      SameCode(w, mask, code, x, c, n);
    }
  }

  // ----- the forms of the header -----

  lemma MaskPlaced(b: Word, ones: Word, s: Word, c: Word)
    requires 1 <= s <= 10 && s + 20 <= b <= 30 && c == 30 - b && (ones == 0x3FF || ones == 0x7FF)
    ensures IsMask(Or(OcBits(0x3F), XoBits(b, ones, s)), c, s)
  {
    hide Bit, OcBits, XoBits, Or;
    forall j: Word | j <= 31
      ensures Bit(Or(OcBits(0x3F), XoBits(b, ones, s)), j) <==> 10 <= j < 16 || c <= j < c + s
    {
      OrBit(OcBits(0x3F), XoBits(b, ones, s), j);
      OcBit(0x3F, j);
      XoBit(b, ones, s, c, j);
      if 10 <= j {
        LiteralBit(j - 10);
      }
      if c <= j {
        LiteralBit(j - c);
      }
    }
  }

  lemma CodeBit(b: Word, opcd: Word, xo: Word, s: Word, c: Word, j: Word)
    requires 1 <= s <= 10 && s + 20 <= b <= 30 && c == 30 - b && opcd <= 0x3F && j <= 31
    ensures Bit(Or(OcBits(opcd), XoBits(b, xo, s)), j)
       <==> (10 <= j < 16 && Bit(opcd, j - 10)) || (c <= j < c + s && Bit(xo, j - c))
  {
    hide *;
    OrBit(OcBits(opcd), XoBits(b, xo, s), j);
    OcBit(opcd, j);
    XoBit(b, xo, s, c, j);
    if 16 <= j {
      OpcodeBit(opcd, j - 10);
    }
  }

  lemma CodePlaced(b: Word, opcd: Word, xo: Word, s: Word, c: Word)
    requires 1 <= s <= 10 && s + 20 <= b <= 30 && c == 30 - b && opcd <= 0x3F
    ensures IsCode(Or(OcBits(opcd), XoBits(b, xo, s)), opcd, xo, c, s)
  {
    hide Bit, OcBits, XoBits, Or;
    forall j: Word | j <= 31
      ensures Bit(Or(OcBits(opcd), XoBits(b, xo, s)), j)
         <==> (10 <= j < 16 && Bit(opcd, j - 10)) || (c <= j < c + s && Bit(xo, j - c))
    {
      CodeBit(b, opcd, xo, s, c, j);
    }
  }

  lemma PartPlaced(w: Word, b: Word, s: Word)
    requires 1 <= s <= 10 && s + 20 <= b <= 30
    ensures IsPart(Field(w, b, s), w, 30 - b, s)
  {
    hide Bit, Field;
    forall j: Word | j <= 31
      ensures Bit(Field(w, b, s), j) <==> j < s && Bit(w, j + (30 - b) + 1)
    {
      FieldBit(w, b, s, j);
    }
  }

  lemma PartPlaced31(w: Word, s: Word)
    requires 2 <= s <= 11
    ensures IsPart(Right(Field(w, 31, s), 1), w, 0, s - 1)
  {
    hide Bit, Field, Right;
    forall j: Word | j <= 31
      ensures Bit(Right(Field(w, 31, s), 1), j) <==> j < s - 1 && Bit(w, j + 0 + 1)
    {
      RightBit(Field(w, 31, s), 1, j);
      if j < 31 {
        FieldBit(w, 31, s, j + 1);
      }
    }
  }

  lemma MaskPlaced31(s: Word)
    requires 2 <= s <= 11
    ensures IsMask(Or(OcBits(0x3F), XoBits31(31, 0x7FF, s)), 0, s - 1)
  {
    hide Bit, OcBits, XoBits31, Or;
    forall j: Word | j <= 31
      ensures Bit(Or(OcBits(0x3F), XoBits31(31, 0x7FF, s)), j) <==> 10 <= j < 16 || 0 <= j < 0 + (s - 1)
    {
      OrBit(OcBits(0x3F), XoBits31(31, 0x7FF, s), j);
      OcBit(0x3F, j);
      XoBit31(0x7FF, s, j);
      if 10 <= j {
        LiteralBit(j - 10);
      }
      if j < 31 {
        LiteralBit(j + 1);
      }
    }
  }

  lemma CodeBit31(opcd: Word, xo: Word, s: Word, j: Word)
    requires 2 <= s <= 11 && opcd <= 0x3F && j <= 31
    ensures Bit(Or(OcBits(opcd), XoBits31(31, xo, s)), j)
       <==> (10 <= j < 16 && Bit(opcd, j - 10)) || (0 <= j < 0 + (s - 1) && Bit(Right(xo, 1), j - 0))
  {
    hide *;
    OrBit(OcBits(opcd), XoBits31(31, xo, s), j);
    OcBit(opcd, j);
    XoBit31(xo, s, j);
    RightBit(xo, 1, j);
    if 16 <= j {
      OpcodeBit(opcd, j - 10);
    }
  }

  lemma CodePlaced31(opcd: Word, xo: Word, s: Word)
    requires 2 <= s <= 11 && opcd <= 0x3F
    ensures IsCode(Or(OcBits(opcd), XoBits31(31, xo, s)), opcd, Right(xo, 1), 0, s - 1)
  {
    hide Bit, OcBits, XoBits31, Or, Right;
    forall j: Word | j <= 31
      ensures Bit(Or(OcBits(opcd), XoBits31(31, xo, s)), j)
         <==> (10 <= j < 16 && Bit(opcd, j - 10)) || (0 <= j < 0 + (s - 1) && Bit(Right(xo, 1), j - 0))
    {
      CodeBit31(opcd, xo, s, j);
    }
  }

  /** An extended opcode inside bits 21 to 30. */
  lemma MatchExact(b: Word, s: Word, first: Word, ones: Word, opcd: Word, xo: Word, w: Word)
    requires 1 <= s <= 10 && s + 20 <= b <= 30 && first == b - s + 1 && (ones == 0x3FF || ones == 0x7FF)
    requires opcd <= 0x3F
    ensures And(Key(w), Or(OcBits(0x3F), XoBits(b, ones, s))) == Or(OcBits(opcd), XoBits(b, xo, s))
       <==> Major(w) == opcd && Agrees(w, xo, first, b)
  {
    hide And, Or, Right, Low, Key, OcBits, XoBits, Major, Field, Bit, IsMask, IsCode, IsPart;
    MaskPlaced(b, ones, s, 30 - b);
    CodePlaced(b, opcd, xo, s, 30 - b);
    PartPlaced(w, b, s);
    PlaceExact(w, Or(OcBits(0x3F), XoBits(b, ones, s)), Or(OcBits(opcd), XoBits(b, xo, s)),
               opcd, xo, Field(w, b, s), 30 - b, s);
  }

  /** An extended opcode that reaches bit 31. */
  lemma MatchExact31(s: Word, first: Word, opcd: Word, xo: Word, w: Word)
    requires 2 <= s <= 11 && first == 32 - s && opcd <= 0x3F
    ensures And(Key(w), Or(OcBits(0x3F), XoBits31(31, 0x7FF, s))) == Or(OcBits(opcd), XoBits31(31, xo, s))
       <==> Major(w) == opcd && Agrees(w, xo, first, 31)
  {
    hide And, Or, Right, Low, Key, OcBits, XoBits31, Major, Field, Bit, IsMask, IsCode, IsPart;
    MaskPlaced31(s);
    CodePlaced31(opcd, xo, s);
    PartPlaced31(w, s);
    PlaceExact(w, Or(OcBits(0x3F), XoBits31(31, 0x7FF, s)), Or(OcBits(opcd), XoBits31(31, xo, s)),
               opcd, Right(xo, 1), Right(Field(w, 31, s), 1), 0, s - 1);
  }

  lemma MajorPlaced(opcd: Word, w: Word)
    requires opcd <= 0x3F
    ensures IsMask(OcBits(0x3F), 0, 0) && IsCode(OcBits(opcd), opcd, 0, 0, 0) && IsPart(0, w, 0, 0)
  {
    assert IsPart(0, w, 0, 0);
    hide Bit, OcBits;
    forall j: Word | j <= 31
      ensures Bit(OcBits(0x3F), j) <==> 10 <= j < 16
      ensures Bit(OcBits(opcd), j) <==> 10 <= j < 16 && Bit(opcd, j - 10)
    {
      OcBit(0x3F, j);
      OcBit(opcd, j);
      if 10 <= j {
        LiteralBit(j - 10);
      }
      if 16 <= j {
        OpcodeBit(opcd, j - 10);
      }
    }
  }

  /** Forms without an extended opcode. */
  lemma MajorExact(opcd: Word, w: Word)
    requires opcd <= 0x3F
    ensures And(Key(w), OcBits(0x3F)) == OcBits(opcd) <==> Major(w) == opcd
  {
    assert And(0, Low(0)) == 0;
    hide *;
    MajorPlaced(opcd, w);
    PlaceExact(w, OcBits(0x3F), OcBits(opcd), opcd, 0, 0, 0, 0);
  }

  predicate Passes(f: Form, opcd: Word, xo: Word, w: Word) {
    And(Key(w), FormMask(f)) == FormCode(f, opcd, xo)
  }

  lemma ShortExact(f: Form, opcd: Word, xo: Word, w: Word)
    requires opcd <= 0x3F && (f.A? || f.MD? || f.MDS? || f.Z23?)
    ensures Passes(f, opcd, xo, w) <==> Major(w) == opcd && HasMinor(f, xo, w)
  {
    hide And, Or, Key, OcBits, XoBits, XoBits31, Major, Agrees;
    match f
    case A => MatchExact(30, 5, 26, 0x3FF, opcd, xo, w);
    case MD => MatchExact(29, 3, 27, 0x3FF, opcd, xo, w);
    case MDS => MatchExact(30, 4, 27, 0x3FF, opcd, xo, w);
    case Z23 => MatchExact(30, 8, 23, 0x7FF, opcd, xo, w);
  }

  lemma LongExact(f: Form, opcd: Word, xo: Word, w: Word)
    requires opcd <= 0x3F && (f.XS? || f.XO? || f.DS? || f.EVX?)
    ensures Passes(f, opcd, xo, w) <==> Major(w) == opcd && HasMinor(f, xo, w)
  {
    hide And, Or, Key, OcBits, XoBits, XoBits31, Major, Agrees;
    match f
    case XS => MatchExact(29, 9, 21, 0x3FF, opcd, xo, w);
    case XO => MatchExact(30, 9, 22, 0x3FF, opcd, xo, w);
    case DS => MatchExact31(2, 30, opcd, xo, w);
    case EVX => MatchExact31(11, 21, opcd, xo, w);
  }

  /** Whatever its form, a word passes code and mask exactly when its opcodes are the ones given. */
  lemma FormExact(f: Form, opcd: Word, xo: Word, w: Word)
    requires opcd <= 0x3F
    ensures Passes(f, opcd, xo, w) <==> Major(w) == opcd && HasMinor(f, xo, w)
  {
    hide And, Or, Key, OcBits, XoBits, XoBits31, Major, Agrees;
    match f
    case I | B | SC | D | DQ | M => MajorExact(opcd, w);
    case X | XL | XFL | XFX => MatchExact(30, 10, 21, 0x3FF, opcd, xo, w);
    case A | MD | MDS | Z23 => ShortExact(f, opcd, xo, w);
    case XS | XO | DS | EVX => LongExact(f, opcd, xo, w);
  }

  // ----- the same in numbers -----

  lemma KeyNumbers(w: Word)
    ensures Major(w) == w >> 26
    ensures Key(w) == ((w >> 26) << 10) | ((w >> 1) & 0x3FF)
  {
  }

  lemma OnesNumbers()
    ensures Right(0x3FF, 0) == 0x3FF && Right(0x3FF, 1) == 0x1FF && Right(0x3FF, 2) == 0xFF && Right(0x3FF, 5) == 0x1F
    ensures Right(0x3FF, 6) == 0xF && Right(0x3FF, 7) == 0x7 && Right(0x7FF, 0) == 0x7FF && Right(0x7FF, 9) == 0x3
    ensures Low(10) == 0x3FF && Low(9) == 0x1FF && Low(8) == 0xFF && Low(5) == 0x1F && Low(4) == 0xF && Low(3) == 0x7
    ensures Low(11) == 0x7FF && Low(2) == 0x3 && Low(1) == 0x1
  {
  }

  lemma XoNumbers(x: Word)
    ensures XoBits(30, x, 10) == And(x, 0x3FF) && XoBits(29, x, 9) == Left(And(x, 0x1FF), 1)
    ensures XoBits(30, x, 9) == And(x, 0x1FF) && XoBits(30, x, 5) == And(x, 0x1F)
    ensures XoBits(29, x, 3) == Left(And(x, 0x7), 1) && XoBits(30, x, 4) == And(x, 0xF)
    ensures XoBits(30, x, 8) == And(x, 0xFF)
    ensures XoBits31(31, x, 2) == Right(And(x, 0x3), 1) && XoBits31(31, x, 11) == Right(And(x, 0x7FF), 1)
  {
    hide Right, And, Left;
    OnesNumbers();
    ShiftZero(And(x, 0x3FF));
    ShiftZero(And(x, 0x1FF));
    ShiftZero(And(x, 0x1F));
    ShiftZero(And(x, 0xF));
    ShiftZero(And(x, 0xFF));
    ShiftZero(Right(And(x, 0x3), 1));
    ShiftZero(Right(And(x, 0x7FF), 1));
  }

  lemma FieldNumbers(w: Word)
    ensures Field(w, 30, 10) == And(Right(w, 1), 0x3FF) && Field(w, 29, 9) == And(Right(w, 2), 0x1FF)
    ensures Field(w, 30, 9) == And(Right(w, 1), 0x1FF) && Field(w, 30, 5) == And(Right(w, 1), 0x1F)
    ensures Field(w, 29, 3) == And(Right(w, 2), 0x7) && Field(w, 30, 4) == And(Right(w, 1), 0xF)
    ensures Field(w, 30, 8) == And(Right(w, 1), 0xFF)
    ensures Field(w, 31, 2) == And(w, 0x3) && Field(w, 31, 11) == And(w, 0x7FF)
  {
    hide Right, And, Low;
    OnesNumbers();
    ShiftZero(w);
  }

  lemma MaskNumbers(f: Form)
    ensures FormMask(f) ==
            match f
            case I | B | SC | D | DQ | M => 0xFC00
            case X | XL | XFL | XFX | EVX => 0xFFFF
            case XS => 0xFFFE
            case XO => 0xFDFF
            case A => 0xFC1F
            case MD => 0xFC0E
            case MDS => 0xFC0F
            case Z23 => 0xFCFF
            case DS => 0xFC01
  {
    hide And, Or, Left, Right, XoBits, XoBits31;
    XoNumbers(0x3FF);
    XoNumbers(0x7FF);
    Constants();
  }

  lemma Constants()
    ensures Left(0x3F, 10) == 0xFC00 && Or(0xFC00, And(0x3FF, 0x3FF)) == 0xFFFF
    ensures Or(0xFC00, And(0x3FF, 0x1FF)) == 0xFDFF
    ensures Or(0xFC00, Left(And(0x3FF, 0x1FF), 1)) == 0xFFFE && Or(0xFC00, And(0x3FF, 0x1F)) == 0xFC1F
    ensures Or(0xFC00, Left(And(0x3FF, 0x7), 1)) == 0xFC0E && Or(0xFC00, And(0x3FF, 0xF)) == 0xFC0F
    ensures Or(0xFC00, And(0x7FF, 0xFF)) == 0xFCFF && Or(0xFC00, Right(And(0x7FF, 0x3), 1)) == 0xFC01
    ensures Or(0xFC00, Right(And(0x7FF, 0x7FF), 1)) == 0xFFFF
  {
  }

  lemma CodeNumbers(f: Form, opcd: Word, xo: Word)
    ensures FormCode(f, opcd, xo) ==
            match f
            case I | B | SC | D | DQ | M => Left(opcd, 10)
            case X | XL | XFL | XFX => Or(Left(opcd, 10), And(xo, 0x3FF))
            case XS => Or(Left(opcd, 10), Left(And(xo, 0x1FF), 1))
            case XO => Or(Left(opcd, 10), And(xo, 0x1FF))
            case A => Or(Left(opcd, 10), And(xo, 0x1F))
            case MD => Or(Left(opcd, 10), Left(And(xo, 0x7), 1))
            case MDS => Or(Left(opcd, 10), And(xo, 0xF))
            case Z23 => Or(Left(opcd, 10), And(xo, 0xFF))
            case DS => Or(Left(opcd, 10), Right(And(xo, 0x3), 1))
            case EVX => Or(Left(opcd, 10), Right(And(xo, 0x7FF), 1))
  {
    hide And, Or, Left, Right, XoBits, XoBits31;
    XoNumbers(xo);
  }

  lemma MinorNumbers(f: Form, xo: Word, w: Word)
    ensures HasMinor(f, xo, w) <==>
            match f
            case I | B | SC | D | DQ | M => true
            case X | XL | XFL | XFX => And(Right(w, 1), 0x3FF) == And(xo, 0x3FF)
            case XS => And(Right(w, 2), 0x1FF) == And(xo, 0x1FF)
            case XO => And(Right(w, 1), 0x1FF) == And(xo, 0x1FF)
            case A => And(Right(w, 1), 0x1F) == And(xo, 0x1F)
            case MD => And(Right(w, 2), 0x7) == And(xo, 0x7)
            case MDS => And(Right(w, 1), 0xF) == And(xo, 0xF)
            case Z23 => And(Right(w, 1), 0xFF) == And(xo, 0xFF)
            case DS => Right(And(w, 0x3), 1) == And(Right(xo, 1), 0x1)
            case EVX => Right(And(w, 0x7FF), 1) == And(Right(xo, 1), 0x3FF)
  {
    hide And, Right, Field, Low;
    OnesNumbers();
    FieldNumbers(w);
  }
}
