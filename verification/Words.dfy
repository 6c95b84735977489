/** 32-bit words bit by bit, bits counted from 0 for the least significant. */
module Words {
  type Word = bv32

  // The operators under names of their own.

  function And(x: Word, y: Word): Word {
    x & y
  }

  function Or(x: Word, y: Word): Word {
    x | y
  }

  function Left(x: Word, n: Word): Word
    requires n <= 31
  {
    x << n
  }

  function Right(x: Word, n: Word): Word
    requires n <= 31
  {
    x >> n
  }

  /** 2^s - 1 */
  function Low(s: Word): Word
    requires s <= 31
  {
    (1 << s) - 1
  }

  predicate Odd(x: Word) {
    x & 1 == 1
  }

  predicate Bit(w: Word, j: Word)
    requires j <= 31
  {
    Odd(Right(w, j))
  }

  lemma Halve(x: Word, n: Word)
    requires 1 <= n <= 31
    ensures Right(Right(x, n - 1), 1) == Right(x, n)
  {
  }

  lemma ShiftZero(x: Word)
    ensures Right(x, 0) == x && Left(x, 0) == x
  {
  }

  lemma HalfBoth(x: Word, y: Word)
    ensures Right(And(x, y), 1) == And(Right(x, 1), Right(y, 1))
    ensures Right(Or(x, y), 1) == Or(Right(x, 1), Right(y, 1))
  {
  }

  lemma {:induction false} ShiftBoth(x: Word, y: Word, j: Word)
    requires j <= 31
    ensures Right(And(x, y), j) == And(Right(x, j), Right(y, j))
    ensures Right(Or(x, y), j) == Or(Right(x, j), Right(y, j))
    decreases j
  {
    hide *;
    if j == 0 {
      ShiftZero(x);
      ShiftZero(y);
      ShiftZero(And(x, y));
      ShiftZero(Or(x, y));
    } else {
      ShiftBoth(x, y, j - 1);
      Halve(x, j);
      Halve(y, j);
      Halve(And(x, y), j);
      Halve(Or(x, y), j);
      HalfBoth(Right(x, j - 1), Right(y, j - 1));
    }
  }

  lemma OddBoth(x: Word, y: Word)
    ensures Odd(And(x, y)) <==> Odd(x) && Odd(y)
    ensures Odd(Or(x, y)) <==> Odd(x) || Odd(y)
  {
  }

  lemma AndBit(x: Word, y: Word, j: Word)
    requires j <= 31
    ensures Bit(And(x, y), j) <==> Bit(x, j) && Bit(y, j)
  {
    hide Right, And, Or, Odd;
    ShiftBoth(x, y, j);
    OddBoth(Right(x, j), Right(y, j));
  }

  lemma OrBit(x: Word, y: Word, j: Word)
    requires j <= 31
    ensures Bit(Or(x, y), j) <==> Bit(x, j) || Bit(y, j)
  {
    hide Right, And, Or, Odd;
    ShiftBoth(x, y, j);
    OddBoth(Right(x, j), Right(y, j));
  }

  lemma {:induction false} RightTwice(x: Word, c: Word, j: Word)
    requires j <= 31 && c <= 31 && j + c <= 31
    ensures Right(Right(x, c), j) == Right(x, j + c)
    decreases j
  {
    hide *;
    if j == 0 {
      ShiftZero(Right(x, c));
    } else {
      RightTwice(x, c, j - 1);
      Halve(Right(x, c), j);
      Halve(x, j + c);
    }
  }

  lemma RightOut(x: Word, c: Word, j: Word)
    requires j <= 31 && c <= 31 && j + c > 31
    ensures !Bit(Right(x, c), j)
  {
    assert ((x >> c) >> j) & 1 == 0;
  }

  lemma RightBit(x: Word, c: Word, j: Word)
    requires j <= 31 && c <= 31
    ensures Bit(Right(x, c), j) <==> j + c <= 31 && Bit(x, j + c)
  {
    hide Right, Odd;
    if j + c <= 31 {
      RightTwice(x, c, j);
    } else {
      RightOut(x, c, j);
    }
  }

  lemma Double(x: Word, c: Word)
    requires 1 <= c <= 31
    ensures Left(Left(x, c - 1), 1) == Left(x, c)
  {
  }

  lemma DoubleBit(x: Word, j: Word)
    requires j <= 31
    ensures Bit(Left(x, 1), j) <==> 1 <= j && Bit(x, j - 1)
  {
  }

  lemma {:induction false} LeftBit(x: Word, c: Word, j: Word)
    requires j <= 31 && c <= 31
    ensures Bit(Left(x, c), j) <==> c <= j && Bit(x, j - c)
    decreases c
  {
    hide *;
    if c == 0 {
      ShiftZero(x);
    } else {
      Double(x, c);
      DoubleBit(Left(x, c - 1), j);
      if 1 <= j {
        LeftBit(x, c - 1, j - 1);
      }
    }
  }

  /** The lowest s bits. */
  lemma LowBit(s: Word, j: Word)
    requires j <= 31 && s <= 31
    ensures Bit(Low(s), j) <==> j < s
  {
  }

  lemma OpcodeBit(x: Word, j: Word)
    requires x <= 0x3F && 6 <= j <= 31
    ensures !Bit(x, j)
  {
  }

  lemma Rejoin(x: Word, y: Word)
    requires Right(x, 1) == Right(y, 1) && (Odd(x) <==> Odd(y))
    ensures x == y
  {
  }

  ghost predicate SameBits(x: Word, y: Word) {
    forall j: Word | j <= 31 :: Bit(x, j) <==> Bit(y, j)
  }

  /** Words with the same bits are the same word. */
  lemma {:induction false} SameFrom(x: Word, y: Word, n: Word)
    requires n <= 31 && SameBits(x, y)
    ensures Right(x, n) == Right(y, n)
    decreases 31 - n
  {
    assert Bit(x, 31) <==> Bit(y, 31);
    hide *;
    if n == 31 {
      TopBit(x, y);
    } else {
      SameFrom(x, y, n + 1);
      BitBelow(x, y, n);
    }
  }

  lemma BitBelow(x: Word, y: Word, n: Word)
    requires n < 31 && SameBits(x, y) && Right(x, n + 1) == Right(y, n + 1)
    ensures Right(x, n) == Right(y, n)
  {
    hide Right, Odd;
    assert Bit(x, n) <==> Bit(y, n);
    Halve(x, n + 1);
    Halve(y, n + 1);
    Rejoin(Right(x, n), Right(y, n));
  }

  lemma TopBit(x: Word, y: Word)
    requires Bit(x, 31) <==> Bit(y, 31)
    ensures Right(x, 31) == Right(y, 31)
  {
  }

  lemma Same(x: Word, y: Word)
    requires SameBits(x, y)
    ensures x == y
  {
    hide *;
    SameFrom(x, y, 0);
    ShiftZero(x);
    ShiftZero(y);
  }
}
