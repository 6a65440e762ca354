/** 32-bit two's complement words, the only scalar type of SysY and of every intermediate language. */
module Words {
  type Word = x: int | -0x8000_0000 <= x < 0x8000_0000

  const MIN_WORD: Word := -0x8000_0000

  /** The word congruent to `x` modulo 2^32. */
  function Wrap(x: int): (w: Word)
    ensures -0x8000_0000 <= x < 0x8000_0000 ==> w == x
  {
    (x + 0x8000_0000) % 0x1_0000_0000 - 0x8000_0000
  }

  /** `Wrap(x)` is the only word at a distance from `x` that is a multiple of 2^32. */
  lemma WrapUnique(x: int, w: Word, k: int)
    requires x == w + k * 0x1_0000_0000
    ensures Wrap(x) == w
  {
  }

  lemma WrapWitness(x: int) returns (k: int)
    ensures x == Wrap(x) + k * 0x1_0000_0000
  {
    k := (x + 0x8000_0000) / 0x1_0000_0000;
  }

  lemma WrapAdd(x: int, y: int)
    ensures Wrap(Wrap(x) + y) == Wrap(x + y)
    ensures Wrap(y + Wrap(x)) == Wrap(x + y)
  {
    var k := WrapWitness(x);
    var j := WrapWitness(x + y);
    WrapUnique(Wrap(x) + y, Wrap(x + y), j - k);
  }

  lemma WrapMul(x: int, y: int)
    ensures Wrap(Wrap(x) * y) == Wrap(x * y)
    ensures Wrap(y * Wrap(x)) == Wrap(x * y)
  {
    var k := WrapWitness(x);
    var j := WrapWitness(x * y);
    assert x * y == Wrap(x) * y + (k * y) * 0x1_0000_0000;
    WrapUnique(Wrap(x) * y, Wrap(x * y), j - k * y);
  }

  function Abs(x: int): nat {
    if x < 0 then -x else x
  }

  /** Division that truncates toward zero, as C++ and RISC-V divide. */
  function TruncDiv(x: int, y: int): int
    requires y != 0
  {
    if (x < 0) == (y < 0) then Abs(x) / Abs(y) else -(Abs(x) / Abs(y))
  }

  /** The remainder of `TruncDiv`; it takes the sign of the dividend. */
  function TruncMod(x: int, y: int): int
    requires y != 0
  {
    if x < 0 then -(Abs(x) % Abs(y)) else Abs(x) % Abs(y)
  }

  lemma {:induction false} DivisionLaw(x: int, y: int)
    requires y != 0
    ensures x == TruncDiv(x, y) * y + TruncMod(x, y)
    ensures Abs(TruncMod(x, y)) < Abs(y)
    ensures TruncMod(x, y) == 0 || (TruncMod(x, y) < 0 <==> x < 0)
  {
    var q, r := Abs(x) / Abs(y), Abs(x) % Abs(y);
    assert Abs(x) == q * Abs(y) + r;
    if y < 0 {
      assert q * Abs(y) == -(q * y) == (-q) * y;
    } else {
      assert (-q) * y == -(q * y);
    }
  }

  lemma QuotientTimes(a: nat, b: nat)
    requires b > 0
    ensures a == (a / b) * b + a % b
  {
  }

  lemma DoubledBelowProduct(q: nat, b: nat)
    requires b > 1
    ensures 2 * q <= q * b
  {
    assert q * b == 2 * q + q * (b - 2);
  }

  lemma QuotientBelow(a: nat, b: nat)
    requires b > 0
    ensures b == 1 ==> a / b == a
    ensures b > 1 ==> 2 * (a / b) <= a
  {
    QuotientTimes(a, b);
    if b > 1 {
      DoubledBelowProduct(a / b, b);
    }
  }

  /** A quotient of words is a word except for the one overflow, the least word over -1. */
  lemma TruncDivRange(x: Word, y: Word)
    requires y != 0
    ensures -0x8000_0000 <= TruncDiv(x, y) <= 0x8000_0000
    ensures TruncDiv(x, y) == 0x8000_0000 <==> x == MIN_WORD && y == -1
  {
    QuotientBelow(Abs(x), Abs(y));
  }
}
