/** Operators shared by all the languages, and what the compiler's own arithmetic makes of them. */
module Primitive {
  import opened Words
  import opened Wrappers

  datatype UnaryOp = UPlus | UMinus | UNot

  datatype BinaryOp = Plus | Minus | Mult | Div | Mod | LT | GT | LE | GE | NE | EQ | And | Or

  function Bit(b: bool): (w: Word)
    ensures w == 0 || w == 1
    ensures w != 0 <==> b
  {
    if b then 1 else 0
  }

  /** What a unary operator computes at run time. */
  function EvalUnary(op: UnaryOp, x: Word): Word {
    match op
    case UPlus => x
    case UMinus => Wrap(0 - x)
    case UNot => Bit(x == 0)
  }

  /** What a binary operator computes at run time. Division is total, as the RISC-V M extension defines it. */
  function EvalBinary(op: BinaryOp, x: Word, y: Word): Word {
    match op
    case Plus => Wrap(x + y)
    case Minus => Wrap(x - y)
    case Mult => Wrap(x * y)
    case Div => if y == 0 then -1 else Wrap(TruncDiv(x, y))
    case Mod => if y == 0 then x else Wrap(TruncMod(x, y))
    case LT => Bit(x < y)
    case GT => Bit(x > y)
    case LE => Bit(x <= y)
    case GE => Bit(x >= y)
    case NE => Bit(x != y)
    case EQ => Bit(x == y)
    case And => Bit(x != 0 && y != 0)
    case Or => Bit(x != 0 || y != 0)
  }

  /** `toOP` on two operands: the compiler's host divides with the C++ operators, which have no
      meaning for a zero divisor or an overflowing quotient. */
  function ToOp(op: BinaryOp, x: Word, y: Word): Option<Word> {
    if op in {Div, Mod} && (y == 0 || (x == MIN_WORD && y == -1)) then None
    else if op == Div then (TruncDivRange(x, y); Some(TruncDiv(x, y)))
    else if op == Mod then (DivisionLaw(x, y); Some(TruncMod(x, y)))
    else Some(EvalBinary(op, x, y))
  }

  /** Folding agrees with running, and the host gives up exactly on the undefined divisions. */
  lemma ToOpAgrees(op: BinaryOp, x: Word, y: Word)
    ensures ToOp(op, x, y).None? <==> op in {Div, Mod} && (y == 0 || (x == MIN_WORD && y == -1))
    ensures ToOp(op, x, y).Some? ==> ToOp(op, x, y).value == EvalBinary(op, x, y)
  {
    if y != 0 {
      TruncDivRange(x, y);
      DivisionLaw(x, y);
    }
  }

  /** Subtracting a word is adding its wrapped negation, for every word including the least. */
  lemma MinusIsPlusNegated(x: Word, c: Word)
    ensures EvalBinary(Minus, x, c) == EvalBinary(Plus, x, Wrap(0 - c))
  {
    WrapAdd(0 - c, x);
  }
}
