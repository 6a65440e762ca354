/** Instruction selection: Dashie units become RV32 instructions, then every immediate is made to fit. */
module RiscvOutput {
  import opened Words
  import opened Wrappers
  import opened Primitive
  import opened Layout
  import opened Glimmy
  import D = Dashie
  import Frames

  // ----- registers and operators -----

  function RegOf(r: D.Reg): Reg {
    match r
    case Zero => X0
    case Arg(i) => A(i)
    case Temp(i) => T(i)
    case Save(i) => S(i)
  }

  /** The registers there are. */
  predicate RegOk(r: D.Reg) {
    match r
    case Zero => true
    case Arg(i) => 0 <= i <= 7
    case Temp(i) => 0 <= i <= 6
    case Save(i) => 0 <= i <= 11
  }

  function UnaryCode(op: UnaryOp): RR {
    match op
    case UPlus => Mv
    case UMinus => Neg
    case UNot => Seqz
  }

  datatype OpCode = OpCode(first: RRR, second: Option<RR>)

  /** One instruction, or one and a test of its result; the logical operators have none. */
  function BinaryCode(op: BinaryOp): Option<OpCode> {
    match op
    case Plus => Some(OpCode(Add, None))
    case Minus => Some(OpCode(Sub, None))
    case Mult => Some(OpCode(Mul, None))
    case Div => Some(OpCode(DivOp, None))
    case Mod => Some(OpCode(Rem, None))
    case LT => Some(OpCode(Slt, None))
    case GT => Some(OpCode(Sgt, None))
    case LE => Some(OpCode(Sgt, Some(Seqz)))
    case GE => Some(OpCode(Slt, Some(Seqz)))
    case NE => Some(OpCode(Xor, Some(Snez)))
    case EQ => Some(OpCode(Xor, Some(Seqz)))
    case And => None
    case Or => None
  }

  function BranchCode(op: BinaryOp): Option<Branch> {
    match op
    case LT => Some(Blt)
    case GT => Some(Bgt)
    case LE => Some(Ble)
    case GE => Some(Bge)
    case NE => Some(Bne)
    case EQ => Some(Beq)
    case _ => None
  }

  /** The two instructions of an operator compute it. */
  lemma BinaryCodeMeans(op: BinaryOp, x: Word, y: Word)
    ensures BinaryCode(op).None? <==> op == And || op == Or
    ensures BinaryCode(op).Some? ==>
              var first := EvalRRR(BinaryCode(op).value.first, x, y);
              EvalBinary(op, x, y)
              == if BinaryCode(op).value.second.Some? then EvalRR(BinaryCode(op).value.second.value, first) else first
  {
    hide Wrap, XorWord, TruncDiv, TruncMod;
    XorZero(x, y);
  }

  lemma BranchCodeMeans(op: BinaryOp, x: Word, y: Word)
    ensures BranchCode(op).Some? <==> op in {LT, GT, LE, GE, NE, EQ}
    ensures BranchCode(op).Some? ==> (EvalBranch(BranchCode(op).value, x, y) <==> EvalBinary(op, x, y) != 0)
  {
  }

  lemma UnaryCodeMeans(op: UnaryOp, x: Word)
    ensures EvalRR(UnaryCode(op), x) == EvalUnary(op, x)
  {
  }

  // ----- conversion -----

  /** The units that have instructions. */
  predicate Encodable(x: D.Unit) {
    match x
    case Rbr(op, dst, src1, src2) => BinaryCode(op).Some? && RegOk(dst) && RegOk(src1) && RegOk(src2)
    case Rbi(op, dst, src1, _) => BinaryCode(op).Some? && RegOk(dst) && RegOk(src1)
    case Ur(_, dst, src) => RegOk(dst) && RegOk(src)
    case Cr(dst, src) => RegOk(dst) && RegOk(src)
    case Ci(dst, _) => RegOk(dst)
    case Ar(dst, src, _) => RegOk(dst) && RegOk(src)
    case Aw(base, _, src) => RegOk(base) && RegOk(src)
    case Jc(op, _, src1, src2) => BranchCode(op).Some? && RegOk(src1) && RegOk(src2)
    case Wstk(src, _) => RegOk(src)
    case Rstk(dst, _) => RegOk(dst)
    case Rglo(dst, _) => RegOk(dst)
    case PtrStk(dst, _) => RegOk(dst)
    case PtrGlo(dst, _) => RegOk(dst)
    case _ => true
  }

  /** An operator's instructions, the second of which tests the result of the first. */
  function Operate(code: OpCode, dst: Reg, src1: Reg, src2: Reg, imm: int): seq<Unit> {
    [Rrr(code.first, dst, src1, src2, imm)] + if code.second.Some? then [Rr(code.second.value, dst, dst)] else []
  }

  function Convert(x: D.Unit, stk: int): seq<Unit>
    requires Encodable(x)
  {
    match x
    case Rbr(op, dst, src1, src2) => Operate(BinaryCode(op).value, RegOf(dst), RegOf(src1), RegOf(src2), 0)
    case Rbi(op, dst, src1, imm) => Operate(BinaryCode(op).value, RegOf(dst), RegOf(src1), Imm, imm)
    case Ur(op, dst, src) => [Rr(UnaryCode(op), RegOf(dst), RegOf(src))]
    case Cr(dst, src) => [Rr(Mv, RegOf(dst), RegOf(src))]
    case Ci(dst, imm) => [Li(RegOf(dst), imm)]
    case Ar(dst, src, incr) => [Rri(Lw, RegOf(dst), RegOf(src), incr)]
    case Aw(base, incr, src) => [Rri(Sw, RegOf(base), RegOf(src), incr)]
    case Jc(op, l, src1, src2) => [Br(BranchCode(op).value, RegOf(src1), RegOf(src2), l)]
    case Jmp(l) => [J(l)]
    case Label(l) => [Label(l)]
    case Call(name) => [Call(name)]
    case Ret => [Rri(Lw, Ra, Sp, stk - 4), Rri(Addi, Sp, Sp, stk), Ret]
    case Wstk(src, off) => [Rri(Sw, Sp, RegOf(src), off)]
    case Rstk(dst, off) => [Rri(Lw, RegOf(dst), Sp, off)]
    case Rglo(dst, g) => [La(RegOf(dst), g), Rri(Lw, RegOf(dst), RegOf(dst), 0)]
    case PtrStk(dst, off) => [Rri(Addi, RegOf(dst), Sp, off)]
    case PtrGlo(dst, g) => [La(RegOf(dst), g)]
  }

  // ----- immediates -----

  /** Immediate forms whose immediate does not fit go through the scratch register. */
  function ImmElim(x: Unit): seq<Unit> {
    if x.Rri? && !IsInt12(x.imm) then
      match x.rri
      case Addi => [Li(T(0), x.imm), Rrr(Add, x.reg1, x.reg2, T(0), 0)]
      case Slti => [Li(T(0), x.imm), Rrr(Slt, x.reg1, x.reg2, T(0), 0)]
      case Lw => [Li(T(0), x.imm), Rrr(Add, T(0), x.reg2, T(0), 0), Rri(Lw, x.reg1, T(0), 0)]
      case Sw => [Li(T(0), x.imm), Rrr(Add, T(0), x.reg1, T(0), 0), Rri(Sw, T(0), x.reg2, 0)]
    else [x]
  }

  /** An immediate operand that fits makes an immediate form, where there is one. */
  function ImmOpt(x: Unit): Unit {
    if x.Rrr? && (x.rrr == Add || x.rrr == Slt) && x.reg3 == Imm && IsInt12(x.imm) then
      Rri(if x.rrr == Add then Addi else Slti, x.reg1, x.reg2, x.imm)
    else x
  }

  /** The immediate operands left go through the scratch register. */
  function ImmShrink(x: Unit): seq<Unit> {
    if x.Rrr? && x.reg3 == Imm then [Li(T(0), x.imm), x.(reg3 := T(0))] else [x]
  }

  /** `>>`: each instruction replaced by what `f` makes of it. */
  function Thread(f: Unit -> seq<Unit>, code: seq<Unit>): seq<Unit> {
    if code == [] then [] else Thread(f, code[..|code| - 1]) + f(code[|code| - 1])
  }

  function Legalise(code: seq<Unit>): seq<Unit> {
    Thread(ImmShrink, Thread(x => [ImmOpt(x)], Thread(ImmElim, code)))
  }

  datatype Function = Function(name: string, stk: int, code: seq<Unit>)

  /** Reserves the frame and saves the return address. */
  function Prologue(stk: int): seq<Unit> {
    [Rri(Addi, Sp, Sp, -stk), Rri(Sw, Sp, Ra, stk - 4)]
  }

  predicate CodeEncodable(code: seq<D.Unit>) {
    forall x :: x in code ==> Encodable(x)
  }

  function ConvertAll(code: seq<D.Unit>, stk: int): (r: seq<seq<Unit>>)
    requires CodeEncodable(code)
    ensures |r| == |code| && forall i :: 0 <= i < |r| ==> r[i] == Convert(code[i], stk)
  {
    seq(|code|, i requires 0 <= i < |code| => Convert(code[i], stk))
  }

  /** The code before immediates are made to fit. */
  function Selected(code: seq<D.Unit>, stk: int): seq<Unit>
    requires CodeEncodable(code)
  {
    Prologue(stk) + Flatten(ConvertAll(code, stk))
  }

  function ConvertFunc(f: D.Function): Function
    requires CodeEncodable(f.code)
  {
    var stk := Frames.StackSize(f.frame);
    Function(f.name, stk, Legalise(Selected(f.code, stk)))
  }

  // ----- one instruction at a time -----

  lemma {:induction false} ThreadAppend(f: Unit -> seq<Unit>, a: seq<Unit>, b: seq<Unit>)
    ensures Thread(f, a + b) == Thread(f, a) + Thread(f, b)
    decreases |b|
  {
    if b == [] {
      assert a + b == a;
    } else {
      var n := |b| - 1;
      assert (a + b)[..|a + b| - 1] == a + b[..n];
      ThreadAppend(f, a, b[..n]);
    }
  }

  /** What becomes of one instruction. */
  function Lower(x: Unit): seq<Unit> {
    Legalise([x])
  }

  function LowerAll(code: seq<Unit>): (r: seq<seq<Unit>>)
    ensures |r| == |code| && forall i :: 0 <= i < |r| ==> r[i] == Lower(code[i])
  {
    seq(|code|, i requires 0 <= i < |code| => Lower(code[i]))
  }

  lemma LegaliseAppend(a: seq<Unit>, b: seq<Unit>)
    ensures Legalise(a + b) == Legalise(a) + Legalise(b)
  {
    ThreadAppend(ImmElim, a, b);
    ThreadAppend(x => [ImmOpt(x)], Thread(ImmElim, a), Thread(ImmElim, b));
    ThreadAppend(ImmShrink, Thread(x => [ImmOpt(x)], Thread(ImmElim, a)), Thread(x => [ImmOpt(x)], Thread(ImmElim, b)));
  }

  /** The three passes over the whole code do to each instruction what they do to it alone. */
  lemma {:induction false} LegaliseEach(code: seq<Unit>)
    ensures Legalise(code) == Flatten(LowerAll(code))
  {
    hide Legalise;
    if code == [] {
      assert Legalise([]) == [] by {
        LegaliseNone();
      }
    } else {
      var n := |code| - 1;
      LegaliseEach(code[..n]);
      LegaliseAppend(code[..n], [code[n]]);
      assert code == code[..n] + [code[n]];
      assert LowerAll(code)[..n] == LowerAll(code[..n]);
    }
  }

  lemma LegaliseNone()
    ensures Legalise([]) == []
  {
  }

  lemma ThreadOne(f: Unit -> seq<Unit>, x: Unit)
    ensures Thread(f, [x]) == f(x)
  {
    assert Thread(f, []) == [];
  }

  lemma ThreadTwo(f: Unit -> seq<Unit>, x: Unit, y: Unit)
    ensures Thread(f, [x, y]) == f(x) + f(y)
  {
    assert [x, y] == [x] + [y];
    ThreadAppend(f, [x], [y]);
    ThreadOne(f, x);
    ThreadOne(f, y);
  }

  lemma ThreadThree(f: Unit -> seq<Unit>, x: Unit, y: Unit, z: Unit)
    ensures Thread(f, [x, y, z]) == f(x) + f(y) + f(z)
  {
    assert [x, y, z] == [x, y] + [z];
    ThreadAppend(f, [x, y], [z]);
    ThreadTwo(f, x, y);
    ThreadOne(f, z);
  }

  /** The instructions that one instruction ends up as. */
  lemma LowerIs(x: Unit)
    ensures Lower(x) ==
              if x.Rri? && !IsInt12(x.imm) then ImmElim(x)
              else if x.Rrr? && x.reg3 == Imm then
                if (x.rrr == Add || x.rrr == Slt) && IsInt12(x.imm) then [ImmOpt(x)]
                else [Li(T(0), x.imm), x.(reg3 := T(0))]
              else [x]
  {
    var opt := (y: Unit) => [ImmOpt(y)];
    ThreadOne(ImmElim, x);
    var l := ImmElim(x);
    hide Thread;
    if |l| == 1 {
      ThreadOne(opt, x);
      ThreadOne(ImmShrink, ImmOpt(x));
    } else if |l| == 2 {
      ThreadTwo(opt, l[0], l[1]);
      assert l == [l[0], l[1]] && opt(l[0]) + opt(l[1]) == l;
      ThreadTwo(ImmShrink, l[0], l[1]);
    } else {
      ThreadThree(opt, l[0], l[1], l[2]);
      assert l == [l[0], l[1], l[2]] && opt(l[0]) + opt(l[1]) + opt(l[2]) == l;
      ThreadThree(ImmShrink, l[0], l[1], l[2]);
    }
  }

  // ----- the result is legal -----

  /** An instruction that exists: its immediate fits and its operands are real registers. */
  predicate Legal(x: Unit) {
    match x
    case Rrr(_, r1, r2, r3, _) => r1 != Imm && r2 != Imm && r3 != Imm
    case Rri(_, r1, r2, imm) => r1 != Imm && r2 != Imm && IsInt12(imm)
    case Li(r1, _) => r1 != Imm
    case Rr(_, r1, r2) => r1 != Imm && r2 != Imm
    case Br(_, r1, r2, _) => r1 != Imm && r2 != Imm
    case La(r1, _) => r1 != Imm
    case _ => true
  }

  /** An immediate may only stand as the last operand. */
  predicate Plain(x: Unit) {
    match x
    case Rrr(_, r1, r2, _, _) => r1 != Imm && r2 != Imm
    case Rri(_, r1, r2, _) => r1 != Imm && r2 != Imm
    case _ => Legal(x)
  }

  lemma LowerLegal(x: Unit)
    requires Plain(x)
    ensures forall y :: y in Lower(x) ==> Legal(y)
  {
    LowerIs(x);
    hide Lower;
  }

  lemma ConvertPlain(x: D.Unit, stk: int)
    requires Encodable(x)
    ensures forall y :: y in Convert(x, stk) ==> Plain(y)
  {
  }

  /** Every instruction of a converted function is one the machine has: all immediates of immediate
      forms have 12 bits and the pseudo-register is gone, whatever offsets and literals the code uses. */
  lemma ConvertFuncLegal(f: D.Function)
    requires CodeEncodable(f.code)
    ensures forall y :: y in ConvertFunc(f).code ==> Legal(y)
  {
    hide Convert, Lower, Legalise, Encodable;
    var stk := Frames.StackSize(f.frame);
    var code := Selected(f.code, stk);
    var flat := Legalise(code);
    LegaliseEach(code);
    forall y | y in flat ensures Legal(y) {
      var q :| 0 <= q < |flat| && flat[q] == y;
      var i, j := Locate(LowerAll(code), q);
      if i >= 2 {
        var k, l := Locate(ConvertAll(f.code, stk), i - 2);
        assert f.code[k] in f.code;
        ConvertPlain(f.code[k], stk);
      }
      LowerLegal(code[i]);
    }
  }
}
