/** The Eeyore form, and the translations between it and Pinkie. */
module Eeyore {
  import opened Words
  import opened Wrappers
  import opened Primitive
  import P = Pinkie

  datatype Category = TempVar | ParamVar | NamedVar

  datatype Variable = Variable(cat: Category, id: int)

  datatype Operand = Name(v: Variable) | Number(word: Word)

  datatype Statement =
    | ExprU(dst: Variable, uop: UnaryOp, src: Operand)
    | ExprB(dst: Variable, bop: BinaryOp, src1: Operand, src2: Operand)
    | ExprC(dst: Variable, src: Operand)
    | ExprAW(base: Variable, incr: Operand, src: Operand)
    | ExprAR(dst: Variable, base: Variable, incr: Operand)
    | Label(id: int)
    | JumpU(tgt: int)
    | JumpC(tgt: int, cnd: Variable)
    | Param(val: Operand)
    | CallI(ret: Variable, func: string)
    | CallV(func: string)
    | RetI(val: Operand)
    | RetV

  datatype Declaration = DeclarationS(name: Variable) | DeclarationA(name: Variable, len: int)

  datatype Function = Function(name: string, arity: nat, dec: seq<Declaration>, code: seq<Statement>)

  datatype Program = Program(labelCount: int, global: seq<Declaration>, func: seq<Function>)

  // ----- from Eeyore -----

  function FromVariable(v: Variable): P.Operand {
    match v.cat
    case TempVar => P.Temp(v.id)
    case ParamVar => P.Param(v.id)
    case NamedVar => P.Var(v.id)
  }

  function FromOperand(o: Operand): P.Operand {
    match o
    case Name(v) => FromVariable(v)
    case Number(w) => P.Lit(w)
  }

  function FromStatement(s: Statement): P.Unit {
    match s
    case ExprU(dst, op, src) => P.Unary(op, FromVariable(dst), FromOperand(src))
    case ExprB(dst, op, src1, src2) => P.Binary(op, FromVariable(dst), FromOperand(src1), FromOperand(src2))
    case ExprC(dst, src) => P.Copy(FromVariable(dst), FromOperand(src))
    case ExprAW(base, incr, src) => P.ArrayWrite(FromVariable(base), FromOperand(src), FromOperand(incr))
    case ExprAR(dst, base, incr) => P.ArrayRead(FromVariable(dst), FromVariable(base), FromOperand(incr))
    case Label(id) => P.Label(id)
    case JumpU(tgt) => P.Jump(tgt)
    case JumpC(tgt, cnd) => P.JumpIf(EQ, tgt, FromVariable(cnd), P.Lit(0))
    case Param(val) => P.Arg(FromOperand(val))
    case CallI(ret, func) => P.CallI(func, FromVariable(ret))
    case CallV(func) => P.CallV(func)
    case RetI(val) => P.RetI(FromOperand(val))
    case RetV => P.RetV
  }

  function FromDeclaration(d: Declaration): P.Symb {
    match d
    case DeclarationS(name) => P.Symb(FromVariable(name), 0)
    case DeclarationA(name, len) => P.Symb(FromVariable(name), len)
  }

  function FromFunction(f: Function): P.Func {
    P.Func(f.name, f.arity,
           seq(|f.dec|, i requires 0 <= i < |f.dec| => FromDeclaration(f.dec[i])),
           seq(|f.code|, i requires 0 <= i < |f.code| => FromStatement(f.code[i])))
  }

  function FromProgram(p: Program): P.Prog {
    P.Prog(p.labelCount,
           seq(|p.global|, i requires 0 <= i < |p.global| => FromDeclaration(p.global[i])),
           seq(|p.func|, i requires 0 <= i < |p.func| => FromFunction(p.func[i])))
  }

  // ----- to Eeyore -----

  /** A variable; none for a literal, which has no variable category. */
  function ToVariable(o: P.Operand): Option<Variable> {
    match o
    case Lit(_) => None
    case Temp(id) => Some(Variable(TempVar, id))
    case Param(id) => Some(Variable(ParamVar, id))
    case Var(id) => Some(Variable(NamedVar, id))
  }

  function ToOperand(o: P.Operand): Operand {
    if o.Lit? then Number(o.word) else Name(ToVariable(o).value)
  }

  /** The statement of a unit; a conditional jump keeps its target and its first operand. */
  function ToStatement(u: P.Unit): Option<Statement> {
    match u
    case Unary(op, dst, src) => Build(ToVariable(dst), d => ExprU(d, op, ToOperand(src)))
    case Binary(op, dst, src1, src2) => Build(ToVariable(dst), d => ExprB(d, op, ToOperand(src1), ToOperand(src2)))
    case Copy(dst, src) => Build(ToVariable(dst), d => ExprC(d, ToOperand(src)))
    case ArrayWrite(base, src, incr) => Build(ToVariable(base), b => ExprAW(b, ToOperand(incr), ToOperand(src)))
    case ArrayRead(dst, base, incr) =>
      if ToVariable(base).None? then None
      else Build(ToVariable(dst), d => ExprAR(d, ToVariable(base).value, ToOperand(incr)))
    case Label(id) => Some(Label(id))
    case Jump(id) => Some(JumpU(id))
    case JumpIf(_, id, src1, _) => Build(ToVariable(src1), c => JumpC(id, c))
    case Arg(val) => Some(Param(ToOperand(val)))
    case CallI(name, dst) => Build(ToVariable(dst), d => CallI(d, name))
    case CallV(name) => Some(CallV(name))
    case RetI(val) => Some(RetI(ToOperand(val)))
    case RetV => Some(RetV)
    case Nop => None
  }

  function Build(v: Option<Variable>, make: Variable -> Statement): Option<Statement> {
    match v
    case None => None
    case Some(x) => Some(make(x))
  }

  function ToDeclaration(s: P.Symb): Option<Declaration> {
    match ToVariable(s.name)
    case None => None
    case Some(v) => Some(if s.len == 0 then DeclarationS(v) else DeclarationA(v, s.len))
  }

  /** `f` of every element, if it has a value for every one. */
  function MapAll<A, B>(f: A -> Option<B>, s: seq<A>): (r: Option<seq<B>>)
    ensures r.Some? <==> forall i :: 0 <= i < |s| ==> f(s[i]).Some?
    ensures r.Some? ==> |r.value| == |s| && forall i :: 0 <= i < |s| ==> f(s[i]) == Some(r.value[i])
  {
    if s == [] then Some([])
    else
      match (MapAll(f, s[..|s| - 1]), f(s[|s| - 1]))
      case (Some(done), Some(x)) => Some(done + [x])
      case _ => None
  }

  function ToFunction(f: P.Func): Option<Function> {
    match (MapAll(ToDeclaration, f.decl), MapAll(ToStatement, f.code))
    case (Some(dec), Some(code)) => Some(Function(f.name, f.arity, dec, code))
    case _ => None
  }

  function ToProgram(p: P.Prog): Option<Program> {
    match (MapAll(ToDeclaration, p.globals), MapAll(ToFunction, p.funcs))
    case (Some(global), Some(func)) => Some(Program(p.labelCount, global, func))
    case _ => None
  }

  // ----- there and back -----

  /** No literal stands where Eeyore has a variable, and conditional jumps compare with zero. */
  predicate Expressible(u: P.Unit) {
    match u
    case Unary(_, dst, _) => !dst.Lit?
    case Binary(_, dst, _, _) => !dst.Lit?
    case Copy(dst, _) => !dst.Lit?
    case ArrayWrite(base, _, _) => !base.Lit?
    case ArrayRead(dst, base, _) => !dst.Lit? && !base.Lit?
    case JumpIf(op, _, src1, src2) => op == EQ && src2 == P.Lit(0) && !src1.Lit?
    case CallI(_, dst) => !dst.Lit?
    case Nop => false
    case _ => true
  }

  lemma VariableBack(v: Variable)
    ensures ToVariable(FromVariable(v)) == Some(v) && ToOperand(FromVariable(v)) == Name(v)
  {
  }

  lemma OperandBack(o: Operand)
    ensures ToOperand(FromOperand(o)) == o
  {
  }

  /** Every statement is translated to a unit that is translated back to it. */
  lemma StatementBack(s: Statement)
    ensures ToStatement(FromStatement(s)) == Some(s)
  {
    hide FromVariable, ToVariable, ToOperand, FromOperand;
    forall v ensures ToVariable(FromVariable(v)) == Some(v) {
      VariableBack(v);
    }
    forall o ensures ToOperand(FromOperand(o)) == o {
      OperandBack(o);
    }
  }

  /** Exactly the expressible units are translated to a statement that means the same unit. */
  lemma UnitBackIff(u: P.Unit)
    ensures Expressible(u) <==> ToStatement(u).Some? && FromStatement(ToStatement(u).value) == u
  {
  }

  predicate DeclarationFits(s: P.Symb) {
    !s.name.Lit?
  }

  lemma DeclarationBackIff(s: P.Symb)
    ensures DeclarationFits(s) <==> ToDeclaration(s).Some?
    ensures ToDeclaration(s).Some? ==> FromDeclaration(ToDeclaration(s).value) == s
  {
  }

  predicate FunctionFits(f: P.Func) {
    (forall d :: d in f.decl ==> DeclarationFits(d)) && (forall u :: u in f.code ==> Expressible(u))
  }

  lemma DeclarationsBack(decl: seq<P.Symb>)
    requires forall d :: d in decl ==> DeclarationFits(d)
    ensures var r := MapAll(ToDeclaration, decl);
            r.Some? && seq(|r.value|, i requires 0 <= i < |r.value| => FromDeclaration(r.value[i])) == decl
  {
    hide ToDeclaration, FromDeclaration, DeclarationFits;
    forall i | 0 <= i < |decl| ensures ToDeclaration(decl[i]).Some? && FromDeclaration(ToDeclaration(decl[i]).value) == decl[i] {
      DeclarationBackIff(decl[i]);
    }
  }

  lemma StatementsBack(code: seq<P.Unit>)
    requires forall u :: u in code ==> Expressible(u)
    ensures var r := MapAll(ToStatement, code);
            r.Some? && seq(|r.value|, i requires 0 <= i < |r.value| => FromStatement(r.value[i])) == code
  {
    hide ToStatement, FromStatement, Expressible;
    forall i | 0 <= i < |code| ensures ToStatement(code[i]).Some? && FromStatement(ToStatement(code[i]).value) == code[i] {
      UnitBackIff(code[i]);
    }
  }

  lemma FunctionBack(f: P.Func)
    requires FunctionFits(f)
    ensures ToFunction(f).Some? && FromFunction(ToFunction(f).value) == f
  {
    hide ToDeclaration, FromDeclaration, DeclarationFits, ToStatement, FromStatement, Expressible, MapAll;
    DeclarationsBack(f.decl);
    StatementsBack(f.code);
  }

  /** A program that fits is translated to Eeyore and back without loss. */
  lemma ProgramBack(p: P.Prog)
    requires (forall d :: d in p.globals ==> DeclarationFits(d)) && (forall f :: f in p.funcs ==> FunctionFits(f))
    ensures ToProgram(p).Some? && FromProgram(ToProgram(p).value) == p
  {
    hide ToDeclaration, FromDeclaration, DeclarationFits, FunctionFits, ToFunction, FromFunction;
    DeclarationsBack(p.globals);
    var r := MapAll(ToFunction, p.funcs);
    forall i | 0 <= i < |p.funcs| ensures ToFunction(p.funcs[i]).Some? && FromFunction(ToFunction(p.funcs[i]).value) == p.funcs[i] {
      FunctionBack(p.funcs[i]);
    }
    assert seq(|r.value|, i requires 0 <= i < |r.value| => FromFunction(r.value[i])) == p.funcs;
  }
}
