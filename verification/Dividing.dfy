/** Source programs without divisions always compile. */
module Dividing {
  import opened Words
  import opened Wrappers
  import opened Primitive
  import opened Pinkie
  import opened Ast
  import opened GenEeyore
  import opened FoldExact
  import O = Optimize
  import GP = GenProgram

  /** A division or remainder anywhere. */
  predicate ExprDivides(e: Expr) {
    match e
    case UnaryExpr(_, ch) => ExprDivides(ch)
    case BinaryExpr(op, ch0, ch1) => op == Div || op == Mod || ExprDivides(ch0) || ExprDivides(ch1)
    case OffsetExpr(arr, off) => ExprDivides(arr) || ExprDivides(off)
    case CallExpr(_, _, args) => exists a :: a in args && ExprDivides(a)
    case _ => false
  }

  predicate StmtDivides(s: Stmt) {
    match s
    case Block(items) => exists i :: i in items && StmtDivides(i)
    case Declare(_, _, init) => exists a :: a in init && ExprDivides(a.exp)
    case AssignStmt(lhs, rhs) => ExprDivides(lhs) || ExprDivides(rhs)
    case ExprStmt(e) => ExprDivides(e)
    case Return(v) => v.Some? && ExprDivides(v.value)
    case If(cond, t, f) => ExprDivides(cond) || StmtDivides(t) || (f.Some? && StmtDivides(f.value))
    case While(cond, body) => ExprDivides(cond) || StmtDivides(body)
    case _ => false
  }

  lemma Joined(a: seq<Unit>, b: seq<Unit>)
    requires DivisionFree(a) && DivisionFree(b)
    ensures DivisionFree(a + b)
  {
    hide Divides;
  }

  lemma Then(a: seq<Unit>, b: seq<Unit>, d: seq<Unit>)
    requires DivisionFree(a) && DivisionFree(b) && DivisionFree(d)
    ensures DivisionFree(a + b + d)
  {
    hide Divides, DivisionFree;
    Joined(a, b);
    Joined(a + b, d);
  }

  lemma {:induction false} ExprFree(e: Expr, t: int, l: int)
    requires !ExprDivides(e)
    ensures DivisionFree(GenExpr(e, t, l).code)
    decreases e, 1
  {
    hide DivisionFree, ByteStride, ExprType, IsScalar;
    match e {
      case Symbol(_, _) => Nothing();
      case Literal(v) => Copies(Temp(t), Lit(v));
      case UnaryExpr(op, ch) =>
        ExprFree(ch, t, l);
        var g := GenExpr(ch, t, l);
        Unaries(Temp(g.temps), op, g.result);
        Joined(g.code, [ExprU(Temp(g.temps), op, g.result)]);
      case BinaryExpr(op, ch0, ch1) =>
        var g0 := GenExpr(ch0, t, l);
        var g1 := GenExpr(ch1, g0.temps, g0.labels);
        ExprFree(ch0, t, l);
        ExprFree(ch1, g0.temps, g0.labels);
        OperatorFree(op, g0, g1);
      case OffsetExpr(arr, off) =>
        var g0 := GenExpr(arr, t, l);
        var g1 := GenExpr(off, g0.temps, g0.labels);
        ExprFree(arr, t, l);
        ExprFree(off, g0.temps, g0.labels);
        SubscriptFree(g0, g1, ByteStride(arr), IsScalar(e));
      case CallExpr(kind, name, args) =>
        ArgumentsFree(args, t, l);
        CallFree(kind, name, GenArguments(args, t, l));
    }
  }

  lemma Nothing()
    ensures DivisionFree([])
  {
  }

  lemma Copies(dst: Operand, src: Operand)
    ensures DivisionFree([ExprC(dst, src)])
  {
  }

  lemma Unaries(dst: Operand, op: UnaryOp, src: Operand)
    ensures DivisionFree([ExprU(dst, op, src)])
  {
  }

  lemma OperatorFree(op: BinaryOp, g0: Gen, g1: Gen)
    requires DivisionFree(g0.code) && DivisionFree(g1.code) && op != Div && op != Mod
    ensures var temp, mid, end := Temp(g1.temps), g1.labels, g1.labels + 1;
            && DivisionFree(g0.code + [JumpC(mid, g0.result)] + g1.code
                            + [ExprC(temp, g1.result), JumpU(end), Label(mid), ExprC(temp, Lit(0)), Label(end)])
            && DivisionFree(g0.code + [JumpC(mid, g0.result), ExprC(temp, Lit(1)), JumpU(end), Label(mid)] + g1.code
                            + [ExprC(temp, g1.result), Label(end)])
            && DivisionFree(g0.code + g1.code + [ExprB(temp, op, g0.result, g1.result)])
  {
    var temp, mid, end := Temp(g1.temps), g1.labels, g1.labels + 1;
    var a, b := [JumpC(mid, g0.result)], [ExprC(temp, g1.result), JumpU(end), Label(mid), ExprC(temp, Lit(0)), Label(end)];
    var d, f := [JumpC(mid, g0.result), ExprC(temp, Lit(1)), JumpU(end), Label(mid)], [ExprC(temp, g1.result), Label(end)];
    var h := [ExprB(temp, op, g0.result, g1.result)];
    assert DivisionFree(a) && DivisionFree(b) && DivisionFree(d) && DivisionFree(f) && DivisionFree(h);
    hide DivisionFree;
    Then(g0.code, a, g1.code);
    Joined(g0.code + a + g1.code, b);
    Then(g0.code, d, g1.code);
    Joined(g0.code + d + g1.code, f);
    Then(g0.code, g1.code, h);
  }

  lemma SubscriptFree(g0: Gen, g1: Gen, stride: Operand, scalar: bool)
    requires DivisionFree(g0.code) && DivisionFree(g1.code)
    ensures var disp, temp := Temp(g1.temps), Temp(g1.temps + 1);
            var use := if !scalar then ExprB(temp, Plus, g0.result, disp) else ExprAR(temp, g0.result, disp);
            DivisionFree(g0.code + g1.code + [ExprB(disp, Mult, g1.result, stride), use])
  {
    var disp, temp := Temp(g1.temps), Temp(g1.temps + 1);
    var use := if !scalar then ExprB(temp, Plus, g0.result, disp) else ExprAR(temp, g0.result, disp);
    assert DivisionFree([ExprB(disp, Mult, g1.result, stride), use]);
    hide DivisionFree;
    Then(g0.code, g1.code, [ExprB(disp, Mult, g1.result, stride), use]);
  }

  lemma CallFree(kind: CallKind, name: string, a: GenArgs)
    requires DivisionFree(a.code)
    ensures kind.MacroCall? ==> DivisionFree(a.code + Params(a.ops) + [Arg(Lit(kind.line)), CallV(MACRO_PREFIX + name)])
    ensures DivisionFree(a.code + Params(a.ops) + [CallI(name, Temp(a.temps))])
    ensures DivisionFree(a.code + Params(a.ops) + [CallV(name)])
  {
    assert DivisionFree(Params(a.ops));
    assert DivisionFree([CallI(name, Temp(a.temps))]) && DivisionFree([CallV(name)]);
    if kind.MacroCall? {
      assert DivisionFree([Arg(Lit(kind.line)), CallV(MACRO_PREFIX + name)]);
      Then(a.code, Params(a.ops), [Arg(Lit(kind.line)), CallV(MACRO_PREFIX + name)]);
    }
    hide DivisionFree;
    Then(a.code, Params(a.ops), [CallI(name, Temp(a.temps))]);
    Then(a.code, Params(a.ops), [CallV(name)]);
  }

  lemma {:induction false} ArgumentsFree(args: seq<Expr>, t: int, l: int)
    requires forall a :: a in args ==> !ExprDivides(a)
    ensures DivisionFree(GenArguments(args, t, l).code)
    decreases args, 0
  {
    hide DivisionFree, ExprDivides, GenExpr;
    if args == [] {
      Nothing();
    } else {
      assert args[0] in args;
      ExprFree(args[0], t, l);
      var g, h := GenExpr(args[0], t, l), Copied(GenExpr(args[0], t, l));
      Copies(Temp(g.temps), g.result);
      Joined(g.code, [ExprC(Temp(g.temps), g.result)]);
      ArgumentsFree(args[1..], h.temps, h.labels);
      Joined(h.code, GenArguments(args[1..], h.temps, h.labels).code);
    }
  }

  lemma {:induction false} InitFree(op: Operand, length: int, init: seq<Alignment>, t: int, l: int)
    requires forall a :: a in init ==> !ExprDivides(a.exp)
    ensures DivisionFree(GenInit(op, length, init, t, l).code)
  {
    hide DivisionFree, ExprDivides, GenExpr, Wrap;
    if init == [] {
      Nothing();
    } else {
      assert init[0] in init;
      ExprFree(init[0].exp, t, l);
      var g := GenExpr(init[0].exp, t, l);
      var put := if length > 0 then ExprAW(op, Lit(Wrap(init[0].offset * 4)), g.result) else ExprC(op, g.result);
      InitFree(op, length, init[1..], g.temps, g.labels);
      Puts(put);
      Then(g.code, [put], GenInit(op, length, init[1..], g.temps, g.labels).code);
    }
  }

  lemma Puts(u: Unit)
    requires !u.Binary? && !u.JumpIf?
    ensures DivisionFree([u])
  {
  }

  lemma AssignFree(lhs: Expr, rhs: Expr, t: int, l: int)
    requires !ExprDivides(lhs) && !ExprDivides(rhs)
    ensures DivisionFree(GenStmt(AssignStmt(lhs, rhs), t, l, None, None).code)
  {
    hide DivisionFree, GenExpr, ByteStride;
    ExprFree(rhs, t, l);
    var g := GenExpr(rhs, t, l);
    match lhs {
      case OffsetExpr(arr, off) =>
        var g0 := GenExpr(arr, g.temps, g.labels);
        var g1 := GenExpr(off, g0.temps, g0.labels);
        ExprFree(arr, g.temps, g.labels);
        ExprFree(off, g0.temps, g0.labels);
        var disp := Temp(g1.temps);
        Then(g.code, g0.code, g1.code);
        StoresElement(disp, g1.result, ByteStride(arr), g0.result, g.result);
        Joined(g.code + g0.code + g1.code, [ExprB(disp, Mult, g1.result, ByteStride(arr)), ExprAW(g0.result, disp, g.result)]);
      case _ =>
        var put := ExprC(GenExpr(lhs, g.temps, g.labels).result, g.result);
        Puts(put);
        Joined(g.code, [put]);
    }
  }

  lemma StoresElement(disp: Operand, i: Operand, stride: Operand, base: Operand, v: Operand)
    ensures DivisionFree([ExprB(disp, Mult, i, stride), ExprAW(base, disp, v)])
  {
  }

  lemma SimpleFree(s: Stmt, t: int, l: int, cont: Option<int>, brk: Option<int>)
    requires !StmtDivides(s) && !s.Block? && !s.If? && !s.While?
    ensures DivisionFree(GenStmt(s, t, l, cont, brk).code)
  {
    hide DivisionFree, GenExpr, GenInit, ExprDivides;
    match s {
      case Break => Puts(JumpU(LabelOr0(brk)));
      case Continue => Puts(JumpU(LabelOr0(cont)));
      case Declare(op, length, init) => InitFree(op, length, init, t, l);
      case AssignStmt(lhs, rhs) => AssignFree(lhs, rhs, t, l);
      case ExprStmt(e) => ExprFree(e, t, l);
      case Return(v) =>
        if v.Some? {
          ExprFree(v.value, t, l);
          Puts(RetI(GenExpr(v.value, t, l).result));
          Joined(GenExpr(v.value, t, l).code, [RetI(GenExpr(v.value, t, l).result)]);
        } else {
          Puts(RetV);
        }
      case Empty => Nothing();
    }
  }

  lemma LabelsFree(l: int, m: int, o: Operand)
    ensures DivisionFree([JumpC(l, o)]) && DivisionFree([JumpU(l), Label(m)]) && DivisionFree([Label(l)])
  {
  }

  lemma IfFree(g: Gen, g0: GenS, g1: GenS)
    requires DivisionFree(g.code) && DivisionFree(g0.code) && DivisionFree(g1.code)
    ensures DivisionFree(g.code + [JumpC(g0.labels, g.result)] + g0.code + [Label(g0.labels)])
    ensures var els, end := g1.labels, g1.labels + 1;
            DivisionFree(g.code + [JumpC(els, g.result)] + g0.code + [JumpU(end), Label(els)] + g1.code + [Label(end)])
  {
    hide DivisionFree;
    var els, end := g1.labels, g1.labels + 1;
    LabelsFree(g0.labels, 0, g.result);
    LabelsFree(els, 0, g.result);
    LabelsFree(end, els, g.result);
    Then(g.code, [JumpC(g0.labels, g.result)], g0.code);
    Joined(g.code + [JumpC(g0.labels, g.result)] + g0.code, [Label(g0.labels)]);
    Then(g.code, [JumpC(els, g.result)], g0.code);
    Then(g.code + [JumpC(els, g.result)] + g0.code, [JumpU(end), Label(els)], g1.code);
    Joined(g.code + [JumpC(els, g.result)] + g0.code + [JumpU(end), Label(els)] + g1.code, [Label(end)]);
  }

  lemma LoopFree(g: Gen, g0: GenS)
    requires DivisionFree(g.code) && DivisionFree(g0.code)
    ensures var start, end := g.labels, g.labels + 1;
            DivisionFree([Label(start)] + g.code + [JumpC(end, g.result)] + g0.code + [JumpU(start), Label(end)])
  {
    hide DivisionFree;
    var start, end := g.labels, g.labels + 1;
    LabelsFree(start, end, g.result);
    LabelsFree(end, end, g.result);
    Then([Label(start)], g.code, [JumpC(end, g.result)]);
    Then([Label(start)] + g.code + [JumpC(end, g.result)], g0.code, [JumpU(start), Label(end)]);
  }

  lemma {:induction false} StmtFree(s: Stmt, t: int, l: int, cont: Option<int>, brk: Option<int>)
    requires !StmtDivides(s)
    ensures DivisionFree(GenStmt(s, t, l, cont, brk).code)
    decreases s, 1
  {
    hide DivisionFree, GenExpr, GenInit, ExprDivides;
    match s {
      case Block(items) => BlockFree(items, t, l, cont, brk);
      case If(cond, thenClause, elseClause) =>
        var g := GenExpr(cond, t, l);
        var g0 := GenStmt(thenClause, g.temps, g.labels, cont, brk);
        ExprFree(cond, t, l);
        StmtFree(thenClause, g.temps, g.labels, cont, brk);
        if elseClause.Some? {
          StmtFree(elseClause.value, g0.temps, g0.labels, cont, brk);
          IfFree(g, g0, GenStmt(elseClause.value, g0.temps, g0.labels, cont, brk));
        } else {
          IfFree(g, g0, g0);
        }
      case While(cond, body) =>
        var g := GenExpr(cond, t, l);
        ExprFree(cond, t, l);
        StmtFree(body, g.temps, g.labels + 2, Some(g.labels), Some(g.labels + 1));
        LoopFree(g, GenStmt(body, g.temps, g.labels + 2, Some(g.labels), Some(g.labels + 1)));
      case _ => SimpleFree(s, t, l, cont, brk);
    }
  }

  lemma {:induction false} BlockFree(items: seq<Stmt>, t: int, l: int, cont: Option<int>, brk: Option<int>)
    requires forall i :: i in items ==> !StmtDivides(i)
    ensures DivisionFree(GenBlock(items, t, l, cont, brk).code)
    decreases items, 0
  {
    hide DivisionFree, GenStmt, StmtDivides;
    if items == [] {
      Nothing();
    } else {
      assert items[0] in items;
      StmtFree(items[0], t, l, cont, brk);
      var g := GenStmt(items[0], t, l, cont, brk);
      BlockFree(items[1..], g.temps, g.labels, cont, brk);
      Joined(g.code, GenBlock(items[1..], g.temps, g.labels, cont, brk).code);
    }
  }

  lemma FunctionFree(f: GenEeyore.Function, t: int, l: int)
    requires !StmtDivides(f.body)
    ensures DivisionFree(GenFunction(f, t, l).code)
  {
    hide DivisionFree, GenStmt, StmtDivides, TempDecs;
    StmtFree(f.body, t, l, None, None);
    var body := GenStmt(f.body, t, l, None, None).code;
    Puts(CallV(INITIALIZER));
    Puts(RetI(Lit(0)));
    Nothing();
    Then(if f.name == "main" then [CallV(INITIALIZER)] else [], body, if f.isVoid then [RetI(Lit(0))] else []);
  }

  lemma InitializerFree(p: GP.Program)
    requires forall d, a :: d in p.globals && a in d.init ==> !ExprDivides(a.exp)
    ensures !StmtDivides(GP.InitFunction(p).body)
  {
    hide ExprDivides;
    var items := GP.InitFunction(p).body.items;
    forall i | i in items ensures !StmtDivides(i) {
      if i != Return(None) {
        var k :| 0 <= k < |p.globals| && items[k] == i;
        assert p.globals[k] in p.globals;
      }
    }
  }

  /** A source program without divisions and remainders is always optimised, and so always compiled. */
  lemma DivisionFreeCompiles(p: GP.Program)
    requires forall d, a :: d in p.globals && a in d.init ==> !ExprDivides(a.exp)
    requires forall f :: f in p.funcs ==> !StmtDivides(f.body)
    ensures O.OptimizeProg(GP.Generate(p)).Some?
  {
    hide DivisionFree, StmtDivides, ExprDivides, GP.GenFuncs, GP.GenGlobals, GenFunction, O.OptimizeProg;
    var g := GP.GenGlobals(p.globals);
    InitializerFree(p);
    FunctionFree(GP.InitFunction(p), 0, 0);
    GP.InitializerIs(p);
    GP.GenerateLength(p);
    var prog := GP.Generate(p);
    forall f | f in prog.funcs ensures DivisionFree(f.code) {
      var k :| 0 <= k < |prog.funcs| && prog.funcs[k] == f;
      if k > 0 {
        GP.GenFuncsAt(p.funcs, g.temps, g.labels, k - 1);
        var b := GP.GenFuncs(p.funcs[..k - 1], g.temps, g.labels);
        FunctionFree(p.funcs[k - 1], b.temps, b.labels);
      }
    }
    OptimizesIff(prog);
  }
}
