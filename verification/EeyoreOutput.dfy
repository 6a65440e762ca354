/** Optimised programs can be written as Eeyore: folding never puts a literal where Eeyore has a variable,
    above all not in the base of an array access, which is an address computed from an array. */
module EeyoreOutput {
  import opened Words
  import opened Wrappers
  import opened Primitive
  import opened Pinkie
  import opened Ast
  import opened GenEeyore
  import opened ConstFold
  import opened ConstFoldCorrect
  import opened DeadTemps
  import opened ClearTemps
  import opened FlipBinops
  import opened Optimize
  import GenStatic
  import Y = Eeyore
  import GP = GenProgram
  import CS = CompileStatic
  import OS = OptimizeStatic
  import Declared
  import EE = EndToEnd

  // ----- temporaries that hold addresses -----

  /** A named operand, or one of the temporaries `ptrs`. */
  ghost predicate Addresses(ptrs: set<int>, o: Operand) {
    if o.Temp? then o.id in ptrs else !o.Lit?
  }

  /** Some unit computes the temporary from an address. */
  ghost predicate Displaced(code: seq<Unit>, ptrs: set<int>, t: int) {
    exists u :: u in code && u.Binary? && u.dst == Temp(t) && Addresses(ptrs, u.src1)
  }

  ghost predicate BasesIn(code: seq<Unit>, ptrs: set<int>) {
    && (forall t :: t in ptrs ==> Displaced(code, ptrs, t))
    && (forall u :: u in code && u.ArrayRead? ==> Addresses(ptrs, u.base))
  }

  /** Every array that is read is named, or its address is computed from an address. */
  ghost predicate Based(code: seq<Unit>) {
    exists ptrs :: BasesIn(code, ptrs)
  }

  /** And `o` is such an address. */
  ghost predicate PointsIn(code: seq<Unit>, o: Operand) {
    exists ptrs :: BasesIn(code, ptrs) && Addresses(ptrs, o)
  }

  lemma JoinIn(a: seq<Unit>, p: set<int>, b: seq<Unit>, q: set<int>)
    requires BasesIn(a, p) && BasesIn(b, q)
    ensures BasesIn(a + b, p + q)
  {
    forall t | t in p + q ensures Displaced(a + b, p + q, t) {
      if t in p {
        var u :| u in a && u.Binary? && u.dst == Temp(t) && Addresses(p, u.src1);
        assert u in a + b;
      } else {
        var u :| u in b && u.Binary? && u.dst == Temp(t) && Addresses(q, u.src1);
        assert u in a + b;
      }
    }
  }

  lemma Join(a: seq<Unit>, b: seq<Unit>)
    requires Based(a) && Based(b)
    ensures Based(a + b)
    ensures forall o :: PointsIn(a, o) || PointsIn(b, o) ==> PointsIn(a + b, o)
  {
    hide BasesIn, Addresses;
    var p :| BasesIn(a, p);
    var q :| BasesIn(b, q);
    JoinIn(a, p, b, q);
    forall o | PointsIn(a, o) || PointsIn(b, o) ensures PointsIn(a + b, o) {
      if PointsIn(a, o) {
        var p' :| BasesIn(a, p') && Addresses(p', o);
        JoinIn(a, p', b, q);
        MoreAddresses(p', q, o);
      } else {
        var q' :| BasesIn(b, q') && Addresses(q', o);
        JoinIn(a, p, b, q');
        MoreAddresses(q', p, o);
        assert p + q' == q' + p;
      }
    }
  }

  lemma MoreAddresses(p: set<int>, q: set<int>, o: Operand)
    requires Addresses(p, o)
    ensures Addresses(p + q, o)
  {
  }

  lemma Plain(code: seq<Unit>)
    requires forall u :: u in code ==> !u.ArrayRead?
    ensures Based(code) && forall o: Operand :: !o.Lit? && !o.Temp? ==> PointsIn(code, o)
  {
    assert BasesIn(code, {});
  }

  /** Reading through an address. */
  lemma ThenRead(code: seq<Unit>, o: Operand, u: Unit)
    requires PointsIn(code, o) && u.ArrayRead? && u.base == o
    ensures Based(code + [u])
  {
    var p :| BasesIn(code, p) && Addresses(p, o);
    forall t | t in p ensures Displaced(code + [u], p, t) {
      var v :| v in code && v.Binary? && v.dst == Temp(t) && Addresses(p, v.src1);
      assert v in code + [u];
    }
    assert BasesIn(code + [u], p);
  }

  /** Displacing an address gives an address. */
  lemma ThenDisplace(code: seq<Unit>, o: Operand, u: Unit)
    requires PointsIn(code, o) && u.Binary? && u.src1 == o && u.dst.Temp?
    ensures PointsIn(code + [u], u.dst) && Based(code + [u])
  {
    var p :| BasesIn(code, p) && Addresses(p, o);
    var q := p + {u.dst.id};
    forall t | t in q ensures Displaced(code + [u], q, t) {
      if t in p {
        var v :| v in code && v.Binary? && v.dst == Temp(t) && Addresses(p, v.src1);
        assert v in code + [u];
      } else {
        assert u in code + [u];
      }
    }
    assert BasesIn(code + [u], q);
  }

  // ----- generated code -----

  lemma {:induction false} ExprBased(c: Context, e: Expr, t: int, l: int)
    requires ExprOk(c, e)
    ensures var g := GenExpr(e, t, l); Based(g.code) && (!IsScalar(e) ==> PointsIn(g.code, g.result))
    decreases e, 1
  {
    hide Based, PointsIn, IsScalar, ByteStride;
    match e
    case Symbol(_, _) => Plain([]);
    case Literal(v) =>
      Plain([ExprC(Temp(t), Lit(v))]);
      ScalarForms(e);
    case UnaryExpr(op, ch) =>
      ExprBased(c, ch, t, l);
      var g := GenExpr(ch, t, l);
      Plain([ExprU(Temp(g.temps), op, g.result)]);
      Join(g.code, [ExprU(Temp(g.temps), op, g.result)]);
      ScalarForms(e);
    case BinaryExpr(op, ch0, ch1) =>
      var g0 := GenExpr(ch0, t, l);
      var g1 := GenExpr(ch1, g0.temps, g0.labels);
      ExprBased(c, ch0, t, l);
      ExprBased(c, ch1, g0.temps, g0.labels);
      OperatorBased(op, g0, g1);
      ScalarForms(e);
    case OffsetExpr(arr, off) =>
      var g0 := GenExpr(arr, t, l);
      var g1 := GenExpr(off, g0.temps, g0.labels);
      ExprBased(c, arr, t, l);
      ExprBased(c, off, g0.temps, g0.labels);
      SubscriptBased(g0, g1, ByteStride(arr), IsScalar(e));
    case CallExpr(kind, name, args) =>
      ArgumentsBased(c, args, t, l);
      CallBased(GenArguments(args, t, l), [CallI(name, Temp(GenArguments(args, t, l).temps))]);
      ScalarForms(e);
  }

  /** Only symbols and subscripts, under unary pluses, stand for arrays. */
  lemma ScalarForms(e: Expr)
    ensures e.Literal? || e.BinaryExpr? || e.CallExpr? || (e.UnaryExpr? && !e.uop.UPlus?) ==> IsScalar(e)
    ensures e.UnaryExpr? && e.uop.UPlus? ==> IsScalar(e) == IsScalar(e.ch)
  {
  }

  lemma OperatorBased(op: BinaryOp, g0: Gen, g1: Gen)
    requires Based(g0.code) && Based(g1.code)
    ensures var temp, mid, end := Temp(g1.temps), g1.labels, g1.labels + 1;
            && Based(g0.code + [JumpC(mid, g0.result)] + g1.code
                     + [ExprC(temp, g1.result), JumpU(end), Label(mid), ExprC(temp, Lit(0)), Label(end)])
            && Based(g0.code + [JumpC(mid, g0.result), ExprC(temp, Lit(1)), JumpU(end), Label(mid)] + g1.code
                     + [ExprC(temp, g1.result), Label(end)])
            && Based(g0.code + g1.code + [ExprB(temp, op, g0.result, g1.result)])
  {
    hide Based, PointsIn;
    var temp, mid, end := Temp(g1.temps), g1.labels, g1.labels + 1;
    Three(g0.code, [JumpC(mid, g0.result)], g1.code);
    Two(g0.code + [JumpC(mid, g0.result)] + g1.code,
        [ExprC(temp, g1.result), JumpU(end), Label(mid), ExprC(temp, Lit(0)), Label(end)]);
    Three(g0.code, [JumpC(mid, g0.result), ExprC(temp, Lit(1)), JumpU(end), Label(mid)], g1.code);
    Two(g0.code + [JumpC(mid, g0.result), ExprC(temp, Lit(1)), JumpU(end), Label(mid)] + g1.code,
        [ExprC(temp, g1.result), Label(end)]);
    Join(g0.code, g1.code);
    Two(g0.code + g1.code, [ExprB(temp, op, g0.result, g1.result)]);
  }

  lemma Two(a: seq<Unit>, b: seq<Unit>)
    requires Based(a) && forall u :: u in b ==> !u.ArrayRead?
    ensures Based(a + b)
  {
    hide Based, PointsIn;
    Plain(b);
    Join(a, b);
  }

  lemma Three(a: seq<Unit>, b: seq<Unit>, d: seq<Unit>)
    requires Based(a) && Based(d) && forall u :: u in b ==> !u.ArrayRead?
    ensures Based(a + b + d)
  {
    hide Based, PointsIn;
    Two(a, b);
    Join(a + b, d);
  }

  lemma SubscriptBased(g0: Gen, g1: Gen, stride: Operand, scalar: bool)
    requires Based(g0.code) && PointsIn(g0.code, g0.result) && Based(g1.code)
    ensures var disp, temp := Temp(g1.temps), Temp(g1.temps + 1);
            var use := if !scalar then ExprB(temp, Plus, g0.result, disp) else ExprAR(temp, g0.result, disp);
            var code := g0.code + g1.code + [ExprB(disp, Mult, g1.result, stride), use];
            Based(code) && (!scalar ==> PointsIn(code, temp))
  {
    hide Based, PointsIn;
    var disp, temp := Temp(g1.temps), Temp(g1.temps + 1);
    var scale := ExprB(disp, Mult, g1.result, stride);
    var use := if !scalar then ExprB(temp, Plus, g0.result, disp) else ExprAR(temp, g0.result, disp);
    Join(g0.code, g1.code);
    Plain([scale]);
    Join(g0.code + g1.code, [scale]);
    var code := g0.code + g1.code + [scale];
    if scalar {
      ThenRead(code, g0.result, use);
    } else {
      ThenDisplace(code, g0.result, use);
    }
    assert code + [use] == g0.code + g1.code + [scale, use];
  }

  lemma {:induction false} ArgumentsBased(c: Context, args: seq<Expr>, t: int, l: int)
    requires forall a :: a in args ==> ExprOk(c, a)
    ensures Based(GenArguments(args, t, l).code)
    decreases args, 0
  {
    hide Based, PointsIn, ExprOk, GenExpr;
    if args == [] {
      Plain([]);
    } else {
      assert args[0] in args;
      ExprBased(c, args[0], t, l);
      var g, h := GenExpr(args[0], t, l), Copied(GenExpr(args[0], t, l));
      Two(g.code, [ExprC(Temp(g.temps), g.result)]);
      ArgumentsBased(c, args[1..], h.temps, h.labels);
      Join(h.code, GenArguments(args[1..], h.temps, h.labels).code);
    }
  }

  lemma CallBased(a: GenArgs, call: seq<Unit>)
    requires Based(a.code) && forall u :: u in call ==> !u.ArrayRead?
    ensures Based(a.code + Params(a.ops) + call)
  {
    hide Based;
    Two(a.code, Params(a.ops));
    Two(a.code + Params(a.ops), call);
  }

  lemma {:induction false} InitBased(c: Context, op: Operand, length: int, init: seq<Alignment>, t: int, l: int)
    requires forall a :: a in init ==> ExprOk(c, a.exp)
    ensures Based(GenInit(op, length, init, t, l).code)
  {
    hide Based, PointsIn, ExprOk, GenExpr, Wrap;
    if init == [] {
      Plain([]);
    } else {
      assert init[0] in init;
      ExprBased(c, init[0].exp, t, l);
      var g := GenExpr(init[0].exp, t, l);
      var put := if length > 0 then ExprAW(op, Lit(Wrap(init[0].offset * 4)), g.result) else ExprC(op, g.result);
      InitBased(c, op, length, init[1..], g.temps, g.labels);
      Three(g.code, [put], GenInit(op, length, init[1..], g.temps, g.labels).code);
    }
  }

  lemma AssignBased(c: Context, lhs: Expr, rhs: Expr, t: int, l: int)
    requires ExprOk(c, lhs) && ExprOk(c, rhs) && (lhs.Symbol? || lhs.OffsetExpr?)
    ensures Based(GenStmt(AssignStmt(lhs, rhs), t, l, None, None).code)
  {
    hide Based, PointsIn, GenExpr, IsScalar, ByteStride, SymbolOk;
    ExprBased(c, rhs, t, l);
    var g := GenExpr(rhs, t, l);
    match lhs
    case OffsetExpr(arr, off) =>
      var g0 := GenExpr(arr, g.temps, g.labels);
      var g1 := GenExpr(off, g0.temps, g0.labels);
      ExprBased(c, arr, g.temps, g.labels);
      ExprBased(c, off, g0.temps, g0.labels);
      Join(g.code, g0.code);
      Join(g.code + g0.code, g1.code);
      var disp := Temp(g1.temps);
      Two(g.code + g0.code + g1.code, [ExprB(disp, Mult, g1.result, ByteStride(arr)), ExprAW(g0.result, disp, g.result)]);
    case Symbol(_, _) =>
      Two(g.code, [ExprC(GenExpr(lhs, g.temps, g.labels).result, g.result)]);
  }

  lemma DroppedBased(c: Context, e: Expr, t: int, l: int)
    requires e.CallExpr? && forall a :: a in e.args ==> ExprOk(c, a)
    ensures Based(GenExpr(e, t, l).code)
  {
    hide Based, ExprOk, GenArguments;
    var a := GenArguments(e.args, t, l);
    ArgumentsBased(c, e.args, t, l);
    match e.kind
    case MacroCall(line) => CallBased(a, [Arg(Lit(line)), CallV(MACRO_PREFIX + e.name)]);
    case IntCall => CallBased(a, [CallI(e.name, Temp(a.temps))]);
    case VoidCall => CallBased(a, [CallV(e.name)]);
  }

  lemma SimpleBased(c: Context, s: Stmt, t: int, l: int, cont: Option<int>, brk: Option<int>, inLoop: bool)
    requires StmtOk(c, s, inLoop) && !s.Block? && !s.If? && !s.While?
    ensures Based(GenStmt(s, t, l, cont, brk).code)
  {
    hide Based, GenExpr, GenInit, ExprOk, IsScalar, Arith, Condition;
    match s
    case Empty => Plain([]);
    case Break => Plain([JumpU(LabelOr0(brk))]);
    case Continue => Plain([JumpU(LabelOr0(cont))]);
    case Declare(op, length, init) => InitBased(c, op, length, init, t, l);
    case AssignStmt(lhs, rhs) => AssignBased(c, lhs, rhs, t, l);
    case ExprStmt(e) =>
      if e.CallExpr? {
        DroppedBased(c, e, t, l);
      } else {
        ExprBased(c, e, t, l);
      }
    case Return(None) => Plain([RetV]);
    case Return(Some(e)) =>
      ExprBased(c, e, t, l);
      Two(GenExpr(e, t, l).code, [RetI(GenExpr(e, t, l).result)]);
  }

  lemma ThenBased(g: Gen, g0: GenS)
    requires Based(g.code) && Based(g0.code)
    ensures Based(g.code + [JumpC(g0.labels, g.result)] + g0.code + [Label(g0.labels)])
  {
    hide Based;
    Three(g.code, [JumpC(g0.labels, g.result)], g0.code);
    Two(g.code + [JumpC(g0.labels, g.result)] + g0.code, [Label(g0.labels)]);
  }

  lemma ElseBased(g: Gen, g0: GenS, g1: GenS)
    requires Based(g.code) && Based(g0.code) && Based(g1.code)
    ensures var els, end := g1.labels, g1.labels + 1;
            Based(g.code + [JumpC(els, g.result)] + g0.code + [JumpU(end), Label(els)] + g1.code + [Label(end)])
  {
    hide Based;
    var els, end := g1.labels, g1.labels + 1;
    var thens := g.code + [JumpC(els, g.result)] + g0.code;
    Three(g.code, [JumpC(els, g.result)], g0.code);
    Three(thens, [JumpU(end), Label(els)], g1.code);
    Two(thens + [JumpU(end), Label(els)] + g1.code, [Label(end)]);
  }

  lemma LoopBased(g: Gen, g0: GenS)
    requires Based(g.code) && Based(g0.code)
    ensures var start, end := g.labels, g.labels + 1;
            Based([Label(start)] + g.code + [JumpC(end, g.result)] + g0.code + [JumpU(start), Label(end)])
  {
    hide Based, PointsIn;
    var start, end := g.labels, g.labels + 1;
    Plain([Label(start)]);
    Join([Label(start)], g.code);
    Three([Label(start)] + g.code, [JumpC(end, g.result)], g0.code);
    Two([Label(start)] + g.code + [JumpC(end, g.result)] + g0.code, [JumpU(start), Label(end)]);
  }

  lemma IfBased(
    cond: Expr, thenClause: Stmt, elseClause: Option<Stmt>, t: int, l: int, cont: Option<int>, brk: Option<int>)
    requires var g := GenExpr(cond, t, l);
             var g0 := GenStmt(thenClause, g.temps, g.labels, cont, brk);
             && Based(g.code) && Based(g0.code)
             && (elseClause.Some? ==> Based(GenStmt(elseClause.value, g0.temps, g0.labels, cont, brk).code))
    ensures Based(GenStmt(If(cond, thenClause, elseClause), t, l, cont, brk).code)
  {
    hide Based, GenExpr;
    var g := GenExpr(cond, t, l);
    var g0 := GenStmt(thenClause, g.temps, g.labels, cont, brk);
    if elseClause.Some? {
      ElseBased(g, g0, GenStmt(elseClause.value, g0.temps, g0.labels, cont, brk));
    } else {
      ThenBased(g, g0);
    }
  }

  lemma WhileBased(cond: Expr, body: Stmt, t: int, l: int, cont: Option<int>, brk: Option<int>)
    requires var g := GenExpr(cond, t, l);
             Based(g.code) && Based(GenStmt(body, g.temps, g.labels + 2, Some(g.labels), Some(g.labels + 1)).code)
    ensures Based(GenStmt(While(cond, body), t, l, cont, brk).code)
  {
    hide Based, GenExpr;
    var g := GenExpr(cond, t, l);
    LoopBased(g, GenStmt(body, g.temps, g.labels + 2, Some(g.labels), Some(g.labels + 1)));
  }

  lemma BlockIs(items: seq<Stmt>, t: int, l: int, cont: Option<int>, brk: Option<int>)
    ensures GenStmt(Block(items), t, l, cont, brk) == GenBlock(items, t, l, cont, brk)
  {
    hide GenBlock;
  }

  lemma {:induction false} StmtBased(c: Context, s: Stmt, t: int, l: int, cont: Option<int>, brk: Option<int>, inLoop: bool)
    requires StmtOk(c, s, inLoop)
    ensures Based(GenStmt(s, t, l, cont, brk).code)
    decreases s, 1
  {
    hide Based, GenExpr, GenStmt, GenBlock, ExprOk, IsScalar, Arith, Condition;
    match s
    case Block(items) =>
      BlockBased(c, items, t, l, cont, brk, inLoop);
      BlockIs(items, t, l, cont, brk);
    case If(cond, thenClause, elseClause) =>
      var g := GenExpr(cond, t, l);
      var g0 := GenStmt(thenClause, g.temps, g.labels, cont, brk);
      ExprBased(c, cond, t, l);
      StmtBased(c, thenClause, g.temps, g.labels, cont, brk, inLoop);
      if elseClause.Some? {
        StmtBased(c, elseClause.value, g0.temps, g0.labels, cont, brk, inLoop);
      }
      IfBased(cond, thenClause, elseClause, t, l, cont, brk);
    case While(cond, body) =>
      var g := GenExpr(cond, t, l);
      ExprBased(c, cond, t, l);
      StmtBased(c, body, g.temps, g.labels + 2, Some(g.labels), Some(g.labels + 1), true);
      WhileBased(cond, body, t, l, cont, brk);
    case _ => SimpleBased(c, s, t, l, cont, brk, inLoop);
  }

  lemma {:induction false} BlockBased(
    c: Context, items: seq<Stmt>, t: int, l: int, cont: Option<int>, brk: Option<int>, inLoop: bool)
    requires forall i :: i in items ==> StmtOk(c, i, inLoop)
    ensures Based(GenBlock(items, t, l, cont, brk).code)
    decreases items, 0
  {
    hide Based, GenStmt, StmtOk;
    if items == [] {
      Plain([]);
    } else {
      assert items[0] in items;
      StmtBased(c, items[0], t, l, cont, brk, inLoop);
      var g := GenStmt(items[0], t, l, cont, brk);
      BlockBased(c, items[1..], g.temps, g.labels, cont, brk, inLoop);
      Join(g.code, GenBlock(items[1..], g.temps, g.labels, cont, brk).code);
    }
  }

  /** In the code of every well-typed function, each array read has a named base, or one whose address a
      unit computes from such a base. */
  lemma FunctionBased(c: Context, f: GenEeyore.Function, t: int, l: int)
    requires StmtOk(c, f.body, false)
    ensures Based(GenFunction(f, t, l).code)
  {
    hide Based, GenStmt, StmtOk, TempDecs;
    StmtBased(c, f.body, t, l, None, None, false);
    var body := GenStmt(f.body, t, l, None, None).code;
    var first := if f.name == "main" then [CallV(INITIALIZER)] else [];
    Plain(first);
    Join(first, body);
    Two(first + body, if f.isVoid then [RetI(Lit(0))] else []);
  }

  // ----- folding keeps addresses -----

  /** No address becomes a known literal. */
  lemma {:induction false} AddressUnknown(code: seq<Unit>, ptrs: set<int>, i: nat, t: int)
    requires Fold(code).Some? && BasesIn(code, ptrs) && i <= |code| && t in ptrs
    ensures At(code, i).Folding? && t !in At(code, i).lits
    decreases i
  {
    hide Fold, At, FoldStep, WriteCounts;
    AtDefined(code, i);
    if t in At(code, i).lits {
      var k := LiteralOrigin(code, i, t);
      assert Displaced(code, ptrs, t);
      var u :| u in code && u.Binary? && u.dst == Temp(t) && Addresses(ptrs, u.src1);
      var j :| 0 <= j < |code| && code[j] == u;
      WritesCounted(code, t, j, k);
      assert j == k;
      AtDefined(code, k);
      if u.src1.Temp? {
        AddressUnknown(code, ptrs, k, u.src1.id);
      }
      StaysBinary(WriteCounts(code), At(code, k), u);
      AtNext(code, k);
      LiteralsGrow(code, k + 1, i);
    }
  }

  /** A binary unit whose first operand is no known literal stays one. */
  lemma StaysBinary(counts: map<int, nat>, f: Folding, u: Unit)
    requires f.Folding? && u.Binary? && !u.src1.Lit? && (u.src1.Temp? ==> u.src1.id !in f.lits)
    ensures var g := FoldStep(counts, f, u); g.Folding? && |g.out| == |f.out| + 1 && g.out[|f.out|].Binary?
  {
  }

  lemma FoldedBase(code: seq<Unit>, u: Unit)
    requires Fold(code).Some? && Based(code) && u in Fold(code).value && u.ArrayRead?
    ensures !u.base.Lit?
  {
    hide Fold, At, WriteCounts, LiteralCalc;
    FoldKeepsLabels(code);
    var i :| 0 <= i < |code| && Fold(code).value[i] == u;
    FoldedAt(code, i);
    var ptrs :| BasesIn(code, ptrs);
    var o := code[i];
    FoldedRead(WriteCounts(code), At(code, i).lits, o);
    assert o.ArrayRead? && Addresses(ptrs, o.base) by {
      assert o in code;
    }
    if o.base.Temp? {
      AddressUnknown(code, ptrs, i, o.base.id);
    }
  }

  lemma FoldedRead(counts: map<int, nat>, lits: map<int, Word>, o: Unit)
    ensures var v := Substitute(counts, lits, o);
            && (v.ArrayRead? <==> o.ArrayRead?)
            && (v.ArrayRead? ==> LiteralCalc(v).NoLiteral? && v.base == Literalize(counts, lits, o.base))
            && forall w :: LiteralCalc(v) == ConstFold.Literal(w) ==> !FoldedUnit(v, w).ArrayRead?
  {
  }

  /** After the optimiser no array is read at a literal address. */
  lemma OptimizedBase(r: Renaming, code: seq<Unit>, u: Unit)
    requires Fold(code).Some? && Based(code) && u in OptimizeCode(r, code) && u.ArrayRead?
    ensures !u.base.Lit?
  {
    hide Fold, RemoveUnused, RenameCode, FlipUnit, RenameUnit, Based;
    var folded := Fold(code).value;
    var short := RemoveUnused(folded);
    var named := RenameCode(r, short);
    var i :| 0 <= i < |named| && FlipUnit(named[i]) == u;
    RenameLength(r, short);
    RenameCodeIs(r, short, i);
    RemovedFrom(folded, short[i]);
    RenamedRead(MeetCode(r, short).ids, short[i]);
    FoldedBase(code, short[i]);
  }

  lemma RenamedRead(ids: map<int, int>, v: Unit)
    ensures var u := FlipUnit(RenameUnit(ids, v));
            u.ArrayRead? ==> v.ArrayRead? && (u.base.Lit? ==> v.base.Lit?)
  {
  }

  /** Code generation writes the translations of Eeyore statements. */
  lemma WritesTranslations(dst: Y.Variable, base: Y.Variable, op: BinaryOp, uop: UnaryOp, a: Y.Operand, b: Y.Operand, l: int)
    ensures Y.FromStatement(Y.ExprU(dst, uop, a)) == ExprU(Y.FromVariable(dst), uop, Y.FromOperand(a))
    ensures Y.FromStatement(Y.ExprB(dst, op, a, b)) == ExprB(Y.FromVariable(dst), op, Y.FromOperand(a), Y.FromOperand(b))
    ensures Y.FromStatement(Y.ExprC(dst, a)) == ExprC(Y.FromVariable(dst), Y.FromOperand(a))
    ensures Y.FromStatement(Y.ExprAW(base, a, b)) == ExprAW(Y.FromVariable(base), Y.FromOperand(a), Y.FromOperand(b))
    ensures Y.FromStatement(Y.ExprAR(dst, base, a)) == ExprAR(Y.FromVariable(dst), Y.FromVariable(base), Y.FromOperand(a))
    ensures Y.FromStatement(Y.JumpC(l, dst)) == JumpC(l, Y.FromVariable(dst)) && Y.FromStatement(Y.JumpU(l)) == JumpU(l)
  {
  }

  // ----- whole programs -----

  /** Every function is in its scope and well typed. */
  ghost predicate WellTyped(p: GP.Program, scs: seq<GenStatic.Scope>, cs: seq<Context>) {
    && |cs| == |p.funcs| + 1
    && forall k :: 0 <= k <= |p.funcs| ==> CS.FuncFits(p, scs, k) && StmtOk(cs[k], GP.SourceOf(p, k).body, false)
  }

  lemma UnitExpressible(sc: GenStatic.Scope, u: Unit)
    requires OS.Usable(sc, u) && BackendShape(u) && (u.ArrayRead? ==> !u.base.Lit?)
    ensures Y.Expressible(u)
  {
  }

  lemma DeclFits(sc: GenStatic.Scope, decl: seq<Symb>)
    requires CS.DeclOk(sc, decl)
    ensures forall d :: d in decl ==> Y.DeclarationFits(d)
  {
    forall d | d in decl ensures Y.DeclarationFits(d) {
      assert CS.DecOk(sc, d);
    }
  }

  lemma FunctionExpressible(p: GP.Program, scs: seq<GenStatic.Scope>, c: Context, k: nat)
    requires CS.FuncFits(p, scs, k) && OptimizeProg(GP.Generate(p)).Some?
    requires k <= |p.funcs| && StmtOk(c, GP.SourceOf(p, k).body, false)
    ensures |OptimizeProg(GP.Generate(p)).value.funcs| == |p.funcs| + 1
    ensures Y.FunctionFits(OptimizeProg(GP.Generate(p)).value.funcs[k])
  {
    hide *;
    CS.FitsMeans(p, scs, k);
    CS.OptimizedFacts(p, scs, k);
    EE.GeneratedAt(p, k);
    var f, f' := GP.Generate(p).funcs[k], OptimizeProg(GP.Generate(p)).value.funcs[k];
    var b := GP.CountersAt(p, k);
    FunctionBased(c, GP.SourceOf(p, k), b.0, b.1);
    var r := OptimizedFunc(GP.Generate(p), k);
    forall u | u in f'.code ensures Y.Expressible(u) {
      if u.ArrayRead? {
        OptimizedBase(r, f.code, u);
      }
      UsableIn(scs[k], f'.code, u);
      UnitExpressible(scs[k], u);
    }
    DeclFits(scs[k], f'.decl);
    FunctionFitsIs(f');
  }

  lemma UsableIn(sc: GenStatic.Scope, code: seq<Unit>, u: Unit)
    requires OS.AllUsable(sc, code) && u in code
    ensures OS.Usable(sc, u)
  {
    hide OS.Usable;
  }

  lemma FunctionFitsIs(f: Func)
    requires (forall d :: d in f.decl ==> Y.DeclarationFits(d)) && (forall u :: u in f.code ==> Y.Expressible(u))
    ensures Y.FunctionFits(f)
  {
    hide Y.DeclarationFits, Y.Expressible;
  }

  lemma {:induction false} GlobalsFit(decs: seq<GP.Declaration>)
    requires forall d :: d in decs ==> !d.op.Lit?
    ensures forall s :: s in GP.GenGlobals(decs).decs ==> Y.DeclarationFits(s)
  {
    hide GenInit;
    if decs != [] {
      GlobalsFit(decs[..|decs| - 1]);
      assert decs[|decs| - 1] in decs;
    }
  }

  lemma GlobalsNamed(p: GP.Program, scs: seq<GenStatic.Scope>)
    requires GP.ProgramScoped(p, scs)
    ensures forall d :: d in p.globals ==> !d.op.Lit?
  {
    hide GenStatic.ExprScoped, GenStatic.StmtScoped;
    assert forall d :: d in p.globals ==> GenStatic.Named(scs[0], d.op);
  }

  /** The optimiser's output can always be written as Eeyore, and reading it back gives the same program:
      no literal ends up where Eeyore has a variable. */
  lemma OptimizedReadsBack(p: GP.Program, scs: seq<GenStatic.Scope>, cs: seq<Context>)
    requires WellTyped(p, scs, cs) && OptimizeProg(GP.Generate(p)).Some?
    ensures var prog := OptimizeProg(GP.Generate(p)).value;
            Y.ToProgram(prog).Some? && Y.FromProgram(Y.ToProgram(prog).value) == prog
  {
    hide *;
    var prog := OptimizeProg(GP.Generate(p)).value;
    TypedAt(p, scs, cs, 0);
    CS.FitsMeans(p, scs, 0);
    FunctionExpressible(p, scs, cs[0], 0);
    forall f | f in prog.funcs ensures Y.FunctionFits(f) {
      var k :| 0 <= k < |prog.funcs| && prog.funcs[k] == f;
      TypedAt(p, scs, cs, k);
      FunctionExpressible(p, scs, cs[k], k);
    }
    GlobalsNamed(p, scs);
    GlobalsFit(p.globals);
    Declared.GeneratedGlobals(p);
    CS.OptimizedIs(GP.Generate(p), 0);
    Y.ProgramBack(prog);
  }

  lemma TypedAt(p: GP.Program, scs: seq<GenStatic.Scope>, cs: seq<Context>, k: nat)
    requires WellTyped(p, scs, cs) && k <= |p.funcs|
    ensures |cs| == |p.funcs| + 1 && CS.FuncFits(p, scs, k) && StmtOk(cs[k], GP.SourceOf(p, k).body, false)
  {
    hide CS.FuncFits, StmtOk, GP.SourceOf;
  }
}
