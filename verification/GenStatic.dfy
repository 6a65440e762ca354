/** Generated code is well formed: labels defined once, jumps inside the function, every temporary
    that is read also written, and the shapes the later passes rely on. */
module GenStatic {
  import opened Words
  import opened Wrappers
  import opened Primitive
  import opened Layout
  import opened SemanticTypes
  import opened Pinkie
  import opened Ast
  import opened Embedding
  import opened GenEeyore
  import Optimize
  import Backend
  import BC = BackendCorrect

  /** The named operands a function may use: scalars, among them array parameters, and arrays. */
  datatype Scope = Scope(scalars: set<Operand>, arrays: set<Operand>)

  ghost predicate Named(sc: Scope, o: Operand) {
    (o.Var? || o.Param?) && (o in sc.scalars || o in sc.arrays)
  }

  // ----- what source code must satisfy -----

  /** Symbols are in scope, calls inside expressions return a value, and arguments fit the registers. */
  ghost predicate ExprScoped(sc: Scope, e: Expr) {
    match e
    case Literal(_) => true
    case Symbol(op, _) => Named(sc, op)
    case UnaryExpr(_, ch) => ExprScoped(sc, ch)
    case BinaryExpr(_, ch0, ch1) => ExprScoped(sc, ch0) && ExprScoped(sc, ch1)
    case OffsetExpr(arr, off) => ExprScoped(sc, arr) && ExprScoped(sc, off)
    case CallExpr(kind, _, args) => kind.IntCall? && |args| <= 12 && forall a :: a in args ==> ExprScoped(sc, a)
  }

  ghost predicate CallScoped(sc: Scope, e: Expr)
    requires e.CallExpr?
  {
    |e.args| <= (if e.kind.MacroCall? then 11 else 12) && forall a :: a in e.args ==> ExprScoped(sc, a)
  }

  ghost predicate StmtScoped(sc: Scope, s: Stmt, inLoop: bool) {
    match s
    case Empty => true
    case Break => inLoop
    case Continue => inLoop
    case Block(items) => forall i :: i in items ==> StmtScoped(sc, i, inLoop)
    case Declare(op, length, init) =>
      && (op.Var? || op.Param?) && (if length > 0 then op in sc.arrays else op in sc.scalars)
      && forall a :: a in init ==> ExprScoped(sc, a.exp)
    case AssignStmt(lhs, rhs) =>
      && ExprScoped(sc, lhs) && ExprScoped(sc, rhs)
      && (lhs.OffsetExpr? || (lhs.Symbol? && lhs.op in sc.scalars))
    case ExprStmt(e) => if e.CallExpr? then CallScoped(sc, e) else ExprScoped(sc, e)
    case Return(v) => v.Some? ==> ExprScoped(sc, v.value)
    case If(cond, t, f) =>
      ExprScoped(sc, cond) && StmtScoped(sc, t, inLoop) && (f.Some? ==> StmtScoped(sc, f.value, inLoop))
    case While(cond, body) => ExprScoped(sc, cond) && StmtScoped(sc, body, true)
  }

  // ----- what generated code satisfies -----

  ghost predicate LabelsWithin(code: seq<Unit>, lo: int, hi: int) {
    DistinctLabels(code) && forall u :: u in code && u.Label? ==> lo <= u.id < hi
  }

  ghost predicate Writes(code: seq<Unit>, t: int) {
    exists u :: u in code && Destination(u) == Some(Temp(t))
  }

  /** An operand that may be read: temporaries only if `whole` writes them. */
  ghost predicate Readable(sc: Scope, whole: seq<Unit>, o: Operand) {
    o.Lit? || (o.Temp? && Writes(whole, o.id)) || Named(sc, o)
  }

  /** A unit as a part of `whole`: jumps go to labels of `whole` or to one of `ext`, and temporaries
      written are numbered from `t0` to `t1`. */
  ghost predicate UnitTidy(sc: Scope, whole: seq<Unit>, ext: set<int>, t0: int, t1: int, u: Unit) {
    && Optimize.EeyoreShape(u) && (u.Binary? ==> !Logical(u.bop))
    && (forall o :: o in ROps(u) ==> Readable(sc, whole, o))
    && (u.ArrayWrite? ==> Readable(sc, whole, u.base) && !u.base.Lit?)
    && (u.Jump? || u.JumpIf? ==> Label(u.id) in whole || u.id in ext)
    && (Destination(u).Some? ==>
          var o := Destination(u).value;
          if o.Temp? then t0 <= o.id < t1 else Named(sc, o) && o in sc.scalars)
  }

  /** No more than twelve arguments are pushed for one call. */
  ghost predicate ArgsFew(code: seq<Unit>) {
    forall i :: 0 <= i < |code| && code[i].Arg? ==> Backend.ParamAt(code, i) < 12
  }

  /** All of it, for a part of `whole` with labels from `lo` to `hi`. */
  ghost predicate Tidy(
    sc: Scope, code: seq<Unit>, whole: seq<Unit>, ext: set<int>, lo: int, hi: int, t0: int, t1: int)
  {
    && LabelsWithin(code, lo, hi)
    && (forall u :: u in code ==> UnitTidy(sc, whole, ext, t0, t1, u))
    && ArgsContiguous(code) && ArgsFew(code)
  }

  // ----- putting fragments together -----

  lemma LabelsJoin(a: seq<Unit>, a0: int, a1: int, b: seq<Unit>, b0: int, b1: int, lo: int, hi: int)
    requires LabelsWithin(a, a0, a1) && LabelsWithin(b, b0, b1) && (a1 <= b0 || b1 <= a0)
    requires lo <= a0 && a1 <= hi && lo <= b0 && b1 <= hi
    ensures LabelsWithin(a + b, lo, hi)
  {
    var ab := a + b;
    forall i, j | 0 <= i < j < |ab| && ab[i].Label? ensures ab[i] != ab[j] {
      if i < |a| <= j {
        assert ab[i] in a && ab[j] in b;
      }
    }
  }

  lemma {:induction false} ParamsApart(a: seq<Unit>, b: seq<Unit>, i: nat)
    requires ArgsContiguous(a) && i <= |b|
    ensures Backend.ParamAt(a + b, |a| + i) == Backend.ParamAt(b, i)
  {
    if i == 0 {
      Prefixed(a, b, |a|);
      BC.NoArgsAtEnd(a);
    } else {
      ParamsApart(a, b, i - 1);
      assert (a + b)[|a| + i - 1] == b[i - 1];
    }
  }

  lemma {:induction false} Prefixed(a: seq<Unit>, b: seq<Unit>, i: nat)
    requires i <= |a|
    ensures Backend.ParamAt(a + b, i) == Backend.ParamAt(a, i)
  {
    if i > 0 {
      Prefixed(a, b, i - 1);
    }
  }

  lemma ArgsJoin(a: seq<Unit>, b: seq<Unit>)
    requires ArgsContiguous(a) && ArgsContiguous(b) && ArgsFew(a) && ArgsFew(b)
    ensures ArgsContiguous(a + b) && ArgsFew(a + b)
  {
    var ab := a + b;
    forall i | 0 <= i < |ab| && ab[i].Arg?
      ensures i + 1 < |ab| && (ab[i + 1].Arg? || IsCall(ab[i + 1])) && Backend.ParamAt(ab, i) < 12
    {
      if i < |a| {
        assert a[i].Arg? && ab[i + 1] == a[i + 1];
        Prefixed(a, b, i);
      } else {
        assert b[i - |a|].Arg? && ab[i + 1] == b[i - |a| + 1];
        ParamsApart(a, b, i - |a|);
      }
    }
  }

  ghost predicate Part(code: seq<Unit>, whole: seq<Unit>) {
    forall u :: u in code ==> u in whole
  }

  lemma UnitWider(
    sc: Scope, whole: seq<Unit>, ext: set<int>, t0: int, t1: int, whole': seq<Unit>, ext': set<int>, s0: int, s1: int, u: Unit)
    requires UnitTidy(sc, whole, ext, t0, t1, u) && Part(whole, whole') && ext <= ext' && s0 <= t0 && t1 <= s1
    ensures UnitTidy(sc, whole', ext', s0, s1, u)
  {
    hide Optimize.EeyoreShape, Named;
  }

  /** A fragment seen as a part of more code. */
  lemma Wider(
    sc: Scope, code: seq<Unit>, whole: seq<Unit>, ext: set<int>, lo: int, hi: int, t0: int, t1: int,
    whole': seq<Unit>, ext': set<int>, lo': int, hi': int, s0: int, s1: int)
    requires Tidy(sc, code, whole, ext, lo, hi, t0, t1) && Part(whole, whole') && ext <= ext'
    requires lo' <= lo && hi <= hi' && s0 <= t0 && t1 <= s1
    ensures Tidy(sc, code, whole', ext', lo', hi', s0, s1)
  {
    hide UnitTidy, ArgsContiguous, ArgsFew, Part;
    forall u | u in code ensures UnitTidy(sc, whole', ext', s0, s1, u) {
      UnitWider(sc, whole, ext, t0, t1, whole', ext', s0, s1, u);
    }
  }

  /** Two parts in a row, with labels apart. */
  lemma Join(
    sc: Scope, a: seq<Unit>, a0: int, a1: int, b: seq<Unit>, b0: int, b1: int, whole: seq<Unit>, ext: set<int>,
    lo: int, hi: int, t0: int, t1: int)
    requires Tidy(sc, a, whole, ext, a0, a1, t0, t1) && Tidy(sc, b, whole, ext, b0, b1, t0, t1)
    requires (a1 <= b0 || b1 <= a0) && lo <= a0 && a1 <= hi && lo <= b0 && b1 <= hi
    ensures Tidy(sc, a + b, whole, ext, lo, hi, t0, t1)
  {
    hide UnitTidy, ArgsContiguous, ArgsFew, LabelsWithin;
    LabelsJoin(a, a0, a1, b, b0, b1, lo, hi);
    ArgsJoin(a, b);
  }

  /** A unit that is no argument, alone. */
  lemma One(sc: Scope, u: Unit, whole: seq<Unit>, ext: set<int>, lo: int, hi: int, t0: int, t1: int)
    requires UnitTidy(sc, whole, ext, t0, t1, u) && !u.Arg? && (u.Label? ==> lo <= u.id < hi)
    ensures Tidy(sc, [u], whole, ext, lo, hi, t0, t1)
  {
    hide UnitTidy;
  }

  /** Units that are neither labels nor arguments. */
  lemma {:induction false} Several(
    sc: Scope, us: seq<Unit>, whole: seq<Unit>, ext: set<int>, lo: int, hi: int, t0: int, t1: int)
    requires forall u :: u in us ==> UnitTidy(sc, whole, ext, t0, t1, u) && !u.Arg? && !u.Label?
    ensures Tidy(sc, us, whole, ext, lo, hi, t0, t1)
  {
    hide UnitTidy;
  }

  lemma WritesWider(code: seq<Unit>, whole: seq<Unit>, t: int)
    requires Writes(code, t) && Part(code, whole)
    ensures Writes(whole, t)
  {
  }

  // ----- expressions -----

  /** Well-formed code whose result can be read after it. */
  ghost predicate GenTidy(sc: Scope, g: Gen, t: int, l: int) {
    && t <= g.temps && l <= g.labels
    && Tidy(sc, g.code, g.code, {}, l, g.labels, t, g.temps)
    && Readable(sc, g.code, g.result) && !g.result.Lit?
  }

  /** The code of two operands in a row, as a part of more code. */
  lemma PairTidy(sc: Scope, g0: Gen, g1: Gen, t: int, l: int, whole: seq<Unit>, hi: int, t1: int)
    requires GenTidy(sc, g0, t, l) && GenTidy(sc, g1, g0.temps, g0.labels)
    requires Part(g0.code, whole) && Part(g1.code, whole) && g1.labels <= hi && g1.temps <= t1
    ensures Tidy(sc, g0.code, whole, {}, l, g0.labels, t, t1) && Tidy(sc, g1.code, whole, {}, g0.labels, g1.labels, t, t1)
    ensures Readable(sc, whole, g0.result) && Readable(sc, whole, g1.result) && !g0.result.Lit? && !g1.result.Lit?
  {
    Wider(sc, g0.code, g0.code, {}, l, g0.labels, t, g0.temps, whole, {}, l, g0.labels, t, t1);
    Wider(sc, g1.code, g1.code, {}, g0.labels, g1.labels, g0.temps, g1.temps, whole, {}, g0.labels, g1.labels, t, t1);
    hide Tidy, Named;
  }

  lemma TempWritten(whole: seq<Unit>, u: Unit, t: int)
    requires u in whole && Destination(u) == Some(Temp(t))
    ensures Writes(whole, t)
  {
  }

  lemma CopyTidy(sc: Scope, whole: seq<Unit>, ext: set<int>, t0: int, t1: int, t: int, src: Operand)
    requires Readable(sc, whole, src) && t0 <= t < t1
    ensures UnitTidy(sc, whole, ext, t0, t1, ExprC(Temp(t), src))
  {
    hide Readable;
  }

  lemma ComputeTidy(sc: Scope, whole: seq<Unit>, ext: set<int>, t0: int, t1: int, t: int, op: BinaryOp, src1: Operand, src2: Operand)
    requires Readable(sc, whole, src1) && Readable(sc, whole, src2) && t0 <= t < t1
    ensures !Logical(op) ==> UnitTidy(sc, whole, ext, t0, t1, ExprB(Temp(t), op, src1, src2))
    ensures UnitTidy(sc, whole, ext, t0, t1, ExprAR(Temp(t), src1, src2))
    ensures forall uop :: UnitTidy(sc, whole, ext, t0, t1, ExprU(Temp(t), uop, src1))
  {
    hide Readable;
  }

  lemma JumpTidy(sc: Scope, whole: seq<Unit>, ext: set<int>, t0: int, t1: int, l: int, o: Operand)
    requires Label(l) in whole || l in ext
    ensures UnitTidy(sc, whole, ext, t0, t1, JumpU(l)) && UnitTidy(sc, whole, ext, t0, t1, Label(l))
    ensures Readable(sc, whole, o) && !o.Lit? ==> UnitTidy(sc, whole, ext, t0, t1, JumpC(l, o))
  {
    hide Readable;
  }

  lemma LitReadable(sc: Scope, whole: seq<Unit>, w: Word)
    ensures Readable(sc, whole, Lit(w))
  {
  }

  /** The result of a computation is the temporary that the last unit writes. */
  lemma ResultTidy(sc: Scope, code: seq<Unit>, lo: int, hi: int, t0: int, t1: int, u: Unit, t: int, l: int)
    requires Tidy(sc, code, code, {}, lo, hi, t0, t1) && u in code && Destination(u) == Some(Temp(t))
    requires t0 <= t1 && lo <= hi
    ensures GenTidy(sc, Gen(code, Temp(t), t1, hi), t0, lo)
  {
    TempWritten(code, u, t);
    hide Tidy, Writes, Named;
  }

  lemma LiteralTidy(sc: Scope, v: Word, t: int, l: int)
    ensures GenTidy(sc, Gen([ExprC(Temp(t), Lit(v))], Temp(t), t + 1, l), t, l)
  {
    hide Tidy, UnitTidy, Readable, GenTidy;
    var u := ExprC(Temp(t), Lit(v));
    LitReadable(sc, [u], v);
    CopyTidy(sc, [u], {}, t, t + 1, t, Lit(v));
    One(sc, u, [u], {}, l, l, t, t + 1);
    ResultTidy(sc, [u], l, l, t, t + 1, u, t, l);
  }

  lemma SymbolTidy(sc: Scope, e: Expr, t: int, l: int)
    requires e.Symbol? && ExprScoped(sc, e)
    ensures GenTidy(sc, Gen([], e.op, t, l), t, l)
  {
  }

  lemma GenMeans(sc: Scope, g: Gen, t: int, l: int)
    requires GenTidy(sc, g, t, l)
    ensures t <= g.temps && l <= g.labels && Tidy(sc, g.code, g.code, {}, l, g.labels, t, g.temps)
    ensures Readable(sc, g.code, g.result) && !g.result.Lit?
  {
    hide Tidy, Readable;
  }

  lemma ReadableWider(sc: Scope, code: seq<Unit>, whole: seq<Unit>, o: Operand)
    requires Readable(sc, code, o) && Part(code, whole)
    ensures Readable(sc, whole, o)
  {
    if o.Temp? && !Named(sc, o) {
      WritesWider(code, whole, o.id);
    }
    hide Writes, Named;
  }

  lemma UnaryTidy(sc: Scope, op: UnaryOp, g: Gen, t: int, l: int)
    requires GenTidy(sc, g, t, l)
    ensures GenTidy(sc, Gen(g.code + [ExprU(Temp(g.temps), op, g.result)], Temp(g.temps), g.temps + 1, g.labels), t, l)
  {
    hide Tidy, UnitTidy, Readable, GenTidy;
    GenMeans(sc, g, t, l);
    var u, m, t1 := ExprU(Temp(g.temps), op, g.result), g.labels, g.temps + 1;
    var whole := g.code + [u];
    Wider(sc, g.code, g.code, {}, l, m, t, g.temps, whole, {}, l, m, t, t1);
    ReadableWider(sc, g.code, whole, g.result);
    ComputeTidy(sc, whole, {}, t, t1, g.temps, Plus, g.result, g.result);
    One(sc, u, whole, {}, m, m, t, t1);
    Join(sc, g.code, l, m, [u], m, m, whole, {}, l, m, t, t1);
    ResultTidy(sc, whole, l, m, t, t1, u, g.temps, l);
  }

  lemma ArithTidy(sc: Scope, op: BinaryOp, g0: Gen, g1: Gen, t: int, l: int)
    requires GenTidy(sc, g0, t, l) && GenTidy(sc, g1, g0.temps, g0.labels) && !Logical(op)
    ensures GenTidy(sc,
              Gen(g0.code + g1.code + [ExprB(Temp(g1.temps), op, g0.result, g1.result)], Temp(g1.temps), g1.temps + 1, g1.labels),
              t, l)
  {
    hide Tidy, UnitTidy, Readable, GenTidy;
    GenMeans(sc, g0, t, l);
    GenMeans(sc, g1, g0.temps, g0.labels);
    var u, m, t1 := ExprB(Temp(g1.temps), op, g0.result, g1.result), g1.labels, g1.temps + 1;
    var whole := g0.code + g1.code + [u];
    PairTidy(sc, g0, g1, t, l, whole, m, t1);
    ComputeTidy(sc, whole, {}, t, t1, g1.temps, op, g0.result, g1.result);
    One(sc, u, whole, {}, m, m, t, t1);
    Join(sc, g0.code, l, g0.labels, g1.code, g0.labels, m, whole, {}, l, m, t, t1);
    Join(sc, g0.code + g1.code, l, m, [u], m, m, whole, {}, l, m, t, t1);
    ResultTidy(sc, whole, l, m, t, t1, u, g1.temps, l);
  }

  lemma OffsetTidy(sc: Scope, g0: Gen, g1: Gen, t: int, l: int, stride: Operand, scalar: bool)
    requires GenTidy(sc, g0, t, l) && GenTidy(sc, g1, g0.temps, g0.labels) && stride.Lit?
    ensures var disp, temp := Temp(g1.temps), Temp(g1.temps + 1);
            GenTidy(sc,
              Gen(g0.code + g1.code
                  + [ExprB(disp, Mult, g1.result, stride),
                     if !scalar then ExprB(temp, Plus, g0.result, disp) else ExprAR(temp, g0.result, disp)],
                  temp, g1.temps + 2, g1.labels),
              t, l)
  {
    hide Tidy, UnitTidy, Readable, GenTidy;
    GenMeans(sc, g0, t, l);
    GenMeans(sc, g1, g0.temps, g0.labels);
    var disp, temp, m, t1 := Temp(g1.temps), Temp(g1.temps + 1), g1.labels, g1.temps + 2;
    var u := ExprB(disp, Mult, g1.result, stride);
    var v := if !scalar then ExprB(temp, Plus, g0.result, disp) else ExprAR(temp, g0.result, disp);
    var whole := g0.code + g1.code + [u, v];
    assert u in whole && v in whole;
    PairTidy(sc, g0, g1, t, l, whole, m, t1);
    LitReadable(sc, whole, stride.word);
    TempWritten(whole, u, g1.temps);
    TempReadable(sc, whole, g1.temps);
    ComputeTidy(sc, whole, {}, t, t1, g1.temps, Mult, g1.result, stride);
    ComputeTidy(sc, whole, {}, t, t1, g1.temps + 1, Plus, g0.result, disp);
    Several(sc, [u, v], whole, {}, m, m, t, t1);
    Join(sc, g0.code, l, g0.labels, g1.code, g0.labels, m, whole, {}, l, m, t, t1);
    Join(sc, g0.code + g1.code, l, m, [u, v], m, m, whole, {}, l, m, t, t1);
    ResultTidy(sc, whole, l, m, t, t1, v, g1.temps + 1, l);
  }

  lemma TempReadable(sc: Scope, whole: seq<Unit>, t: int)
    requires Writes(whole, t)
    ensures Readable(sc, whole, Temp(t))
  {
  }

  lemma AndTidy(sc: Scope, g0: Gen, g1: Gen, t: int, l: int)
    requires GenTidy(sc, g0, t, l) && GenTidy(sc, g1, g0.temps, g0.labels)
    ensures var temp, mid, end := Temp(g1.temps), g1.labels, g1.labels + 1;
            GenTidy(sc,
              Gen(g0.code + [JumpC(mid, g0.result)] + g1.code
                  + [ExprC(temp, g1.result), JumpU(end), Label(mid), ExprC(temp, Lit(0)), Label(end)],
                  temp, g1.temps + 1, g1.labels + 2),
              t, l)
  {
    hide Tidy, UnitTidy, Readable, GenTidy;
    GenMeans(sc, g0, t, l);
    GenMeans(sc, g1, g0.temps, g0.labels);
    var temp, mid, end, t1 := g1.temps, g1.labels, g1.labels + 1, g1.temps + 1;
    var jump, put, zero := JumpC(mid, g0.result), [ExprC(Temp(temp), g1.result), JumpU(end)], ExprC(Temp(temp), Lit(0));
    var last := put + [Label(mid)] + [zero] + [Label(end)];
    assert last == [put[0], put[1], Label(mid), zero, Label(end)];
    var whole := g0.code + [jump] + g1.code + last;
    assert Label(mid) in last && Label(end) in last && zero in last;
    PairTidy(sc, g0, g1, t, l, whole, mid, t1);
    LitReadable(sc, whole, 0);
    JumpTidy(sc, whole, {}, t, t1, mid, g0.result);
    JumpTidy(sc, whole, {}, t, t1, end, g0.result);
    CopyTidy(sc, whole, {}, t, t1, temp, g1.result);
    CopyTidy(sc, whole, {}, t, t1, temp, Lit(0));
    Several(sc, put, whole, {}, mid, mid, t, t1);
    One(sc, Label(mid), whole, {}, mid, end, t, t1);
    One(sc, zero, whole, {}, end, end, t, t1);
    One(sc, Label(end), whole, {}, end, end + 1, t, t1);
    Join(sc, put, mid, mid, [Label(mid)], mid, end, whole, {}, mid, end, t, t1);
    Join(sc, put + [Label(mid)], mid, end, [zero], end, end, whole, {}, mid, end, t, t1);
    Join(sc, put + [Label(mid)] + [zero], mid, end, [Label(end)], end, end + 1, whole, {}, mid, end + 1, t, t1);
    One(sc, jump, whole, {}, g0.labels, g0.labels, t, t1);
    Join(sc, g0.code, l, g0.labels, [jump], g0.labels, g0.labels, whole, {}, l, g0.labels, t, t1);
    Join(sc, g0.code + [jump], l, g0.labels, g1.code, g0.labels, mid, whole, {}, l, mid, t, t1);
    Join(sc, g0.code + [jump] + g1.code, l, mid, last, mid, end + 1, whole, {}, l, end + 1, t, t1);
    ResultTidy(sc, whole, l, end + 1, t, t1, zero, temp, l);
  }

  lemma OrTidy(sc: Scope, g0: Gen, g1: Gen, t: int, l: int)
    requires GenTidy(sc, g0, t, l) && GenTidy(sc, g1, g0.temps, g0.labels)
    ensures var temp, mid, end := Temp(g1.temps), g1.labels, g1.labels + 1;
            GenTidy(sc,
              Gen(g0.code + [JumpC(mid, g0.result), ExprC(temp, Lit(1)), JumpU(end), Label(mid)] + g1.code
                  + [ExprC(temp, g1.result), Label(end)],
                  temp, g1.temps + 1, g1.labels + 2),
              t, l)
  {
    hide Tidy, UnitTidy, Readable, GenTidy;
    GenMeans(sc, g0, t, l);
    GenMeans(sc, g1, g0.temps, g0.labels);
    var temp, mid, end, t1 := g1.temps, g1.labels, g1.labels + 1, g1.temps + 1;
    var one, put := ExprC(Temp(temp), Lit(1)), ExprC(Temp(temp), g1.result);
    var first := [JumpC(mid, g0.result), one, JumpU(end)];
    var head, last := first + [Label(mid)], [put] + [Label(end)];
    assert head == [first[0], one, first[2], Label(mid)] && last == [put, Label(end)];
    var whole := g0.code + head + g1.code + last;
    assert Label(mid) in head && Label(end) in last && put in last;
    PairTidy(sc, g0, g1, t, l, whole, mid, t1);
    LitReadable(sc, whole, 1);
    JumpTidy(sc, whole, {}, t, t1, mid, g0.result);
    JumpTidy(sc, whole, {}, t, t1, end, g0.result);
    CopyTidy(sc, whole, {}, t, t1, temp, g1.result);
    CopyTidy(sc, whole, {}, t, t1, temp, Lit(1));
    Several(sc, first, whole, {}, mid, mid, t, t1);
    One(sc, Label(mid), whole, {}, mid, end, t, t1);
    Join(sc, first, mid, mid, [Label(mid)], mid, end, whole, {}, mid, end, t, t1);
    One(sc, put, whole, {}, end, end, t, t1);
    One(sc, Label(end), whole, {}, end, end + 1, t, t1);
    Join(sc, [put], end, end, [Label(end)], end, end + 1, whole, {}, end, end + 1, t, t1);
    Join(sc, head, mid, end, g1.code, g0.labels, mid, whole, {}, g0.labels, end, t, t1);
    Join(sc, head + g1.code, g0.labels, end, last, end, end + 1, whole, {}, g0.labels, end + 1, t, t1);
    Join(sc, g0.code, l, g0.labels, head + g1.code + last, g0.labels, end + 1, whole, {}, l, end + 1, t, t1);
    assert whole == g0.code + (head + g1.code + last);
    ResultTidy(sc, whole, l, end + 1, t, t1, put, temp, l);
  }

  // ----- arguments and calls -----

  ghost predicate ArgsTidy(sc: Scope, a: GenArgs, n: nat, t: int, l: int) {
    && t <= a.temps && l <= a.labels && |a.ops| == n
    && Tidy(sc, a.code, a.code, {}, l, a.labels, t, a.temps)
    && (forall o :: o in a.ops ==> Readable(sc, a.code, o))
  }

  lemma CopiedTidy(sc: Scope, g: Gen, t: int, l: int)
    requires GenTidy(sc, g, t, l)
    ensures GenTidy(sc, Gen(g.code + [ExprC(Temp(g.temps), g.result)], Temp(g.temps), g.temps + 1, g.labels), t, l)
  {
    hide Tidy, UnitTidy, Readable, GenTidy;
    GenMeans(sc, g, t, l);
    var u, m, t1 := ExprC(Temp(g.temps), g.result), g.labels, g.temps + 1;
    var whole := g.code + [u];
    Wider(sc, g.code, g.code, {}, l, m, t, g.temps, whole, {}, l, m, t, t1);
    ReadableWider(sc, g.code, whole, g.result);
    CopyTidy(sc, whole, {}, t, t1, g.temps, g.result);
    One(sc, u, whole, {}, m, m, t, t1);
    Join(sc, g.code, l, m, [u], m, m, whole, {}, l, m, t, t1);
    ResultTidy(sc, whole, l, m, t, t1, u, g.temps, l);
  }

  lemma ArgumentsJoin(sc: Scope, h: Gen, rest: GenArgs, n: nat, t: int, l: int)
    requires GenTidy(sc, h, t, l) && ArgsTidy(sc, rest, n, h.temps, h.labels)
    ensures ArgsTidy(sc, GenArgs(h.code + rest.code, [h.result] + rest.ops, rest.temps, rest.labels), n + 1, t, l)
  {
    GenMeans(sc, h, t, l);
    hide Tidy, Readable, GenTidy;
    var whole := h.code + rest.code;
    Wider(sc, h.code, h.code, {}, l, h.labels, t, h.temps, whole, {}, l, h.labels, t, rest.temps);
    Wider(sc, rest.code, rest.code, {}, h.labels, rest.labels, h.temps, rest.temps, whole, {}, h.labels, rest.labels, t, rest.temps);
    Join(sc, h.code, l, h.labels, rest.code, h.labels, rest.labels, whole, {}, l, rest.labels, t, rest.temps);
    forall o | o in [h.result] + rest.ops ensures Readable(sc, whole, o) {
      if o == h.result {
        ReadableWider(sc, h.code, whole, o);
      } else {
        ReadableWider(sc, rest.code, whole, o);
      }
    }
  }

  lemma {:induction false} ArgumentsTidy(sc: Scope, args: seq<Expr>, t: int, l: int)
    requires forall a :: a in args ==> ExprScoped(sc, a)
    ensures ArgsTidy(sc, GenArguments(args, t, l), |args|, t, l)
    decreases args, 0
  {
    hide ExprScoped, GenExpr, GenTidy;
    if args != [] {
      ExprTidy(sc, args[0], t, l);
      CopiedTidy(sc, GenExpr(args[0], t, l), t, l);
      var h := ArgGen(args[0], t, l);
      ArgumentsTidy(sc, args[1..], h.temps, h.labels);
      ArgumentsJoin(sc, h, GenArguments(args[1..], h.temps, h.labels), |args| - 1, t, l);
    }
    hide ArgsTidy;
    NoArguments(sc, t, l);
  }

  lemma NoArguments(sc: Scope, t: int, l: int)
    ensures ArgsTidy(sc, GenArgs([], [], t, l), 0, t, l)
  {
  }

  lemma {:induction false} PushCounts(us: seq<Unit>, i: nat)
    requires i <= |us| && forall k :: 0 <= k < i ==> us[k].Arg?
    ensures Backend.ParamAt(us, i) == i
  {
    if i > 0 {
      PushCounts(us, i - 1);
    }
  }

  /** Arguments and their call. */
  lemma PushTidy(
    sc: Scope, us: seq<Unit>, call: Unit, whole: seq<Unit>, ext: set<int>, lo: int, t0: int, t1: int)
    requires |us| <= 12 && (forall u :: u in us ==> u.Arg? && Readable(sc, whole, u.val))
    requires IsCall(call) && UnitTidy(sc, whole, ext, t0, t1, call)
    ensures Tidy(sc, us + [call], whole, ext, lo, lo, t0, t1)
  {
    var code := us + [call];
    forall i | 0 <= i < |code| && code[i].Arg?
      ensures i + 1 < |code| && (code[i + 1].Arg? || IsCall(code[i + 1])) && Backend.ParamAt(code, i) < 12
    {
      PushCounts(code, i);
      if i < |us| {
        assert us[i] in us;
      }
      if i + 1 < |us| {
        assert us[i + 1] in us;
      }
    }
    hide Readable;
  }

  lemma CallUnitTidy(sc: Scope, whole: seq<Unit>, ext: set<int>, t0: int, t1: int, name: string, t: int)
    ensures t0 <= t < t1 ==> UnitTidy(sc, whole, ext, t0, t1, CallI(name, Temp(t)))
    ensures UnitTidy(sc, whole, ext, t0, t1, CallV(name))
  {
  }

  /** Evaluated arguments, further ones, and the call. */
  lemma CallTidy(sc: Scope, a: GenArgs, n: nat, extra: seq<Unit>, call: Unit, t: int, l: int, t1: int)
    requires ArgsTidy(sc, a, n, t, l) && n + |extra| <= 12 && IsCall(call) && a.temps <= t1
    requires forall u :: u in extra ==> u.Arg? && u.val.Lit?
    requires call.CallI? ==> call.dst == Temp(a.temps) && a.temps < t1
    ensures var code := a.code + (Params(a.ops) + extra + [call]);
            Tidy(sc, code, code, {}, l, a.labels, t, t1)
  {
    hide Tidy, UnitTidy, Readable;
    var us := Params(a.ops) + extra;
    var whole := a.code + (us + [call]);
    Wider(sc, a.code, a.code, {}, l, a.labels, t, a.temps, whole, {}, l, a.labels, t, t1);
    forall u | u in us ensures u.Arg? && Readable(sc, whole, u.val) {
      if u in Params(a.ops) {
        var i :| 0 <= i < |a.ops| && Params(a.ops)[i] == u;
        assert a.ops[i] in a.ops;
        ReadableWider(sc, a.code, whole, u.val);
      } else {
        LitReadable(sc, whole, u.val.word);
      }
    }
    CallUnitTidy(sc, whole, {}, t, t1, call.name, a.temps);
    PushTidy(sc, us, call, whole, {}, a.labels, t, t1);
    Join(sc, a.code, l, a.labels, us + [call], a.labels, a.labels, whole, {}, l, a.labels, t, t1);
  }

  lemma ReturnedTidy(sc: Scope, a: GenArgs, n: nat, t: int, l: int, name: string)
    requires ArgsTidy(sc, a, n, t, l) && n <= 12
    ensures GenTidy(sc,
              Gen(a.code + Params(a.ops) + [CallI(name, Temp(a.temps))], Temp(a.temps), a.temps + 1, a.labels), t, l)
  {
    var call := CallI(name, Temp(a.temps));
    var code := a.code + Params(a.ops) + [call];
    CallTidy(sc, a, n, [], call, t, l, a.temps + 1);
    assert a.code + (Params(a.ops) + [] + [call]) == code;
    hide Tidy, GenTidy, Readable;
    ResultTidy(sc, code, l, a.labels, t, a.temps + 1, call, a.temps, l);
  }

  /** The code of every scoped expression is well formed. */
  lemma {:induction false} ExprTidy(sc: Scope, e: Expr, t: int, l: int)
    requires ExprScoped(sc, e)
    ensures GenTidy(sc, GenExpr(e, t, l), t, l)
    decreases e, 1
  {
    hide GenTidy, ArgsTidy, GenArguments, ExprType, Readable, Tidy, UnitTidy, Params, IsScalar, Named;
    match e {
      case Literal(v) => LiteralTidy(sc, v, t, l);
      case Symbol(_, _) => SymbolTidy(sc, e, t, l);
      case UnaryExpr(op, ch) =>
        ExprTidy(sc, ch, t, l);
        if op != UPlus {
          UnaryTidy(sc, op, GenExpr(ch, t, l), t, l);
        }
      case BinaryExpr(op, ch0, ch1) =>
        var g0 := GenExpr(ch0, t, l);
        ExprTidy(sc, ch0, t, l);
        ExprTidy(sc, ch1, g0.temps, g0.labels);
        var g1 := GenExpr(ch1, g0.temps, g0.labels);
        if op == And {
          AndTidy(sc, g0, g1, t, l);
        } else if op == Or {
          OrTidy(sc, g0, g1, t, l);
        } else {
          ArithTidy(sc, op, g0, g1, t, l);
        }
      case OffsetExpr(arr, off) =>
        var g0 := GenExpr(arr, t, l);
        ExprTidy(sc, arr, t, l);
        ExprTidy(sc, off, g0.temps, g0.labels);
        OffsetTidy(sc, g0, GenExpr(off, g0.temps, g0.labels), t, l, ByteStride(arr), IsScalar(e));
      case CallExpr(kind, name, args) =>
        ArgumentsTidy(sc, args, t, l);
        var a := GenArguments(args, t, l);
        ReturnedTidy(sc, a, |args|, t, l, name);
    }
  }

  // ----- statements -----

  ghost predicate DecsOk(sc: Scope, decs: seq<Symb>) {
    forall d :: d in decs ==>
      (d.name.Var? || d.name.Param?)
      && if d.len == 0 then d.name in sc.scalars else d.len > 0 && d.len % 4 == 0 && d.name in sc.arrays
  }

  ghost predicate StmtGenTidy(sc: Scope, g: GenS, ext: set<int>, t: int, l: int) {
    && t <= g.temps && l <= g.labels && DecsOk(sc, g.decs)
    && Tidy(sc, g.code, g.code, ext, l, g.labels, t, g.temps)
  }

  /** The labels outside a statement that it may jump to. */
  ghost function Targets(cont: Option<int>, brk: Option<int>): set<int> {
    (if cont.Some? then {cont.value} else {}) + (if brk.Some? then {brk.value} else {})
  }

  lemma StmtMeans(sc: Scope, g: GenS, ext: set<int>, t: int, l: int)
    requires StmtGenTidy(sc, g, ext, t, l)
    ensures t <= g.temps && l <= g.labels && DecsOk(sc, g.decs)
    ensures Tidy(sc, g.code, g.code, ext, l, g.labels, t, g.temps)
  {
    hide Tidy, DecsOk;
  }

  lemma StmtIs(sc: Scope, code: seq<Unit>, decs: seq<Symb>, ext: set<int>, t: int, l: int, t1: int, l1: int)
    requires t <= t1 && l <= l1 && DecsOk(sc, decs) && Tidy(sc, code, code, ext, l, l1, t, t1)
    ensures StmtGenTidy(sc, GenS(code, decs, t1, l1), ext, t, l)
  {
    hide Tidy, DecsOk;
  }

  lemma NoDecs(sc: Scope)
    ensures DecsOk(sc, [])
  {
  }

  lemma DecsJoin(sc: Scope, a: seq<Symb>, b: seq<Symb>)
    requires DecsOk(sc, a) && DecsOk(sc, b)
    ensures DecsOk(sc, a + b)
  {
  }

  lemma NoCode(sc: Scope, ext: set<int>, t: int, l: int)
    ensures StmtGenTidy(sc, GenS([], [], t, l), ext, t, l)
  {
  }

  /** A statement of one unit. */
  lemma UnitStmtTidy(sc: Scope, u: Unit, ext: set<int>, t: int, l: int)
    requires UnitTidy(sc, [u], ext, t, t, u) && !u.Arg? && !u.Label?
    ensures StmtGenTidy(sc, GenS([u], [], t, l), ext, t, l)
  {
    hide Tidy, UnitTidy, DecsOk;
    One(sc, u, [u], ext, l, l, t, t);
    NoDecs(sc);
    StmtIs(sc, [u], [], ext, t, l, t, l);
  }

  lemma JumpOutTidy(sc: Scope, target: Option<int>, ext: set<int>, t: int, l: int)
    requires target.Some? && target.value in ext
    ensures StmtGenTidy(sc, GenS([JumpU(LabelOr0(target))], [], t, l), ext, t, l)
  {
    hide Tidy, UnitTidy, DecsOk, StmtGenTidy;
    JumpTidy(sc, [JumpU(target.value)], ext, t, t, target.value, Lit(0));
    UnitStmtTidy(sc, JumpU(target.value), ext, t, l);
  }

  /** An expression and a unit that uses its result. */
  lemma UseTidy(sc: Scope, g: Gen, u: Unit, ext: set<int>, t: int, l: int)
    requires GenTidy(sc, g, t, l) && !u.Arg? && !u.Label?
    requires UnitTidy(sc, g.code + [u], ext, t, g.temps, u)
    ensures StmtGenTidy(sc, GenS(g.code + [u], [], g.temps, g.labels), ext, t, l)
  {
    hide Tidy, UnitTidy, Readable, DecsOk, GenTidy, StmtGenTidy;
    GenMeans(sc, g, t, l);
    var whole := g.code + [u];
    Wider(sc, g.code, g.code, {}, l, g.labels, t, g.temps, whole, ext, l, g.labels, t, g.temps);
    One(sc, u, whole, ext, g.labels, g.labels, t, g.temps);
    Join(sc, g.code, l, g.labels, [u], g.labels, g.labels, whole, ext, l, g.labels, t, g.temps);
    NoDecs(sc);
    StmtIs(sc, whole, [], ext, t, l, g.temps, g.labels);
  }

  lemma ReturnTidy(sc: Scope, g: Gen, ext: set<int>, t: int, l: int)
    requires GenTidy(sc, g, t, l)
    ensures StmtGenTidy(sc, GenS(g.code + [RetI(g.result)], [], g.temps, g.labels), ext, t, l)
  {
    hide Tidy, Readable, DecsOk, GenTidy, StmtGenTidy;
    GenMeans(sc, g, t, l);
    ReadableWider(sc, g.code, g.code + [RetI(g.result)], g.result);
    UseTidy(sc, g, RetI(g.result), ext, t, l);
  }

  lemma StoreUnitTidy(sc: Scope, whole: seq<Unit>, ext: set<int>, t0: int, t1: int, op: Operand, src: Operand, incr: Operand)
    requires Readable(sc, whole, src) && Readable(sc, whole, incr)
    ensures Named(sc, op) && op in sc.scalars ==> UnitTidy(sc, whole, ext, t0, t1, ExprC(op, src))
    ensures Readable(sc, whole, op) && !op.Lit? ==> UnitTidy(sc, whole, ext, t0, t1, ExprAW(op, incr, src))
  {
    hide Readable;
  }

  lemma NamedReadable(sc: Scope, whole: seq<Unit>, op: Operand)
    requires Named(sc, op)
    ensures Readable(sc, whole, op) && !op.Lit?
  {
  }

  /** Storing the result of an expression. */
  lemma PutTidy(sc: Scope, g: Gen, op: Operand, length: int, offset: Word, ext: set<int>, t: int, l: int)
    requires GenTidy(sc, g, t, l) && Named(sc, op) && (length <= 0 ==> op in sc.scalars)
    ensures var put := if length > 0 then ExprAW(op, Lit(offset), g.result) else ExprC(op, g.result);
            StmtGenTidy(sc, GenS(g.code + [put], [], g.temps, g.labels), ext, t, l)
  {
    hide Tidy, Readable, DecsOk, GenTidy, StmtGenTidy, UnitTidy, Named;
    GenMeans(sc, g, t, l);
    var put := if length > 0 then ExprAW(op, Lit(offset), g.result) else ExprC(op, g.result);
    var whole := g.code + [put];
    ReadableWider(sc, g.code, whole, g.result);
    LitReadable(sc, whole, offset);
    NamedReadable(sc, whole, op);
    StoreUnitTidy(sc, whole, ext, t, g.temps, op, g.result, Lit(offset));
    UseTidy(sc, g, put, ext, t, l);
  }

  /** Two statements in a row. */
  lemma SequenceTidy(sc: Scope, g0: GenS, g1: GenS, ext: set<int>, t: int, l: int)
    requires StmtGenTidy(sc, g0, ext, t, l) && StmtGenTidy(sc, g1, ext, g0.temps, g0.labels)
    ensures StmtGenTidy(sc, GenS(g0.code + g1.code, g0.decs + g1.decs, g1.temps, g1.labels), ext, t, l)
  {
    hide Tidy, UnitTidy, DecsOk, StmtGenTidy;
    StmtMeans(sc, g0, ext, t, l);
    StmtMeans(sc, g1, ext, g0.temps, g0.labels);
    var whole := g0.code + g1.code;
    Wider(sc, g0.code, g0.code, ext, l, g0.labels, t, g0.temps, whole, ext, l, g0.labels, t, g1.temps);
    Wider(sc, g1.code, g1.code, ext, g0.labels, g1.labels, g0.temps, g1.temps, whole, ext, g0.labels, g1.labels, t, g1.temps);
    Join(sc, g0.code, l, g0.labels, g1.code, g0.labels, g1.labels, whole, ext, l, g1.labels, t, g1.temps);
    DecsJoin(sc, g0.decs, g1.decs);
    StmtIs(sc, whole, g0.decs + g1.decs, ext, t, l, g1.temps, g1.labels);
  }

  lemma {:induction false} InitTidy(sc: Scope, op: Operand, length: int, init: seq<Alignment>, ext: set<int>, t: int, l: int)
    requires Named(sc, op) && (length <= 0 ==> op in sc.scalars) && forall a :: a in init ==> ExprScoped(sc, a.exp)
    ensures StmtGenTidy(sc, GenInit(op, length, init, t, l), ext, t, l) && GenInit(op, length, init, t, l).decs == []
    decreases |init|
  {
    hide Tidy, UnitTidy, DecsOk, StmtGenTidy, GenTidy, GenExpr, ExprScoped, Named;
    if init == [] {
      NoCode(sc, ext, t, l);
    } else {
      assert init[0] in init;
      ExprTidy(sc, init[0].exp, t, l);
      var g := GenExpr(init[0].exp, t, l);
      PutTidy(sc, g, op, length, Wrap(init[0].offset * 4), ext, t, l);
      InitTidy(sc, op, length, init[1..], ext, g.temps, g.labels);
      var put := if length > 0 then ExprAW(op, Lit(Wrap(init[0].offset * 4)), g.result) else ExprC(op, g.result);
      var rest := GenInit(op, length, init[1..], g.temps, g.labels);
      SequenceTidy(sc, GenS(g.code + [put], [], g.temps, g.labels), rest, ext, t, l);
      assert [] + rest.decs == [];
    }
  }

  lemma DeclareTidy(sc: Scope, g: GenS, op: Operand, length: int, ext: set<int>, t: int, l: int)
    requires StmtGenTidy(sc, g, ext, t, l) && Named(sc, op)
    requires if length > 0 then op in sc.arrays else op in sc.scalars
    ensures StmtGenTidy(sc, g.(decs := [DeclarationCast(op, length)]), ext, t, l)
  {
    hide Tidy;
  }

  /** Assigning to an array element. */
  lemma ElementTidy(sc: Scope, g: Gen, g0: Gen, g1: Gen, stride: Operand, ext: set<int>, t: int, l: int)
    requires GenTidy(sc, g, t, l) && GenTidy(sc, g0, g.temps, g.labels) && GenTidy(sc, g1, g0.temps, g0.labels) && stride.Lit?
    ensures var disp := Temp(g1.temps);
            StmtGenTidy(sc,
              GenS(g.code + g0.code + g1.code + [ExprB(disp, Mult, g1.result, stride), ExprAW(g0.result, disp, g.result)],
                   [], g1.temps + 1, g1.labels),
              ext, t, l)
  {
    hide Tidy, Readable, DecsOk, GenTidy, StmtGenTidy, UnitTidy;
    GenMeans(sc, g, t, l);
    GenMeans(sc, g0, g.temps, g.labels);
    GenMeans(sc, g1, g0.temps, g0.labels);
    var disp, m, t1 := Temp(g1.temps), g1.labels, g1.temps + 1;
    var u, v := ExprB(disp, Mult, g1.result, stride), ExprAW(g0.result, disp, g.result);
    var whole := g.code + g0.code + g1.code + [u, v];
    assert u in whole && v in whole;
    Wider(sc, g.code, g.code, {}, l, g.labels, t, g.temps, whole, ext, l, g.labels, t, t1);
    Wider(sc, g0.code, g0.code, {}, g.labels, g0.labels, g.temps, g0.temps, whole, ext, g.labels, g0.labels, t, t1);
    Wider(sc, g1.code, g1.code, {}, g0.labels, m, g0.temps, g1.temps, whole, ext, g0.labels, m, t, t1);
    ReadableWider(sc, g.code, whole, g.result);
    ReadableWider(sc, g0.code, whole, g0.result);
    ReadableWider(sc, g1.code, whole, g1.result);
    LitReadable(sc, whole, stride.word);
    TempWritten(whole, u, g1.temps);
    TempReadable(sc, whole, g1.temps);
    ComputeTidy(sc, whole, ext, t, t1, g1.temps, Mult, g1.result, stride);
    StoreUnitTidy(sc, whole, ext, t, t1, g0.result, g.result, disp);
    Several(sc, [u, v], whole, ext, m, m, t, t1);
    Join(sc, g.code, l, g.labels, g0.code, g.labels, g0.labels, whole, ext, l, g0.labels, t, t1);
    Join(sc, g.code + g0.code, l, g0.labels, g1.code, g0.labels, m, whole, ext, l, m, t, t1);
    Join(sc, g.code + g0.code + g1.code, l, m, [u, v], m, m, whole, ext, l, m, t, t1);
    NoDecs(sc);
    StmtIs(sc, whole, [], ext, t, l, t1, m);
  }

  /** A call whose value, if any, is dropped. */
  lemma DroppedCallTidy(sc: Scope, e: Expr, ext: set<int>, t: int, l: int)
    requires e.CallExpr? && CallScoped(sc, e)
    ensures var g := GenExpr(e, t, l); StmtGenTidy(sc, GenS(g.code, [], g.temps, g.labels), ext, t, l)
  {
    hide Tidy, Readable, DecsOk, GenTidy, StmtGenTidy, UnitTidy, ExprScoped, GenArguments, Params;
    var a, g := GenArguments(e.args, t, l), GenExpr(e, t, l);
    ArgumentsTidy(sc, e.args, t, l);
    var extra := if e.kind.MacroCall? then [Arg(Lit(e.kind.line))] else [];
    var call :=
      match e.kind
      case MacroCall(_) => CallV(MACRO_PREFIX + e.name)
      case IntCall => CallI(e.name, Temp(a.temps))
      case VoidCall => CallV(e.name);
    CallTidy(sc, a, |e.args|, extra, call, t, l, g.temps);
    assert g.code == a.code + (Params(a.ops) + extra + [call]);
    Wider(sc, g.code, g.code, {}, l, a.labels, t, g.temps, g.code, ext, l, a.labels, t, g.temps);
    NoDecs(sc);
    ArgsGrow(sc, a, |e.args|, t, l);
    StmtIs(sc, g.code, [], ext, t, l, g.temps, g.labels);
  }

  lemma ArgsGrow(sc: Scope, a: GenArgs, n: nat, t: int, l: int)
    requires ArgsTidy(sc, a, n, t, l)
    ensures t <= a.temps && l <= a.labels
  {
  }

  lemma EvaluatedTidy(sc: Scope, g: Gen, ext: set<int>, t: int, l: int)
    requires GenTidy(sc, g, t, l)
    ensures StmtGenTidy(sc, GenS(g.code, [], g.temps, g.labels), ext, t, l)
  {
    hide Tidy, Readable, DecsOk, GenTidy, StmtGenTidy;
    GenMeans(sc, g, t, l);
    Wider(sc, g.code, g.code, {}, l, g.labels, t, g.temps, g.code, ext, l, g.labels, t, g.temps);
    NoDecs(sc);
    StmtIs(sc, g.code, [], ext, t, l, g.temps, g.labels);
  }

  lemma ThenTidy(sc: Scope, g: Gen, g0: GenS, ext: set<int>, t: int, l: int)
    requires GenTidy(sc, g, t, l) && StmtGenTidy(sc, g0, ext, g.temps, g.labels)
    ensures StmtGenTidy(sc,
              GenS(g.code + [JumpC(g0.labels, g.result)] + g0.code + [Label(g0.labels)], g0.decs, g0.temps, g0.labels + 1),
              ext, t, l)
  {
    hide Tidy, Readable, DecsOk, GenTidy, StmtGenTidy, UnitTidy;
    GenMeans(sc, g, t, l);
    StmtMeans(sc, g0, ext, g.temps, g.labels);
    var end, t1 := g0.labels, g0.temps;
    var jump := JumpC(end, g.result);
    var whole := g.code + [jump] + g0.code + [Label(end)];
    assert Label(end) in whole;
    Wider(sc, g.code, g.code, {}, l, g.labels, t, g.temps, whole, ext, l, g.labels, t, t1);
    Wider(sc, g0.code, g0.code, ext, g.labels, end, g.temps, t1, whole, ext, g.labels, end, t, t1);
    ReadableWider(sc, g.code, whole, g.result);
    JumpTidy(sc, whole, ext, t, t1, end, g.result);
    One(sc, jump, whole, ext, g.labels, g.labels, t, t1);
    One(sc, Label(end), whole, ext, end, end + 1, t, t1);
    Join(sc, g.code, l, g.labels, [jump], g.labels, g.labels, whole, ext, l, g.labels, t, t1);
    Join(sc, g.code + [jump], l, g.labels, g0.code, g.labels, end, whole, ext, l, end, t, t1);
    Join(sc, g.code + [jump] + g0.code, l, end, [Label(end)], end, end + 1, whole, ext, l, end + 1, t, t1);
    StmtIs(sc, whole, g0.decs, ext, t, l, t1, end + 1);
  }

  lemma ElseTidy(sc: Scope, g: Gen, g0: GenS, g1: GenS, ext: set<int>, t: int, l: int)
    requires GenTidy(sc, g, t, l) && StmtGenTidy(sc, g0, ext, g.temps, g.labels) && StmtGenTidy(sc, g1, ext, g0.temps, g0.labels)
    ensures var els, end := g1.labels, g1.labels + 1;
            StmtGenTidy(sc,
              GenS(g.code + [JumpC(els, g.result)] + g0.code + [JumpU(end), Label(els)] + g1.code + [Label(end)],
                   g0.decs + g1.decs, g1.temps, g1.labels + 2),
              ext, t, l)
  {
    hide Tidy, Readable, DecsOk, GenTidy, StmtGenTidy, UnitTidy;
    GenMeans(sc, g, t, l);
    StmtMeans(sc, g0, ext, g.temps, g.labels);
    StmtMeans(sc, g1, ext, g0.temps, g0.labels);
    var els, end, t1 := g1.labels, g1.labels + 1, g1.temps;
    var jump, skip := JumpC(els, g.result), [JumpU(end)];
    var mid := skip + [Label(els)];
    assert mid == [JumpU(end), Label(els)];
    var whole := g.code + [jump] + g0.code + mid + g1.code + [Label(end)];
    assert Label(els) in mid && Label(end) in whole;
    Wider(sc, g.code, g.code, {}, l, g.labels, t, g.temps, whole, ext, l, g.labels, t, t1);
    Wider(sc, g0.code, g0.code, ext, g.labels, g0.labels, g.temps, g0.temps, whole, ext, g.labels, g0.labels, t, t1);
    Wider(sc, g1.code, g1.code, ext, g0.labels, els, g0.temps, t1, whole, ext, g0.labels, els, t, t1);
    ReadableWider(sc, g.code, whole, g.result);
    JumpTidy(sc, whole, ext, t, t1, els, g.result);
    JumpTidy(sc, whole, ext, t, t1, end, g.result);
    One(sc, jump, whole, ext, g.labels, g.labels, t, t1);
    Several(sc, skip, whole, ext, els, els, t, t1);
    One(sc, Label(els), whole, ext, els, end, t, t1);
    One(sc, Label(end), whole, ext, end, end + 1, t, t1);
    Join(sc, g.code, l, g.labels, [jump], g.labels, g.labels, whole, ext, l, g.labels, t, t1);
    Join(sc, g.code + [jump], l, g.labels, g0.code, g.labels, g0.labels, whole, ext, l, g0.labels, t, t1);
    Join(sc, skip, els, els, [Label(els)], els, end, whole, ext, els, end, t, t1);
    Join(sc, mid, els, end, g1.code, g0.labels, els, whole, ext, g0.labels, end, t, t1);
    Join(sc, mid + g1.code, g0.labels, end, [Label(end)], end, end + 1, whole, ext, g0.labels, end + 1, t, t1);
    Join(sc, g.code + [jump] + g0.code, l, g0.labels, mid + g1.code + [Label(end)], g0.labels, end + 1, whole, ext, l, end + 1, t, t1);
    assert whole == g.code + [jump] + g0.code + (mid + g1.code + [Label(end)]);
    DecsJoin(sc, g0.decs, g1.decs);
    StmtIs(sc, whole, g0.decs + g1.decs, ext, t, l, t1, end + 1);
  }

  /** A loop body may jump to the labels of its loop, which the loop defines. */
  lemma LoopTidy(sc: Scope, g: Gen, g0: GenS, ext: set<int>, t: int, l: int)
    requires GenTidy(sc, g, t, l)
    requires StmtGenTidy(sc, g0, {g.labels, g.labels + 1}, g.temps, g.labels + 2)
    ensures var start, end := g.labels, g.labels + 1;
            StmtGenTidy(sc,
              GenS([Label(start)] + g.code + [JumpC(end, g.result)] + g0.code + [JumpU(start), Label(end)],
                   g0.decs, g0.temps, g0.labels),
              ext, t, l)
  {
    hide Tidy, Readable, DecsOk, GenTidy, StmtGenTidy, UnitTidy;
    GenMeans(sc, g, t, l);
    var start, end, t1 := g.labels, g.labels + 1, g0.temps;
    StmtMeans(sc, g0, {start, end}, g.temps, g.labels + 2);
    var jump, back := JumpC(end, g.result), [JumpU(start)];
    var last := back + [Label(end)];
    assert last == [JumpU(start), Label(end)];
    var whole := [Label(start)] + g.code + [jump] + g0.code + last;
    assert Label(end) in last && Label(start) in whole;
    Wider(sc, g.code, g.code, {}, l, start, t, g.temps, whole, ext, l, start, t, t1);
    Looped(sc, g0.code, whole, start, end, ext, g.labels + 2, g0.labels, g.temps, t1);
    Wider(sc, g0.code, whole, ext, g.labels + 2, g0.labels, g.temps, t1, whole, ext, g.labels + 2, g0.labels, t, t1);
    ReadableWider(sc, g.code, whole, g.result);
    JumpTidy(sc, whole, ext, t, t1, end, g.result);
    JumpTidy(sc, whole, ext, t, t1, start, g.result);
    One(sc, Label(start), whole, ext, start, end, t, t1);
    One(sc, jump, whole, ext, end, end, t, t1);
    Several(sc, back, whole, ext, end, end, t, t1);
    One(sc, Label(end), whole, ext, end, end + 1, t, t1);
    Join(sc, [Label(start)], start, end, g.code, l, start, whole, ext, l, end, t, t1);
    Join(sc, [Label(start)] + g.code, l, end, [jump], end, end, whole, ext, l, end, t, t1);
    Join(sc, back, end, end, [Label(end)], end, end + 1, whole, ext, end, end + 1, t, t1);
    Join(sc, g0.code, end + 1, g0.labels, last, end, end + 1, whole, ext, end, g0.labels, t, t1);
    Join(sc, [Label(start)] + g.code + [jump], l, end, g0.code + last, end, g0.labels, whole, ext, l, g0.labels, t, t1);
    assert whole == [Label(start)] + g.code + [jump] + (g0.code + last);
    StmtIs(sc, whole, g0.decs, ext, t, l, t1, g0.labels);
  }

  lemma Looped(
    sc: Scope, code: seq<Unit>, whole: seq<Unit>, start: int, end: int, ext: set<int>, lo: int, hi: int, t0: int, t1: int)
    requires Tidy(sc, code, code, {start, end}, lo, hi, t0, t1) && Part(code, whole)
    requires Label(start) in whole && Label(end) in whole
    ensures Tidy(sc, code, whole, ext, lo, hi, t0, t1)
  {
    hide ArgsContiguous, ArgsFew, LabelsWithin;
    forall u | u in code ensures UnitTidy(sc, whole, ext, t0, t1, u) {
      LoopedUnit(sc, code, whole, start, end, ext, t0, t1, u);
    }
    hide UnitTidy;
  }

  lemma LoopedUnit(
    sc: Scope, code: seq<Unit>, whole: seq<Unit>, start: int, end: int, ext: set<int>, t0: int, t1: int, u: Unit)
    requires UnitTidy(sc, code, {start, end}, t0, t1, u) && Part(code, whole)
    requires Label(start) in whole && Label(end) in whole
    ensures UnitTidy(sc, whole, ext, t0, t1, u)
  {
    hide Optimize.EeyoreShape, Named;
  }

  lemma SymbolAssignTidy(sc: Scope, lhs: Expr, g: Gen, ext: set<int>, t: int, l: int)
    requires GenTidy(sc, g, t, l) && lhs.Symbol? && lhs.op in sc.scalars && ExprScoped(sc, lhs)
    ensures StmtGenTidy(sc, GenS(g.code + [ExprC(lhs.op, g.result)], [], g.temps, g.labels), ext, t, l)
  {
    hide GenTidy, StmtGenTidy;
    PutTidy(sc, g, lhs.op, 0, 0, ext, t, l);
  }

  /** The code of every scoped statement is well formed, and what it declares is in scope. */
  lemma {:induction false} StmtTidy(sc: Scope, s: Stmt, t: int, l: int, cont: Option<int>, brk: Option<int>, inLoop: bool)
    requires StmtScoped(sc, s, inLoop) && (inLoop ==> cont.Some? && brk.Some?)
    ensures StmtGenTidy(sc, GenStmt(s, t, l, cont, brk), Targets(cont, brk), t, l)
    decreases s, 1
  {
    hide GenTidy, StmtGenTidy, GenExpr, ExprScoped, GenInit, Named, Tidy, UnitTidy, GenBlock, DeclarationCast, CallScoped, ByteStride;
    var ext := Targets(cont, brk);
    match s {
      case Empty => NoCode(sc, ext, t, l);
      case Break => JumpOutTidy(sc, brk, ext, t, l);
      case Continue => JumpOutTidy(sc, cont, ext, t, l);
      case Block(items) => BlockTidy(sc, items, t, l, cont, brk, inLoop);
      case Declare(op, length, init) =>
        ScopedName(sc, op);
        InitTidy(sc, op, length, init, ext, t, l);
        DeclareTidy(sc, GenInit(op, length, init, t, l), op, length, ext, t, l);
      case AssignStmt(lhs, rhs) =>
        var g := GenExpr(rhs, t, l);
        ExprTidy(sc, rhs, t, l);
        if lhs.OffsetExpr? {
          OffsetScoped(sc, lhs);
          var g0 := GenExpr(lhs.arr, g.temps, g.labels);
          ExprTidy(sc, lhs.arr, g.temps, g.labels);
          ExprTidy(sc, lhs.off, g0.temps, g0.labels);
          StrideIsLit(lhs.arr);
          ElementTidy(sc, g, g0, GenExpr(lhs.off, g0.temps, g0.labels), ByteStride(lhs.arr), ext, t, l);
        } else {
          SymbolCode(lhs, g.temps, g.labels);
          SymbolAssignTidy(sc, lhs, g, ext, t, l);
        }
      case ExprStmt(e) =>
        if e.CallExpr? {
          DroppedCallTidy(sc, e, ext, t, l);
        } else {
          ExprTidy(sc, e, t, l);
          EvaluatedTidy(sc, GenExpr(e, t, l), ext, t, l);
        }
      case Return(v) =>
        if v.Some? {
          ExprTidy(sc, v.value, t, l);
          ReturnTidy(sc, GenExpr(v.value, t, l), ext, t, l);
        } else {
          RetVTidy(sc, ext, t, l);
        }
      case If(cond, thenClause, elseClause) =>
        var g := GenExpr(cond, t, l);
        ExprTidy(sc, cond, t, l);
        StmtTidy(sc, thenClause, g.temps, g.labels, cont, brk, inLoop);
        var g0 := GenStmt(thenClause, g.temps, g.labels, cont, brk);
        if elseClause.Some? {
          StmtTidy(sc, elseClause.value, g0.temps, g0.labels, cont, brk, inLoop);
          ElseTidy(sc, g, g0, GenStmt(elseClause.value, g0.temps, g0.labels, cont, brk), ext, t, l);
        } else {
          ThenTidy(sc, g, g0, ext, t, l);
        }
      case While(cond, body) =>
        var g := GenExpr(cond, t, l);
        ExprTidy(sc, cond, t, l);
        StmtTidy(sc, body, g.temps, g.labels + 2, Some(g.labels), Some(g.labels + 1), true);
        assert Targets(Some(g.labels), Some(g.labels + 1)) == {g.labels, g.labels + 1};
        LoopTidy(sc, g, GenStmt(body, g.temps, g.labels + 2, Some(g.labels), Some(g.labels + 1)), ext, t, l);
    }
  }

  lemma ScopedName(sc: Scope, op: Operand)
    ensures (op.Var? || op.Param?) && (op in sc.scalars || op in sc.arrays) ==> Named(sc, op)
  {
  }

  lemma OffsetScoped(sc: Scope, e: Expr)
    requires e.OffsetExpr? && ExprScoped(sc, e)
    ensures ExprScoped(sc, e.arr) && ExprScoped(sc, e.off)
  {
  }

  lemma StrideIsLit(arr: Expr)
    ensures ByteStride(arr).Lit?
  {
  }

  lemma SymbolCode(e: Expr, t: int, l: int)
    requires e.Symbol?
    ensures GenExpr(e, t, l) == Gen([], e.op, t, l)
  {
  }

  lemma RetVTidy(sc: Scope, ext: set<int>, t: int, l: int)
    ensures StmtGenTidy(sc, GenS([RetV], [], t, l), ext, t, l)
  {
    hide Tidy, StmtGenTidy;
    UnitStmtTidy(sc, RetV, ext, t, l);
  }

  lemma {:induction false} BlockTidy(sc: Scope, items: seq<Stmt>, t: int, l: int, cont: Option<int>, brk: Option<int>, inLoop: bool)
    requires (forall i :: i in items ==> StmtScoped(sc, i, inLoop)) && (inLoop ==> cont.Some? && brk.Some?)
    ensures StmtGenTidy(sc, GenBlock(items, t, l, cont, brk), Targets(cont, brk), t, l)
    decreases items, 0
  {
    hide StmtGenTidy, GenStmt, StmtScoped, Targets;
    if items == [] {
      NoCode(sc, Targets(cont, brk), t, l);
    } else {
      StmtTidy(sc, items[0], t, l, cont, brk, inLoop);
      var g := GenStmt(items[0], t, l, cont, brk);
      BlockTidy(sc, items[1..], g.temps, g.labels, cont, brk, inLoop);
      SequenceTidy(sc, g, GenBlock(items[1..], g.temps, g.labels, cont, brk), Targets(cont, brk), t, l);
    }
  }
}
