/** The code generated for a statement does what the statement means, wherever it is embedded. */
module GenStmtCorrect {
  import opened Words
  import opened Wrappers
  import opened Primitive
  import opened Layout
  import opened SemanticTypes
  import opened Pinkie
  import Ast
  import opened Embedding
  import opened GenEeyore
  import opened GenExprCorrect

  type Stmt = Ast.Stmt

  /** Where `break` and `continue` go, when they may occur. */
  ghost predicate TargetsExist(code: seq<Unit>, inLoop: bool, cont: Option<int>, brk: Option<int>) {
    inLoop ==> cont.Some? && brk.Some? && IndexOf(code, Label(cont.value)).Some? && IndexOf(code, Label(brk.value)).Some?
  }

  ghost predicate Arrived(code: seq<Unit>, c: Context, s: State, n: nat, p: nat, st: Store) {
    Run(code, c, s, n).pc == p && Represents(st, Run(code, c, s, n), [])
  }

  /** The machine has stopped with this return value and store. */
  ghost predicate Stopped(code: seq<Unit>, c: Context, s: State, n: nat, v: Option<Word>, st: Store) {
    var s' := Run(code, c, s, n);
    s'.status == Returned(v) && Represents(st, s'.(status := Running), [])
  }

  /** After `n` steps the machine is where the outcome says: behind the code, at the label that was
      jumped to, or stopped; a statement that uses up its fuel keeps the machine running that long. */
  ghost predicate Follows(
    code: seq<Unit>, c: Context, s: State, n: nat, o: Ast.Outcome, fuel: nat, end: nat,
    cont: Option<int>, brk: Option<int>)
  {
    match o
    case Undefined => true
    case OutOfFuel => n >= fuel && Run(code, c, s, n).status == Running
    case Done(Fall, st) => Arrived(code, c, s, n, end, st)
    case Done(Brk, st) =>
      brk.Some? && IndexOf(code, Label(brk.value)).Some?
      && Arrived(code, c, s, n, IndexOf(code, Label(brk.value)).value, st)
    case Done(Cont, st) =>
      cont.Some? && IndexOf(code, Label(cont.value)).Some?
      && Arrived(code, c, s, n, IndexOf(code, Label(cont.value)).value, st)
    case Done(Ret(v), st) => Stopped(code, c, s, n, v, st)
  }

  ghost predicate StmtReady(
    code: seq<Unit>, c: Context, x: Stmt, t: int, l: int, cont: Option<int>, brk: Option<int>, inLoop: bool,
    s: State, st: Store)
  {
    && Ready(code, c, GenStmt(x, t, l, cont, brk).code, s, st)
    && Ast.StmtOk(c, x, inLoop) && TargetsExist(code, inLoop, cont, brk)
  }

  // ----- composing runs -----

  /** What happens after the first `m` steps happens from the state they reach. */
  lemma FollowsLater(
    code: seq<Unit>, c: Context, s: State, m: nat, n: nat, o: Ast.Outcome, fuel: nat, fuel': nat, end: nat,
    cont: Option<int>, brk: Option<int>)
    requires Follows(code, c, Run(code, c, s, m), n, o, fuel, end, cont, brk) && fuel' <= fuel + m
    ensures Follows(code, c, s, m + n, o, fuel', end, cont, brk)
  {
    hide Run, IndexOf, Represents;
    RunAdd(code, c, s, m, n);
  }

  lemma ReachedArrived(code: seq<Unit>, c: Context, s: State, n: nat, t: int, p: nat, st: Store, o: Operand, w: Word)
    requires Reached(code, c, s, n, t, p, st, o, w)
    ensures Arrived(code, c, s, n, p, st)
  {
  }

  lemma ArrivedLabel(code: seq<Unit>, c: Context, s: State, n: nat, p: nat, st: Store)
    requires Arrived(code, c, s, n, p, st) && p < |code| && code[p].Label?
    ensures Arrived(code, c, s, n + 1, p + 1, st)
  {
    hide Run;
    LabelStep(code, c, s, n);
  }

  lemma ArrivedJump(code: seq<Unit>, c: Context, s: State, n: nat, p: nat, st: Store, l: int)
    requires Arrived(code, c, s, n, p, st) && p < |code| && code[p] == Jump(l) && IndexOf(code, Label(l)).Some?
    ensures Arrived(code, c, s, n + 1, IndexOf(code, Label(l)).value, st)
  {
    hide Run, IndexOf;
    OneMore(code, c, s, n, Jump(l));
  }

  // ----- assignments -----

  lemma VarAssigned(c: Context, st: Store, s: State, o: Operand, v: Word)
    requires Represents(st, s, []) && Assignable(c, o) && !o.Temp?
    ensures var s' := Assign(c, s, o, Some(v));
            s'.pc == s.pc + 1 && Represents(st.(vars := st.vars[o := v]), s', [])
  {
  }

  lemma CopyToVar(code: seq<Unit>, c: Context, s: State, n: nat, t: int, p: nat, st: Store, o: Operand, w: Word, op: Operand)
    requires Reached(code, c, s, n, t, p, st, o, w) && p < |code| && code[p] == Copy(op, o)
    requires Assignable(c, op) && !op.Temp?
    ensures Arrived(code, c, s, n + 1, p + 1, st.(vars := st.vars[op := w]))
  {
    hide Run, Represents, KeepsTemps, Value, Exec;
    RepresentsRuns(st, Run(code, c, s, n));
    OneMore(code, c, s, n, Copy(op, o));
    CopyExec(code, c, Copy(op, o), Run(code, c, s, n));
    VarAssigned(c, st, Run(code, c, s, n), op, w);
  }

  lemma WriteExec(code: seq<Unit>, c: Context, st: Store, s: State, u: Unit, addr: Word, w: Word)
    requires Represents(st, s, []) && u.ArrayWrite? && addr in st.mem
    requires Value(c, s.env, u.base).Some? && Value(c, s.env, u.incr).Some? && Value(c, s.env, u.src) == Some(w)
    requires addr == Wrap(Value(c, s.env, u.base).value + Value(c, s.env, u.incr).value)
    ensures var s' := Exec(code, c, u, s);
            s'.pc == s.pc + 1 && Represents(st.(mem := st.mem[addr := w]), s', [])
  {
  }

  lemma WriteStep(code: seq<Unit>, c: Context, s: State, n: nat, p: nat, st: Store, u: Unit, addr: Word, w: Word)
    requires Arrived(code, c, s, n, p, st) && p < |code| && code[p] == u && u.ArrayWrite? && addr in st.mem
    requires var env := Run(code, c, s, n).env;
             && Value(c, env, u.base).Some? && Value(c, env, u.incr).Some? && Value(c, env, u.src) == Some(w)
             && addr == Wrap(Value(c, env, u.base).value + Value(c, env, u.incr).value)
    ensures Arrived(code, c, s, n + 1, p + 1, st.(mem := st.mem[addr := w]))
  {
    hide Run, Value, Exec, Represents;
    RepresentsRuns(st, Run(code, c, s, n));
    OneMore(code, c, s, n, u);
    WriteExec(code, c, st, Run(code, c, s, n), u, addr, w);
  }

  lemma FallFollows(code: seq<Unit>, c: Context, s: State, n: nat, o: Ast.Outcome, fuel: nat, end: nat,
                    cont: Option<int>, brk: Option<int>)
    requires o.Done? && o.exit.Fall? && Arrived(code, c, s, n, end, o.st)
    ensures Follows(code, c, s, n, o, fuel, end, cont, brk)
  {
  }

  lemma ScalarFacts(c: Context, x: Stmt, st: Store)
    requires Ast.StmtOk(c, x, false) && x.AssignStmt? && x.lhs.Symbol? && Ast.AssignTo(c, x.lhs, x.rhs, st).Done?
    ensures Ast.ExprOk(c, x.rhs) && Ast.Arith(x.rhs) && Ast.Condition(x.rhs) && !x.lhs.op.Temp? && Assignable(c, x.lhs.op)
    ensures var r := Ast.Eval(c, x.rhs, st);
            r.Val? && Ast.AssignTo(c, x.lhs, x.rhs, st) == Ast.Done(Ast.Fall, r.st.(vars := r.st.vars[x.lhs.op := r.word]))
  {
  }

  lemma ScalarCode(x: Stmt, t: int, l: int)
    requires x.AssignStmt? && x.lhs.Symbol?
    ensures var g := GenExpr(x.rhs, t, l);
            GenStmt(x, t, l, None, None).code == g.code + [Copy(x.lhs.op, g.result)]
  {
  }

  lemma ScalarAssignCorrect(
    code: seq<Unit>, c: Context, x: Stmt, t: int, l: int, s: State, st: Store)
    returns (n: nat)
    requires Ready(code, c, GenStmt(x, t, l, None, None).code, s, st)
    requires Ast.StmtOk(c, x, false) && x.AssignStmt? && x.lhs.Symbol? && Ast.AssignTo(c, x.lhs, x.rhs, st).Done?
    ensures Follows(code, c, s, n, Ast.AssignTo(c, x.lhs, x.rhs, st), 0, s.pc + |GenStmt(x, t, l, None, None).code|, None, None)
  {
    hide *;
    var g := GenExpr(x.rhs, t, l);
    var put := [Copy(x.lhs.op, g.result)];
    ScalarCode(x, t, l);
    ReadyMeans(code, c, g.code + put, s, st);
    SitsSplit(code, s.pc, g.code, put);
    SitsUnit(code, s.pc + |g.code|, put, 0);
    StartReached(code, c, s, st, t);
    ScalarFacts(c, x, st);
    var w;
    n, w := ReachedExpr(code, c, s, 0, t, s.pc, st, Lit(0), 0, x.rhs, t, l);
    CopyToVar(code, c, s, n, t, s.pc + |g.code|, Ast.Eval(c, x.rhs, st).st, g.result, w, x.lhs.op);
    n := n + 1;
    FallFollows(code, c, s, n, Ast.AssignTo(c, x.lhs, x.rhs, st), 0, s.pc + |g.code| + 1, None, None);
  }

  lemma ReadyMeans(code: seq<Unit>, c: Context, part: seq<Unit>, s: State, st: Store)
    requires Ready(code, c, part, s, st)
    ensures ContextOk(c) && DistinctLabels(code) && Sits(code, s.pc, part) && Represents(st, s, [])
  {
  }

  lemma ElementAssignCode(x: Stmt, t: int, l: int)
    requires x.AssignStmt? && x.lhs.OffsetExpr?
    ensures var g := GenExpr(x.rhs, t, l);
            var g0 := GenExpr(x.lhs.arr, g.temps, g.labels);
            var g1 := Second(x.lhs.arr, x.lhs.off, g.temps, g.labels);
            GenStmt(x, t, l, None, None).code
            == g.code + (g0.code + g1.code)
               + [Binary(Mult, Temp(g1.temps), g1.result, ByteStride(x.lhs.arr)), ArrayWrite(g0.result, g.result, Temp(g1.temps))]
  {
    var g := GenExpr(x.rhs, t, l);
    var g0 := GenExpr(x.lhs.arr, g.temps, g.labels);
    assert GenStmt(x, t, l, None, None).code
        == g.code + g0.code + Second(x.lhs.arr, x.lhs.off, g.temps, g.labels).code
           + [ExprB(Temp(Second(x.lhs.arr, x.lhs.off, g.temps, g.labels).temps), Mult,
                    Second(x.lhs.arr, x.lhs.off, g.temps, g.labels).result, ByteStride(x.lhs.arr)),
              ExprAW(g0.result, Temp(Second(x.lhs.arr, x.lhs.off, g.temps, g.labels).temps), g.result)];
  }

  lemma ElementFacts(c: Context, x: Stmt, st: Store)
    requires Ast.StmtOk(c, x, false) && x.AssignStmt? && x.lhs.OffsetExpr? && Ast.AssignTo(c, x.lhs, x.rhs, st).Done?
    ensures var arr, off := x.lhs.arr, x.lhs.off;
            && Ast.ExprOk(c, arr) && Ast.ExprOk(c, off) && Ast.ExprOk(c, x.rhs)
            && Ast.Arith(arr) && Ast.Arith(off) && Ast.Arith(x.rhs) && |Ast.ExprType(arr).offsets| > 0
            && !Ast.IsScalar(arr)
            && var r := Ast.Eval(c, x.rhs, st);
            && r.Val?
            && var r0 := Ast.Eval(c, arr, r.st);
            && r0.Val?
            && var r1 := Ast.Eval(c, off, r0.st);
            && r1.Val?
            && var addr := Ast.ElementAddress(r0.word, Ast.ExprType(arr).offsets[0], r1.word);
            && addr in r1.st.mem
            && var v := Ast.Found(c, x.rhs, r.word, r1.st, Ast.AtUse);
            && v.Some?
            && Ast.AssignTo(c, x.lhs, x.rhs, st) == Ast.Done(Ast.Fall, r1.st.(mem := r1.st.mem[addr := v.value]))
  {
    hide Ast.Eval, Ast.ElementAddress, Ast.Found;
  }

  ghost predicate ElementLayout(code: seq<Unit>, x: Stmt, t: int, l: int, p: nat)
    requires x.AssignStmt? && x.lhs.OffsetExpr?
  {
    var g := GenExpr(x.rhs, t, l);
    var g0, g1 := GenExpr(x.lhs.arr, g.temps, g.labels), Second(x.lhs.arr, x.lhs.off, g.temps, g.labels);
    var q := p + |g.code| + |g0.code| + |g1.code|;
    && Sits(code, p, g.code) && Sits(code, p + |g.code|, g0.code + g1.code)
    && q + 1 < |code| && q + 2 == p + |GenStmt(x, t, l, None, None).code|
    && code[q] == Binary(Mult, Temp(g1.temps), g1.result, ByteStride(x.lhs.arr))
    && code[q + 1] == ArrayWrite(g0.result, g.result, Temp(g1.temps))
  }

  lemma ElementLands(code: seq<Unit>, x: Stmt, t: int, l: int, p: nat)
    requires x.AssignStmt? && x.lhs.OffsetExpr? && Sits(code, p, GenStmt(x, t, l, None, None).code)
    ensures ElementLayout(code, x, t, l, p)
  {
    hide *;
    ElementAssignCode(x, t, l);
    var g := GenExpr(x.rhs, t, l);
    var g0, g1 := GenExpr(x.lhs.arr, g.temps, g.labels), Second(x.lhs.arr, x.lhs.off, g.temps, g.labels);
    var tail := [Binary(Mult, Temp(g1.temps), g1.result, ByteStride(x.lhs.arr)), ArrayWrite(g0.result, g.result, Temp(g1.temps))];
    SitsSplit(code, p, g.code + (g0.code + g1.code), tail);
    SitsSplit(code, p, g.code, g0.code + g1.code);
    SitsUnit(code, p + |g.code + (g0.code + g1.code)|, tail, 0);
    SitsUnit(code, p + |g.code + (g0.code + g1.code)|, tail, 1);
    ElementLayoutIs(code, x, t, l, p);
  }

  lemma ElementLayoutIs(code: seq<Unit>, x: Stmt, t: int, l: int, p: nat)
    requires x.AssignStmt? && x.lhs.OffsetExpr?
    requires var g := GenExpr(x.rhs, t, l);
             var g0, g1 := GenExpr(x.lhs.arr, g.temps, g.labels), Second(x.lhs.arr, x.lhs.off, g.temps, g.labels);
             var q := p + |g.code| + |g0.code| + |g1.code|;
             && Sits(code, p, g.code) && Sits(code, p + |g.code|, g0.code + g1.code)
             && q + 2 == p + |GenStmt(x, t, l, None, None).code| <= |code|
             && code[q] == Binary(Mult, Temp(g1.temps), g1.result, ByteStride(x.lhs.arr))
             && code[q + 1] == ArrayWrite(g0.result, g.result, Temp(g1.temps))
    ensures ElementLayout(code, x, t, l, p)
  {
    hide GenStmt, GenExpr, Second, Sits, ByteStride;
  }

  /** The state in which the right-hand side has been evaluated, as the subscripts need it. */
  lemma ElementMid(
    code: seq<Unit>, c: Context, x: Stmt, t: int, l: int, s: State, st: Store, n0: nat, w: Word)
    requires ContextOk(c) && DistinctLabels(code)
    requires x.AssignStmt? && x.lhs.OffsetExpr? && ElementLayout(code, x, t, l, s.pc) && Ast.Arith(x.rhs)
    requires Computes(code, c, x.rhs, t, l, s, st, n0, w)
    ensures var g, s1, st1 := GenExpr(x.rhs, t, l), Run(code, c, s, n0), Ast.Eval(c, x.rhs, st).st;
            var g0, g1 := GenExpr(x.lhs.arr, g.temps, g.labels), Second(x.lhs.arr, x.lhs.off, g.temps, g.labels);
            var q := s1.pc + |g0.code| + |g1.code|;
            && Represents(st1, s1, []) && Value(c, s1.env, g.result) == Some(w) && w == Ast.Eval(c, x.rhs, st).word
            && Ready(code, c, g0.code + g1.code, s1, st1)
            && q + 1 < |code| && code[q] == Binary(Mult, Temp(g1.temps), g1.result, ByteStride(x.lhs.arr))
            && code[q + 1] == ArrayWrite(g0.result, g.result, Temp(g1.temps))
            && q + 2 == s.pc + |GenStmt(x, t, l, None, None).code|
  {
    hide GenStmt, GenExpr, Represents, Run, DistinctLabels, Sits, Second, Ast.Eval, Ast.Arith, ByteStride, ContextOk, Value;
  }

  lemma ElementStored(
    code: seq<Unit>, c: Context, x: Stmt, t: int, l: int, s: State, st: Store, n0: nat, w: Word)
    returns (n: nat)
    requires ContextOk(c) && DistinctLabels(code)
    requires Ast.StmtOk(c, x, false) && x.AssignStmt? && x.lhs.OffsetExpr?
    requires Ast.AssignTo(c, x.lhs, x.rhs, st).Done? && ElementLayout(code, x, t, l, s.pc)
    requires Computes(code, c, x.rhs, t, l, s, st, n0, w)
    ensures Arrived(code, c, Run(code, c, s, n0), n, s.pc + |GenStmt(x, t, l, None, None).code|,
                    Ast.AssignTo(c, x.lhs, x.rhs, st).st)
  {
    hide *;
    ElementFacts(c, x, st);
    ElementMid(code, c, x, t, l, s, st, n0, w);
    var arr, off, g := x.lhs.arr, x.lhs.off, GenExpr(x.rhs, t, l);
    var g0, g1 := GenExpr(arr, g.temps, g.labels), Second(arr, off, g.temps, g.labels);
    var s1, st1 := Run(code, c, s, n0), Ast.Eval(c, x.rhs, st).st;
    var r0 := Ast.Eval(c, arr, st1);
    var r1 := Ast.Eval(c, off, r0.st);
    var stride := Ast.ExprType(arr).offsets[0];
    var q := s1.pc + |g0.code| + |g1.code|;
    var n1 := PairCorrect(code, c, x.lhs, arr, off, g.temps, g.labels, s1, st1);
    PairArrived(code, c, arr, off, g.temps, g.labels, s1, st1, n1);
    BaseStays(c, arr, off, st1);
    ScaleStep(code, c, s1, n1, st1, arr, off, g.temps, g.labels);
    var s3 := Run(code, c, s1, n1 + 1);
    FirstFound(c, x.rhs, t, l, s1, s3, st1, r1.st, w);
    var v := Ast.Found(c, x.rhs, w, r1.st, Ast.AtUse).value;
    RepresentsArrived(code, c, s1, n1 + 1, r1.st);
    ScaledAddress(r0.word, stride, r1.word);
    PlusIs(r0.word, EvalBinary(Mult, r1.word, Wrap(4 * stride)));
    WriteStep(code, c, s1, n1 + 1, q + 1, r1.st, code[q + 1], Ast.ElementAddress(r0.word, stride, r1.word), v);
    n := n1 + 2;
  }

  lemma PairArrived(code: seq<Unit>, c: Context, e0: Expr, e1: Expr, t: int, l: int, s: State, st: Store, n: nat)
    requires PairComputes(code, c, e0, e1, t, l, s, st, n)
    ensures Run(code, c, s, n).pc == s.pc + |GenExpr(e0, t, l).code| + |Second(e0, e1, t, l).code|
  {
  }

  lemma RepresentsArrived(code: seq<Unit>, c: Context, s: State, n: nat, st: Store)
    requires Represents(st, Run(code, c, s, n), [])
    ensures Arrived(code, c, s, n, Run(code, c, s, n).pc, st)
  {
  }

  lemma ElementStart(code: seq<Unit>, c: Context, x: Stmt, t: int, l: int, s: State, st: Store)
    requires Ready(code, c, GenStmt(x, t, l, None, None).code, s, st)
    requires Ast.StmtOk(c, x, false) && x.AssignStmt? && x.lhs.OffsetExpr? && Ast.AssignTo(c, x.lhs, x.rhs, st).Done?
    ensures ElementLayout(code, x, t, l, s.pc) && ExprReady(code, c, x.rhs, t, l, s, st)
    ensures ContextOk(c) && DistinctLabels(code)
  {
    ElementLands(code, x, t, l, s.pc);
    ElementFacts(c, x, st);
    hide GenStmt, GenExpr, Represents, DistinctLabels, Sits, Second, Ast.Eval, Ast.Arith, ByteStride, ContextOk, Ast.ExprOk,
         Ast.StmtOk, Ast.AssignTo;
  }

  lemma ElementAssignCorrect(
    code: seq<Unit>, c: Context, x: Stmt, t: int, l: int, s: State, st: Store)
    returns (n: nat)
    requires Ready(code, c, GenStmt(x, t, l, None, None).code, s, st)
    requires Ast.StmtOk(c, x, false) && x.AssignStmt? && x.lhs.OffsetExpr? && Ast.AssignTo(c, x.lhs, x.rhs, st).Done?
    ensures Follows(code, c, s, n, Ast.AssignTo(c, x.lhs, x.rhs, st), 0, s.pc + |GenStmt(x, t, l, None, None).code|, None, None)
  {
    hide *;
    ElementStart(code, c, x, t, l, s, st);
    ElementFacts(c, x, st);
    var n0, w := ExprCorrect(code, c, x.rhs, t, l, s, st);
    var n1 := ElementStored(code, c, x, t, l, s, st, n0, w);
    var end := s.pc + |GenStmt(x, t, l, None, None).code|;
    ArrivedLater(code, c, s, n0, n1, end, Ast.AssignTo(c, x.lhs, x.rhs, st).st);
    n := n0 + n1;
    FallFollows(code, c, s, n, Ast.AssignTo(c, x.lhs, x.rhs, st), 0, end, None, None);
  }

  lemma ArrivedLater(code: seq<Unit>, c: Context, s: State, m: nat, n: nat, p: nat, st: Store)
    requires Arrived(code, c, Run(code, c, s, m), n, p, st)
    ensures Arrived(code, c, s, m + n, p, st)
  {
    hide Run, Represents;
    RunAdd(code, c, s, m, n);
  }

  lemma PlusIs(x: Word, y: Word)
    ensures EvalBinary(Plus, x, y) == Wrap(x + y)
  {
  }

  // ----- declarations -----

  ghost predicate InitOk(c: Context, op: Operand, length: int, init: seq<Ast.Alignment>) {
    && (op.Var? || op.Param?)
    && (if length > 0 then op in c.arrays else Assignable(c, op))
    && forall a :: a in init ==> Ast.ExprOk(c, a.exp) && Ast.Arith(a.exp)
  }

  lemma InitAddress(base: Word, offset: int)
    ensures Wrap(base + Wrap(offset * 4)) == Ast.ElementAddress(base, 1, Wrap(offset))
  {
    WrapMul(offset, 4);
    WrapAdd(4 * Wrap(offset), base);
    assert 4 * 1 * Wrap(offset) == Wrap(offset) * 4;
  }

  /** The unit that stores one initialiser. */
  ghost function PutUnit(op: Operand, length: int, a: Ast.Alignment, result: Operand): Unit {
    if length > 0 then ArrayWrite(op, result, Lit(Wrap(a.offset * 4))) else Copy(op, result)
  }

  lemma InitCode(op: Operand, length: int, init: seq<Ast.Alignment>, t: int, l: int)
    requires init != []
    ensures var g := GenExpr(init[0].exp, t, l);
            GenInit(op, length, init, t, l).code
            == g.code + [PutUnit(op, length, init[0], g.result)] + GenInit(op, length, init[1..], g.temps, g.labels).code
  {
    hide GenExpr, Wrap;
  }

  lemma InitLands(code: seq<Unit>, op: Operand, length: int, init: seq<Ast.Alignment>, t: int, l: int, p: nat)
    requires init != [] && Sits(code, p, GenInit(op, length, init, t, l).code)
    ensures var g := GenExpr(init[0].exp, t, l);
            var rest := GenInit(op, length, init[1..], g.temps, g.labels);
            && Sits(code, p, g.code) && p + |g.code| < |code|
            && code[p + |g.code|] == PutUnit(op, length, init[0], g.result)
            && Sits(code, p + |g.code| + 1, rest.code)
            && |GenInit(op, length, init, t, l).code| == |g.code| + 1 + |rest.code|
  {
    hide *;
    InitCode(op, length, init, t, l);
    var g := GenExpr(init[0].exp, t, l);
    var put := [PutUnit(op, length, init[0], g.result)];
    var rest := GenInit(op, length, init[1..], g.temps, g.labels);
    SitsSplit(code, p, g.code + put, rest.code);
    SitsSplit(code, p, g.code, put);
    SitsUnit(code, p + |g.code|, put, 0);
  }

  /** The store after the first initialiser. */
  ghost function InitOne(c: Context, op: Operand, length: int, a: Ast.Alignment, st: Store): Ast.Outcome {
    Ast.Init(c, op, length, [a], st)
  }

  lemma InitMeaning(c: Context, op: Operand, length: int, init: seq<Ast.Alignment>, st: Store)
    requires init != [] && InitOk(c, op, length, init) && Ast.Init(c, op, length, init, st).Done?
    ensures var r, o := Ast.Eval(c, init[0].exp, st), InitOne(c, op, length, init[0], st);
            && r.Val? && o.Done? && InitOk(c, op, length, init[1..]) && Ast.Condition(init[0].exp)
            && Ast.ExprOk(c, init[0].exp) && Ast.Arith(init[0].exp)
            && Ast.Init(c, op, length, init, st) == Ast.Init(c, op, length, init[1..], o.st)
            && (if length > 0 then
                  op in c.arrays
                  && var addr := Ast.ElementAddress(c.arrays[op], 1, Wrap(init[0].offset));
                  && addr in r.st.mem && o.st == r.st.(mem := r.st.mem[addr := r.word])
                else Assignable(c, op) && o.st == r.st.(vars := r.st.vars[op := r.word]))
  {
    hide Ast.Eval, Ast.ElementAddress, Ast.ExprOk, Ast.Arith, Wrap;
    assert init[0] in init;
    assert Ast.Init(c, op, length, [init[0]], st) == InitStep(c, op, length, init[0], st);
    assert Ast.Init(c, op, length, init, st).Done?;
  }

  ghost function InitStep(c: Context, op: Operand, length: int, a: Ast.Alignment, st: Store): Ast.Outcome {
    var r := Ast.Eval(c, a.exp, st);
    if length <= 0 then Ast.SetVar(c, op, r)
    else
      match r
      case Undef => Ast.Undefined
      case Val(w, st1) =>
        match Value(c, st1.vars, op)
        case None => Ast.Undefined
        case Some(base) => Ast.SetElement(Ast.ElementAddress(base, 1, Wrap(a.offset)), w, st1)
  }

  lemma PutCorrect(
    code: seq<Unit>, c: Context, op: Operand, length: int, a: Ast.Alignment, s: State, n: nat, t: int, p: nat,
    st: Store, o: Operand, w: Word)
    requires Reached(code, c, s, n, t, p, st, o, w) && p < |code| && code[p] == PutUnit(op, length, a, o) && !op.Temp?
    requires length > 0 ==> op in c.arrays && Ast.ElementAddress(c.arrays[op], 1, Wrap(a.offset)) in st.mem && !op.Lit?
    requires length <= 0 ==> Assignable(c, op)
    ensures Arrived(code, c, s, n + 1, p + 1,
                    if length > 0 then st.(mem := st.mem[Ast.ElementAddress(c.arrays[op], 1, Wrap(a.offset)) := w])
                    else st.(vars := st.vars[op := w]))
  {
    hide Represents, Run, Wrap, Ast.ElementAddress;
    if length > 0 {
      InitAddress(c.arrays[op], a.offset);
      WriteStep(code, c, s, n, p, st, code[p], Ast.ElementAddress(c.arrays[op], 1, Wrap(a.offset)), w);
    } else {
      CopyToVar(code, c, s, n, t, p, st, o, w, op);
    }
  }

  lemma {:induction false} InitCorrect(
    code: seq<Unit>, c: Context, op: Operand, length: int, init: seq<Ast.Alignment>, t: int, l: int, s: State, st: Store)
    returns (n: nat)
    requires ContextOk(c) && DistinctLabels(code) && Sits(code, s.pc, GenInit(op, length, init, t, l).code)
    requires Represents(st, s, [])
    requires InitOk(c, op, length, init) && Ast.Init(c, op, length, init, st).Done?
    ensures Ast.Init(c, op, length, init, st).exit.Fall?
    ensures Arrived(code, c, s, n, s.pc + |GenInit(op, length, init, t, l).code|, Ast.Init(c, op, length, init, st).st)
    decreases |init|
  {
    hide *;
    if init == [] {
      n := 0;
      InitEmpty(code, c, op, length, init, t, l, s, st);
    } else {
      var e := init[0].exp;
      var g := GenExpr(e, t, l);
      InitLands(code, op, length, init, t, l, s.pc);
      InitMeaning(c, op, length, init, st);
      StartReached(code, c, s, st, t);
      var n0, w := ReachedExpr(code, c, s, 0, t, s.pc, st, Lit(0), 0, e, t, l);
      NotTemp(c, op, length, init);
      PutCorrect(code, c, op, length, init[0], s, n0, t, s.pc + |g.code|, Ast.Eval(c, e, st).st, g.result, w);
      var s1, st1 := Run(code, c, s, n0 + 1), InitOne(c, op, length, init[0], st).st;
      ArrivedState(code, c, s, n0 + 1, s.pc + |g.code| + 1, st1);
      n := InitCorrect(code, c, op, length, init[1..], g.temps, g.labels, s1, st1);
      ArrivedLater(code, c, s, n0 + 1, n, s.pc + |GenInit(op, length, init, t, l).code|, Ast.Init(c, op, length, init, st).st);
      n := n0 + 1 + n;
    }
  }

  lemma NotTemp(c: Context, op: Operand, length: int, init: seq<Ast.Alignment>)
    requires InitOk(c, op, length, init)
    ensures !op.Temp? && !op.Lit?
  {
  }

  lemma ArrivedState(code: seq<Unit>, c: Context, s: State, n: nat, p: nat, st: Store)
    requires Arrived(code, c, s, n, p, st)
    ensures Represents(st, Run(code, c, s, n), []) && Run(code, c, s, n).pc == p
  {
  }

  lemma InitEmpty(
    code: seq<Unit>, c: Context, op: Operand, length: int, init: seq<Ast.Alignment>, t: int, l: int, s: State, st: Store)
    requires init == [] && Represents(st, s, [])
    ensures Ast.Init(c, op, length, init, st) == Ast.Done(Ast.Fall, st)
    ensures Arrived(code, c, s, 0, s.pc + |GenInit(op, length, init, t, l).code|, st)
  {
  }

  // ----- statements -----

  lemma {:induction false} StmtCorrect(
    code: seq<Unit>, c: Context, x: Stmt, t: int, l: int, cont: Option<int>, brk: Option<int>, inLoop: bool,
    s: State, st: Store, fuel: nat)
    returns (n: nat)
    requires StmtReady(code, c, x, t, l, cont, brk, inLoop, s, st) && !Ast.Exec(c, x, st, fuel).Undefined?
    ensures Follows(code, c, s, n, Ast.Exec(c, x, st, fuel), fuel, s.pc + |GenStmt(x, t, l, cont, brk).code|, cont, brk)
    decreases fuel, x, 2
  {
    hide *;
    match x {
      case Block(items) =>
        BlockStart(code, c, x, t, l, cont, brk, inLoop, s, st, fuel);
        n := BlockCorrect(code, c, items, t, l, cont, brk, inLoop, s, st, fuel);
      case If(_, _, _) => n := IfCorrect(code, c, x, t, l, cont, brk, inLoop, s, st, fuel);
      case While(_, _) =>
        n := WhileCorrect(code, c, x, t, l, cont, brk, inLoop, s, st, fuel);
      case _ => n := SimpleCorrect(code, c, x, t, l, cont, brk, inLoop, s, st, fuel);
    }
  }

  lemma BlockStart(
    code: seq<Unit>, c: Context, x: Stmt, t: int, l: int, cont: Option<int>, brk: Option<int>, inLoop: bool,
    s: State, st: Store, fuel: nat)
    requires x.Block? && StmtReady(code, c, x, t, l, cont, brk, inLoop, s, st)
    ensures BlockReady(code, c, x.items, t, l, cont, brk, inLoop, s, st)
    ensures GenStmt(x, t, l, cont, brk) == GenBlock(x.items, t, l, cont, brk)
    ensures Ast.Exec(c, x, st, fuel) == Ast.ExecAll(c, x.items, st, fuel)
  {
    hide Represents, DistinctLabels, Sits, IndexOf, GenBlock, Ast.ExecAll;
  }

  ghost predicate BlockReady(
    code: seq<Unit>, c: Context, items: seq<Stmt>, t: int, l: int, cont: Option<int>, brk: Option<int>, inLoop: bool,
    s: State, st: Store)
  {
    && Ready(code, c, GenBlock(items, t, l, cont, brk).code, s, st)
    && (forall i :: i in items ==> Ast.StmtOk(c, i, inLoop)) && TargetsExist(code, inLoop, cont, brk)
  }

  lemma BlockMeaning(c: Context, items: seq<Stmt>, st: Store, fuel: nat)
    requires items != []
    ensures var o := Ast.Exec(c, items[0], st, fuel);
            Ast.ExecAll(c, items, st, fuel)
            == if o.Done? && o.exit.Fall? then Ast.ExecAll(c, items[1..], o.st, fuel) else o
  {
    hide Ast.Exec;
  }

  lemma BlockHead(
    code: seq<Unit>, c: Context, items: seq<Stmt>, t: int, l: int, cont: Option<int>, brk: Option<int>, inLoop: bool,
    s: State, st: Store)
    requires items != [] && BlockReady(code, c, items, t, l, cont, brk, inLoop, s, st)
    ensures var g := GenStmt(items[0], t, l, cont, brk);
            var rest := GenBlock(items[1..], g.temps, g.labels, cont, brk);
            && StmtReady(code, c, items[0], t, l, cont, brk, inLoop, s, st)
            && |GenBlock(items, t, l, cont, brk).code| == |g.code| + |rest.code|
            && Sits(code, s.pc + |g.code|, rest.code)
  {
    var g := GenStmt(items[0], t, l, cont, brk);
    var rest := GenBlock(items[1..], g.temps, g.labels, cont, brk);
    assert GenBlock(items, t, l, cont, brk).code == g.code + rest.code;
    assert items[0] in items;
    hide GenStmt, GenBlock, Represents, DistinctLabels, Sits, IndexOf, Ast.StmtOk;
    SitsSplit(code, s.pc, g.code, rest.code);
  }

  lemma BlockTail(
    code: seq<Unit>, c: Context, items: seq<Stmt>, t: int, l: int, cont: Option<int>, brk: Option<int>, inLoop: bool,
    s: State, st: Store, s1: State, st1: Store)
    requires items != [] && BlockReady(code, c, items, t, l, cont, brk, inLoop, s, st)
    requires var g := GenStmt(items[0], t, l, cont, brk);
             && Sits(code, s.pc + |g.code|, GenBlock(items[1..], g.temps, g.labels, cont, brk).code)
             && s1.pc == s.pc + |g.code| && Represents(st1, s1, [])
    ensures var g := GenStmt(items[0], t, l, cont, brk);
            BlockReady(code, c, items[1..], g.temps, g.labels, cont, brk, inLoop, s1, st1)
  {
    hide GenStmt, GenBlock, Represents, DistinctLabels, Sits, IndexOf, Ast.StmtOk;
  }

  lemma BlockEmpty(
    code: seq<Unit>, c: Context, items: seq<Stmt>, t: int, l: int, cont: Option<int>, brk: Option<int>, inLoop: bool,
    s: State, st: Store, fuel: nat)
    requires items == [] && BlockReady(code, c, items, t, l, cont, brk, inLoop, s, st)
    ensures Follows(code, c, s, 0, Ast.ExecAll(c, items, st, fuel), fuel, s.pc + |GenBlock(items, t, l, cont, brk).code|, cont, brk)
  {
  }

  /** A fragment that does not fall through has already followed the whole. */
  lemma EarlyExit(
    code: seq<Unit>, c: Context, s: State, n: nat, o: Ast.Outcome, fuel: nat, end: nat, end': nat,
    cont: Option<int>, brk: Option<int>)
    requires Follows(code, c, s, n, o, fuel, end, cont, brk) && !(o.Done? && o.exit.Fall?)
    ensures Follows(code, c, s, n, o, fuel, end', cont, brk)
  {
  }

  lemma FollowsFall(
    code: seq<Unit>, c: Context, s: State, n: nat, o: Ast.Outcome, fuel: nat, end: nat,
    cont: Option<int>, brk: Option<int>)
    requires Follows(code, c, s, n, o, fuel, end, cont, brk) && o.Done? && o.exit.Fall?
    ensures Arrived(code, c, s, n, end, o.st)
  {
  }

  lemma {:induction false} BlockCorrect(
    code: seq<Unit>, c: Context, items: seq<Stmt>, t: int, l: int, cont: Option<int>, brk: Option<int>, inLoop: bool,
    s: State, st: Store, fuel: nat)
    returns (n: nat)
    requires BlockReady(code, c, items, t, l, cont, brk, inLoop, s, st) && !Ast.ExecAll(c, items, st, fuel).Undefined?
    ensures Follows(code, c, s, n, Ast.ExecAll(c, items, st, fuel), fuel, s.pc + |GenBlock(items, t, l, cont, brk).code|, cont, brk)
    decreases fuel, items, 0
  {
    hide *;
    if items == [] {
      n := 0;
      BlockEmpty(code, c, items, t, l, cont, brk, inLoop, s, st, fuel);
    } else {
      var g := GenStmt(items[0], t, l, cont, brk);
      var end := s.pc + |GenBlock(items, t, l, cont, brk).code|;
      BlockMeaning(c, items, st, fuel);
      BlockHead(code, c, items, t, l, cont, brk, inLoop, s, st);
      var o := Ast.Exec(c, items[0], st, fuel);
      n := StmtCorrect(code, c, items[0], t, l, cont, brk, inLoop, s, st, fuel);
      if o.Done? && o.exit.Fall? {
        FollowsFall(code, c, s, n, o, fuel, s.pc + |g.code|, cont, brk);
        ArrivedState(code, c, s, n, s.pc + |g.code|, o.st);
        var s1 := Run(code, c, s, n);
        BlockTail(code, c, items, t, l, cont, brk, inLoop, s, st, s1, o.st);
        var m := BlockCorrect(code, c, items[1..], g.temps, g.labels, cont, brk, inLoop, s1, o.st, fuel);
        FollowsLater(code, c, s, n, m, Ast.ExecAll(c, items[1..], o.st, fuel), fuel, fuel, end, cont, brk);
        n := n + m;
      } else {
        EarlyExit(code, c, s, n, o, fuel, s.pc + |g.code|, end, cont, brk);
      }
    }
  }

  // ----- conditionals -----

  lemma IfMeaning(c: Context, x: Stmt, inLoop: bool, st: Store, fuel: nat)
    requires x.If? && Ast.StmtOk(c, x, inLoop) && !Ast.Exec(c, x, st, fuel).Undefined?
    ensures Ast.ExprOk(c, x.cond) && Ast.Condition(x.cond) && Ast.StmtOk(c, x.thenClause, inLoop)
    ensures x.elseClause.Some? ==> Ast.StmtOk(c, x.elseClause.value, inLoop)
    ensures var r := Ast.Eval(c, x.cond, st);
            && r.Val?
            && Ast.Exec(c, x, st, fuel)
               == if r.word != 0 then Ast.Exec(c, x.thenClause, r.st, fuel)
                  else if x.elseClause.Some? then Ast.Exec(c, x.elseClause.value, r.st, fuel)
                  else Ast.Done(Ast.Fall, r.st)
  {
    hide Ast.Eval, Ast.ExprOk, Ast.Condition;
  }

  /** Where the pieces of a conditional land: the condition, the jump on zero, the then-part, what
      follows it, and the target of the jump. */
  ghost predicate IfLayout(
    code: seq<Unit>, x: Stmt, t: int, l: int, cont: Option<int>, brk: Option<int>, p: nat, target: nat)
    requires x.If?
  {
    var g := GenExpr(x.cond, t, l);
    var g0 := GenStmt(x.thenClause, g.temps, g.labels, cont, brk);
    var q := p + |g.code|;
    var end := p + |GenStmt(x, t, l, cont, brk).code|;
    && Sits(code, p, g.code) && Sits(code, q + 1, g0.code) && end <= |code|
    && q < target < |code| && q + 1 + |g0.code| < |code| && code[target].Label? && code[q] == JumpC(code[target].id, g.result)
    && if x.elseClause.Some? then
         var g1 := GenStmt(x.elseClause.value, g0.temps, g0.labels, cont, brk);
         && target == q + 2 + |g0.code| && end == target + 2 + |g1.code|
         && code[end - 1].Label? && code[q + 1 + |g0.code|] == Jump(code[end - 1].id)
         && Sits(code, target + 1, g1.code)
       else
         target == q + 1 + |g0.code| && end == target + 1
  }

  lemma IfElseFlat(x: Stmt, t: int, l: int, cont: Option<int>, brk: Option<int>)
    requires x.If? && x.elseClause.Some?
    ensures var g := GenExpr(x.cond, t, l);
            var g0 := GenStmt(x.thenClause, g.temps, g.labels, cont, brk);
            var g1 := GenStmt(x.elseClause.value, g0.temps, g0.labels, cont, brk);
            GenStmt(x, t, l, cont, brk).code
            == g.code + [JumpC(g1.labels, g.result)] + g0.code + [Jump(g1.labels + 1), Label(g1.labels)]
               + g1.code + [Label(g1.labels + 1)]
  {
    hide GenExpr, GenInit, GenBlock, ByteStride, DeclarationCast, IndexOf;
  }

  lemma IfThenFlat(x: Stmt, t: int, l: int, cont: Option<int>, brk: Option<int>)
    requires x.If? && x.elseClause.None?
    ensures var g := GenExpr(x.cond, t, l);
            var g0 := GenStmt(x.thenClause, g.temps, g.labels, cont, brk);
            GenStmt(x, t, l, cont, brk).code == g.code + [JumpC(g0.labels, g.result)] + g0.code + [Label(g0.labels)]
  {
    hide GenExpr, GenInit, GenBlock, ByteStride, DeclarationCast, IndexOf;
  }

  lemma IfCode(x: Stmt, t: int, l: int, cont: Option<int>, brk: Option<int>)
    requires x.If?
    ensures var g := GenExpr(x.cond, t, l);
            var g0 := GenStmt(x.thenClause, g.temps, g.labels, cont, brk);
            GenStmt(x, t, l, cont, brk).code
            == if x.elseClause.Some? then
                 var g1 := GenStmt(x.elseClause.value, g0.temps, g0.labels, cont, brk);
                 g.code + ([JumpC(g1.labels, g.result)] + g0.code + [Jump(g1.labels + 1), Label(g1.labels)])
                 + g1.code + [Label(g1.labels + 1)]
               else g.code + ([JumpC(g0.labels, g.result)] + g0.code + [Label(g0.labels)])
  {
    hide *;
    var g := GenExpr(x.cond, t, l);
    var g0 := GenStmt(x.thenClause, g.temps, g.labels, cont, brk);
    if x.elseClause.Some? {
      IfElseFlat(x, t, l, cont, brk);
      var g1 := GenStmt(x.elseClause.value, g0.temps, g0.labels, cont, brk);
      IfElseAssoc(g.code, [JumpC(g1.labels, g.result)], g0.code, [Jump(g1.labels + 1), Label(g1.labels)]);
    } else {
      IfThenFlat(x, t, l, cont, brk);
      IfElseAssoc(g.code, [JumpC(g0.labels, g.result)], g0.code, [Label(g0.labels)]);
    }
  }

  lemma IfElseAssoc(a: seq<Unit>, b: seq<Unit>, d: seq<Unit>, e: seq<Unit>)
    ensures a + b + d + e == a + (b + d + e)
  {
  }

  lemma SitsThen(code: seq<Unit>, p: nat, a: seq<Unit>, b: seq<Unit>, d: seq<Unit>, e: seq<Unit>)
    requires Sits(code, p, a + (b + d + e)) && |b| == 1 && |e| >= 1
    ensures Sits(code, p, a) && Sits(code, p + |a| + 1, d)
    ensures p + |a| + 1 + |d| + |e| <= |code| && code[p + |a|] == b[0]
    ensures forall i :: 0 <= i < |e| ==> code[p + |a| + 1 + |d| + i] == e[i]
  {
    SitsSplit(code, p, a, b + d + e);
    SitsSplit(code, p + |a|, b + d, e);
    SitsSplit(code, p + |a|, b, d);
    SitsUnit(code, p + |a|, b, 0);
    forall i | 0 <= i < |e| ensures code[p + |a| + 1 + |d| + i] == e[i] {
      SitsUnit(code, p + |a| + 1 + |d|, e, i);
    }
  }

  lemma IfThenLands(code: seq<Unit>, x: Stmt, t: int, l: int, cont: Option<int>, brk: Option<int>, p: nat)
    requires x.If? && x.elseClause.None?
    requires var g := GenExpr(x.cond, t, l);
             var g0 := GenStmt(x.thenClause, g.temps, g.labels, cont, brk);
             var q := p + |g.code|;
             && Sits(code, p, g.code) && Sits(code, q + 1, g0.code)
             && q + 2 + |g0.code| == p + |GenStmt(x, t, l, cont, brk).code| <= |code|
             && code[q] == JumpC(g0.labels, g.result) && code[q + 1 + |g0.code|] == Label(g0.labels)
    ensures var g := GenExpr(x.cond, t, l);
            var g0 := GenStmt(x.thenClause, g.temps, g.labels, cont, brk);
            IfLayout(code, x, t, l, cont, brk, p, p + |g.code| + 1 + |g0.code|)
  {
    hide GenExpr, GenStmt, Sits;
  }

  lemma IfLands(
    code: seq<Unit>, x: Stmt, t: int, l: int, cont: Option<int>, brk: Option<int>, p: nat) returns (target: nat)
    requires x.If? && Sits(code, p, GenStmt(x, t, l, cont, brk).code)
    ensures IfLayout(code, x, t, l, cont, brk, p, target)
  {
    hide *;
    var g := GenExpr(x.cond, t, l);
    var g0 := GenStmt(x.thenClause, g.temps, g.labels, cont, brk);
    if x.elseClause.Some? {
      IfElseLands(code, x, t, l, cont, brk, p);
      target := p + |g.code| + 2 + |g0.code|;
    } else {
      IfAloneLands(code, x, t, l, cont, brk, p);
      target := p + |g.code| + 1 + |g0.code|;
    }
  }

  lemma IfAloneCode(x: Stmt, t: int, l: int, cont: Option<int>, brk: Option<int>)
    requires x.If? && x.elseClause.None?
    ensures var g := GenExpr(x.cond, t, l);
            var g0 := GenStmt(x.thenClause, g.temps, g.labels, cont, brk);
            GenStmt(x, t, l, cont, brk).code == g.code + ([JumpC(g0.labels, g.result)] + g0.code + [Label(g0.labels)])
  {
    hide *;
    IfCode(x, t, l, cont, brk);
  }

  lemma IfAloneLands(code: seq<Unit>, x: Stmt, t: int, l: int, cont: Option<int>, brk: Option<int>, p: nat)
    requires x.If? && x.elseClause.None? && Sits(code, p, GenStmt(x, t, l, cont, brk).code)
    ensures var g := GenExpr(x.cond, t, l);
            var g0 := GenStmt(x.thenClause, g.temps, g.labels, cont, brk);
            IfLayout(code, x, t, l, cont, brk, p, p + |g.code| + 1 + |g0.code|)
  {
    hide *;
    IfAloneCode(x, t, l, cont, brk);
    var g := GenExpr(x.cond, t, l);
    var g0 := GenStmt(x.thenClause, g.temps, g.labels, cont, brk);
    SitsThenLast(code, p, GenStmt(x, t, l, cont, brk).code, g.code, JumpC(g0.labels, g.result), g0.code, Label(g0.labels));
    IfThenLands(code, x, t, l, cont, brk, p);
  }

  lemma SitsThenLast(code: seq<Unit>, p: nat, whole: seq<Unit>, a: seq<Unit>, j: Unit, d: seq<Unit>, last: Unit)
    requires Sits(code, p, whole) && whole == a + ([j] + d + [last])
    ensures Sits(code, p, a) && Sits(code, p + |a| + 1, d)
    ensures |whole| == |a| + 2 + |d| && p + |whole| <= |code|
    ensures code[p + |a|] == j && code[p + |a| + 1 + |d|] == last
  {
    hide *;
    SitsThen(code, p, a, [j], d, [last]);
    assert code[p + |a| + 1 + |d| + 0] == [last][0];
  }

  lemma IfElseLands(code: seq<Unit>, x: Stmt, t: int, l: int, cont: Option<int>, brk: Option<int>, p: nat)
    requires x.If? && x.elseClause.Some? && Sits(code, p, GenStmt(x, t, l, cont, brk).code)
    ensures var g := GenExpr(x.cond, t, l);
            var g0 := GenStmt(x.thenClause, g.temps, g.labels, cont, brk);
            IfLayout(code, x, t, l, cont, brk, p, p + |g.code| + 2 + |g0.code|)
  {
    hide *;
    IfCode(x, t, l, cont, brk);
    var g := GenExpr(x.cond, t, l);
    var g0 := GenStmt(x.thenClause, g.temps, g.labels, cont, brk);
    var g1 := GenStmt(x.elseClause.value, g0.temps, g0.labels, cont, brk);
    SitsElse(code, p, GenStmt(x, t, l, cont, brk).code, g.code, JumpC(g1.labels, g.result), g0.code,
      Jump(g1.labels + 1), Label(g1.labels), g1.code, Label(g1.labels + 1));
    IfElseLayoutIs(code, x, t, l, cont, brk, p);
  }

  lemma SitsElse(
    code: seq<Unit>, p: nat, whole: seq<Unit>, a: seq<Unit>, j: Unit, d: seq<Unit>, over: Unit, mid: Unit, e: seq<Unit>, last: Unit)
    requires Sits(code, p, whole) && whole == a + ([j] + d + [over, mid]) + e + [last]
    ensures Sits(code, p, a) && Sits(code, p + |a| + 1, d) && Sits(code, p + |a| + 3 + |d|, e)
    ensures |whole| == |a| + 4 + |d| + |e| && p + |whole| <= |code|
    ensures code[p + |a|] == j && code[p + |a| + 1 + |d|] == over && code[p + |a| + 2 + |d|] == mid
    ensures code[p + |whole| - 1] == last
  {
    hide *;
    var head, b := a + ([j] + d + [over, mid]), [over, mid];
    SitsSplit(code, p, head + e, [last]);
    SitsSplit(code, p, head, e);
    SitsThen(code, p, a, [j], d, b);
    SitsUnit(code, p + |head + e|, [last], 0);
    assert code[p + |a| + 1 + |d| + 0] == b[0] && code[p + |a| + 1 + |d| + 1] == b[1];
  }

  lemma IfElseLayoutIs(code: seq<Unit>, x: Stmt, t: int, l: int, cont: Option<int>, brk: Option<int>, p: nat)
    requires x.If? && x.elseClause.Some?
    requires var g := GenExpr(x.cond, t, l);
             var g0 := GenStmt(x.thenClause, g.temps, g.labels, cont, brk);
             var g1 := GenStmt(x.elseClause.value, g0.temps, g0.labels, cont, brk);
             var q := p + |g.code|;
             var end := q + 4 + |g0.code| + |g1.code|;
             && Sits(code, p, g.code) && Sits(code, q + 1, g0.code) && Sits(code, q + 3 + |g0.code|, g1.code)
             && end == p + |GenStmt(x, t, l, cont, brk).code| <= |code|
             && code[q] == JumpC(g1.labels, g.result) && code[q + 1 + |g0.code|] == Jump(g1.labels + 1)
             && code[q + 2 + |g0.code|] == Label(g1.labels) && code[end - 1] == Label(g1.labels + 1)
    ensures var g := GenExpr(x.cond, t, l);
            var g0 := GenStmt(x.thenClause, g.temps, g.labels, cont, brk);
            IfLayout(code, x, t, l, cont, brk, p, p + |g.code| + 2 + |g0.code|)
  {
    hide GenExpr, GenStmt, Sits;
  }

  /** Evaluates a condition and branches: to the next unit when it holds, past the label otherwise. */
  lemma BranchOn(
    code: seq<Unit>, c: Context, e: Expr, t: int, l: int, s: State, n: nat, p: nat, st: Store, target: nat)
    returns (m: nat)
    requires ContextOk(c) && DistinctLabels(code) && Arrived(code, c, s, n, p, st)
    requires Sits(code, p, GenExpr(e, t, l).code) && Ast.ExprOk(c, e) && Ast.Condition(e) && Ast.Eval(c, e, st).Val?
    requires var q := p + |GenExpr(e, t, l).code|;
             && q < |code| && target < |code| && code[target].Label?
             && code[q] == JumpC(code[target].id, GenExpr(e, t, l).result)
    ensures m >= n
    ensures Ast.Eval(c, e, st).word != 0 ==> Arrived(code, c, s, m, p + |GenExpr(e, t, l).code| + 1, Ast.Eval(c, e, st).st)
    ensures Ast.Eval(c, e, st).word == 0 ==> Arrived(code, c, s, m, target + 1, Ast.Eval(c, e, st).st)
  {
    hide *;
    var g, r := GenExpr(e, t, l), Ast.Eval(c, e, st);
    var q := p + |g.code|;
    ArrivedState(code, c, s, n, p, st);
    var s1 := Run(code, c, s, n);
    StartReached(code, c, s1, st, t);
    var k, w := ReachedExpr(code, c, s1, 0, t, p, st, Lit(0), 0, e, t, l);
    ReachedBranch(code, c, s1, k, t, q, r.st, g.result, w, code[target].id, target);
    if w == 0 {
      ReachedArrived(code, c, s1, k + 2, t, target + 1, r.st, g.result, w);
      ArrivedLater(code, c, s, n, k + 2, target + 1, r.st);
      m := n + (k + 2);
    } else {
      ReachedArrived(code, c, s1, k + 1, t, q + 1, r.st, g.result, w);
      ArrivedLater(code, c, s, n, k + 1, q + 1, r.st);
      m := n + (k + 1);
    }
  }

  lemma StmtStart(
    code: seq<Unit>, c: Context, x: Stmt, t: int, l: int, cont: Option<int>, brk: Option<int>, inLoop: bool,
    s: State, st: Store)
    requires StmtReady(code, c, x, t, l, cont, brk, inLoop, s, st)
    ensures ContextOk(c) && DistinctLabels(code) && Ast.StmtOk(c, x, inLoop) && TargetsExist(code, inLoop, cont, brk)
    ensures Sits(code, s.pc, GenStmt(x, t, l, cont, brk).code) && Arrived(code, c, s, 0, s.pc, st)
  {
    hide GenStmt, Represents, DistinctLabels, Sits, IndexOf, Ast.StmtOk;
  }

  lemma StmtStarts(
    code: seq<Unit>, c: Context, x: Stmt, t: int, l: int, cont: Option<int>, brk: Option<int>, inLoop: bool,
    s: State, n: nat, p: nat, st: Store)
    requires ContextOk(c) && DistinctLabels(code) && Ast.StmtOk(c, x, inLoop) && TargetsExist(code, inLoop, cont, brk)
    requires Sits(code, p, GenStmt(x, t, l, cont, brk).code) && Arrived(code, c, s, n, p, st)
    ensures StmtReady(code, c, x, t, l, cont, brk, inLoop, Run(code, c, s, n), st) && Run(code, c, s, n).pc == p
  {
    hide GenStmt, Represents, DistinctLabels, Sits, IndexOf, Ast.StmtOk;
  }

  lemma {:induction false} IfCorrect(
    code: seq<Unit>, c: Context, x: Stmt, t: int, l: int, cont: Option<int>, brk: Option<int>, inLoop: bool,
    s: State, st: Store, fuel: nat)
    returns (n: nat)
    requires StmtReady(code, c, x, t, l, cont, brk, inLoop, s, st) && x.If? && !Ast.Exec(c, x, st, fuel).Undefined?
    ensures Follows(code, c, s, n, Ast.Exec(c, x, st, fuel), fuel, s.pc + |GenStmt(x, t, l, cont, brk).code|, cont, brk)
    decreases fuel, x, 1
  {
    hide *;
    StmtStart(code, c, x, t, l, cont, brk, inLoop, s, st);
    IfMeaning(c, x, inLoop, st, fuel);
    var target := IfLands(code, x, t, l, cont, brk, s.pc);
    IfPlaces(code, x, t, l, cont, brk, s.pc, target);
    var g, r := GenExpr(x.cond, t, l), Ast.Eval(c, x.cond, st);
    var g0 := GenStmt(x.thenClause, g.temps, g.labels, cont, brk);
    var q, end := s.pc + |g.code|, s.pc + |GenStmt(x, t, l, cont, brk).code|;
    var m := BranchOn(code, c, x.cond, t, l, s, 0, s.pc, st, target);
    if r.word != 0 {
      StmtStarts(code, c, x.thenClause, g.temps, g.labels, cont, brk, inLoop, s, m, q + 1, r.st);
      var k := StmtCorrect(code, c, x.thenClause, g.temps, g.labels, cont, brk, inLoop, Run(code, c, s, m), r.st, fuel);
      var o := Ast.Exec(c, x.thenClause, r.st, fuel);
      FollowsLater(code, c, s, m, k, o, fuel, fuel, q + 1 + |g0.code|, cont, brk);
      n := ThenDone(code, c, x, t, l, cont, brk, s, m + k, o, fuel, target);
    } else if x.elseClause.Some? {
      var g1 := GenStmt(x.elseClause.value, g0.temps, g0.labels, cont, brk);
      StmtStarts(code, c, x.elseClause.value, g0.temps, g0.labels, cont, brk, inLoop, s, m, target + 1, r.st);
      var k := StmtCorrect(code, c, x.elseClause.value, g0.temps, g0.labels, cont, brk, inLoop, Run(code, c, s, m), r.st, fuel);
      var o := Ast.Exec(c, x.elseClause.value, r.st, fuel);
      FollowsLater(code, c, s, m, k, o, fuel, fuel, end - 1, cont, brk);
      n := PastLabel(code, c, s, m + k, o, fuel, end - 1, cont, brk);
    } else {
      n := m;
      FallFollows(code, c, s, n, Ast.Done(Ast.Fall, r.st), fuel, end, cont, brk);
    }
  }

  lemma IfPlaces(
    code: seq<Unit>, x: Stmt, t: int, l: int, cont: Option<int>, brk: Option<int>, p: nat, target: nat)
    requires x.If? && IfLayout(code, x, t, l, cont, brk, p, target)
    ensures var g := GenExpr(x.cond, t, l);
            var g0 := GenStmt(x.thenClause, g.temps, g.labels, cont, brk);
            var q, end := p + |g.code|, p + |GenStmt(x, t, l, cont, brk).code|;
            && Sits(code, p, g.code) && Sits(code, q + 1, g0.code) && q < target < |code| && 0 < end <= |code|
            && code[target].Label? && code[q] == JumpC(code[target].id, g.result)
            && (x.elseClause.Some? ==>
                  var g1 := GenStmt(x.elseClause.value, g0.temps, g0.labels, cont, brk);
                  end - 1 == target + 1 + |g1.code| && code[end - 1].Label? && Sits(code, target + 1, g1.code))
            && (x.elseClause.None? ==> end == target + 1)
  {
    hide GenStmt, GenExpr, Sits;
  }

  /** A fragment followed by a label: falling through steps over the label. */
  lemma PastLabel(
    code: seq<Unit>, c: Context, s: State, n: nat, o: Ast.Outcome, fuel: nat, p: nat, cont: Option<int>, brk: Option<int>)
    returns (m: nat)
    requires Follows(code, c, s, n, o, fuel, p, cont, brk) && p < |code| && code[p].Label?
    ensures m >= n && Follows(code, c, s, m, o, fuel, p + 1, cont, brk)
  {
    hide *;
    if o.Done? && o.exit.Fall? {
      FollowsFall(code, c, s, n, o, fuel, p, cont, brk);
      ArrivedLabel(code, c, s, n, p, o.st);
      FallFollows(code, c, s, n + 1, o, fuel, p + 1, cont, brk);
      m := n + 1;
    } else {
      EarlyExit(code, c, s, n, o, fuel, p, p + 1, cont, brk);
      m := n;
    }
  }

  /** After the then-part: over the label, or by the jump to the end. */
  lemma ThenDone(
    code: seq<Unit>, c: Context, x: Stmt, t: int, l: int, cont: Option<int>, brk: Option<int>,
    s: State, n: nat, o: Ast.Outcome, fuel: nat, target: nat)
    returns (m: nat)
    requires x.If? && IfLayout(code, x, t, l, cont, brk, s.pc, target) && DistinctLabels(code)
    requires var g := GenExpr(x.cond, t, l);
             Follows(code, c, s, n, o, fuel,
                     s.pc + |g.code| + 1 + |GenStmt(x.thenClause, g.temps, g.labels, cont, brk).code|, cont, brk)
    ensures Follows(code, c, s, m, o, fuel, s.pc + |GenStmt(x, t, l, cont, brk).code|, cont, brk)
  {
    hide GenStmt, GenExpr, Sits, Follows, Run, IndexOf, Arrived, DistinctLabels;
    var g := GenExpr(x.cond, t, l);
    var p := s.pc + |g.code| + 1 + |GenStmt(x.thenClause, g.temps, g.labels, cont, brk).code|;
    var end := s.pc + |GenStmt(x, t, l, cont, brk).code|;
    if x.elseClause.None? {
      m := PastLabel(code, c, s, n, o, fuel, p, cont, brk);
    } else if o.Done? && o.exit.Fall? {
      FollowsFall(code, c, s, n, o, fuel, p, cont, brk);
      LabelFound(code, end - 1, code[end - 1].id);
      ArrivedJump(code, c, s, n, p, o.st, code[end - 1].id);
      ArrivedLabel(code, c, s, n + 1, end - 1, o.st);
      FallFollows(code, c, s, n + 2, o, fuel, end, cont, brk);
      m := n + 2;
    } else {
      EarlyExit(code, c, s, n, o, fuel, p, end, cont, brk);
      m := n;
    }
  }

  // ----- loops -----

  ghost predicate WhileLayout(code: seq<Unit>, x: Stmt, t: int, l: int, p: nat)
    requires x.While?
  {
    var g := GenExpr(x.cond, t, l);
    var g0 := GenStmt(x.body, g.temps, g.labels + 2, Some(g.labels), Some(g.labels + 1));
    var q, end := p + 1 + |g.code|, p + |GenStmt(x, t, l, None, None).code|;
    && end == q + 3 + |g0.code| && end <= |code|
    && code[p] == Label(g.labels) && Sits(code, p + 1, g.code)
    && code[q] == JumpC(g.labels + 1, g.result) && Sits(code, q + 1, g0.code)
    && code[end - 2] == Jump(g.labels) && code[end - 1] == Label(g.labels + 1)
  }

  lemma WhileCode(x: Stmt, t: int, l: int, cont: Option<int>, brk: Option<int>)
    requires x.While?
    ensures var g := GenExpr(x.cond, t, l);
            var g0 := GenStmt(x.body, g.temps, g.labels + 2, Some(g.labels), Some(g.labels + 1));
            GenStmt(x, t, l, cont, brk).code
            == [Label(g.labels)] + g.code + [JumpC(g.labels + 1, g.result)] + g0.code + [Jump(g.labels), Label(g.labels + 1)]
  {
    hide GenExpr, GenInit, GenBlock, ByteStride, DeclarationCast, IndexOf;
  }

  lemma WhileLands(code: seq<Unit>, x: Stmt, t: int, l: int, cont: Option<int>, brk: Option<int>, p: nat)
    requires x.While? && Sits(code, p, GenStmt(x, t, l, cont, brk).code)
    ensures WhileLayout(code, x, t, l, p) && |GenStmt(x, t, l, None, None).code| == |GenStmt(x, t, l, cont, brk).code|
  {
    hide *;
    WhileCode(x, t, l, cont, brk);
    WhileCode(x, t, l, None, None);
    var g := GenExpr(x.cond, t, l);
    var g0 := GenStmt(x.body, g.temps, g.labels + 2, Some(g.labels), Some(g.labels + 1));
    var a, b, d := [Label(g.labels)], [JumpC(g.labels + 1, g.result)], [Jump(g.labels), Label(g.labels + 1)];
    WhileAssoc(a, g.code, b, g0.code, d);
    SitsSplit(code, p, a, g.code + (b + g0.code + d));
    SitsUnit(code, p, a, 0);
    SitsThen(code, p + 1, g.code, b, g0.code, d);
    assert code[p + 1 + |g.code| + 1 + |g0.code| + 0] == d[0] && code[p + 1 + |g.code| + 1 + |g0.code| + 1] == d[1];
    WhileLayoutIs(code, x, t, l, p);
  }

  lemma WhileLayoutIs(code: seq<Unit>, x: Stmt, t: int, l: int, p: nat)
    requires x.While?
    requires var g := GenExpr(x.cond, t, l);
             var g0 := GenStmt(x.body, g.temps, g.labels + 2, Some(g.labels), Some(g.labels + 1));
             var q, end := p + 1 + |g.code|, p + 4 + |g.code| + |g0.code|;
             && end == p + |GenStmt(x, t, l, None, None).code| <= |code|
             && code[p] == Label(g.labels) && Sits(code, p + 1, g.code)
             && code[q] == JumpC(g.labels + 1, g.result) && Sits(code, q + 1, g0.code)
             && code[end - 2] == Jump(g.labels) && code[end - 1] == Label(g.labels + 1)
    ensures WhileLayout(code, x, t, l, p)
  {
    hide GenExpr, GenStmt, Sits;
  }

  lemma WhileAssoc(a: seq<Unit>, g: seq<Unit>, b: seq<Unit>, g0: seq<Unit>, d: seq<Unit>)
    ensures a + g + b + g0 + d == a + (g + (b + g0 + d))
  {
  }

  lemma WhilePlaces(code: seq<Unit>, x: Stmt, t: int, l: int, p: nat)
    requires x.While? && WhileLayout(code, x, t, l, p) && DistinctLabels(code)
    ensures var g := GenExpr(x.cond, t, l);
            var g0 := GenStmt(x.body, g.temps, g.labels + 2, Some(g.labels), Some(g.labels + 1));
            var q, end := p + 1 + |g.code|, p + |GenStmt(x, t, l, None, None).code|;
            && end == q + 3 + |g0.code| && end <= |code|
            && code[p] == Label(g.labels) && Sits(code, p + 1, g.code)
            && code[q] == JumpC(g.labels + 1, g.result) && Sits(code, q + 1, g0.code)
            && code[end - 2] == Jump(g.labels) && code[end - 1] == Label(g.labels + 1)
            && IndexOf(code, Label(g.labels)) == Some(p) && IndexOf(code, Label(g.labels + 1)) == Some(end - 1)
            && TargetsExist(code, true, Some(g.labels), Some(g.labels + 1))
  {
    hide GenExpr, GenStmt, Sits, DistinctLabels, IndexOf;
    var g := GenExpr(x.cond, t, l);
    LabelFound(code, p, g.labels);
    LabelFound(code, p + |GenStmt(x, t, l, None, None).code| - 1, g.labels + 1);
  }

  lemma WhileMeaning(c: Context, x: Stmt, inLoop: bool, st: Store, fuel: nat)
    requires x.While? && Ast.StmtOk(c, x, inLoop) && !Ast.Exec(c, x, st, fuel).Undefined?
    ensures Ast.ExprOk(c, x.cond) && Ast.Condition(x.cond) && Ast.StmtOk(c, x.body, true)
    ensures fuel == 0 ==> Ast.Exec(c, x, st, fuel).OutOfFuel?
    ensures fuel > 0 ==>
              var r := Ast.Eval(c, x.cond, st);
              && r.Val?
              && (r.word == 0 ==> Ast.Exec(c, x, st, fuel) == Ast.Done(Ast.Fall, r.st))
              && (r.word != 0 ==>
                    var o := Ast.Exec(c, x.body, r.st, fuel);
                    && !o.Undefined?
                    && Ast.Exec(c, x, st, fuel)
                       == if o.Done? && (o.exit.Fall? || o.exit.Cont?) then Ast.Exec(c, x, o.st, fuel - 1)
                          else if o.Done? && o.exit.Brk? then Ast.Done(Ast.Fall, o.st)
                          else o)
  {
    hide Ast.Eval, Ast.ExprOk, Ast.Condition;
  }

  lemma {:induction false} WhileCorrect(
    code: seq<Unit>, c: Context, x: Stmt, t: int, l: int, cont: Option<int>, brk: Option<int>, inLoop: bool,
    s: State, st: Store, fuel: nat)
    returns (n: nat)
    requires StmtReady(code, c, x, t, l, cont, brk, inLoop, s, st) && x.While? && !Ast.Exec(c, x, st, fuel).Undefined?
    ensures Follows(code, c, s, n, Ast.Exec(c, x, st, fuel), fuel, s.pc + |GenStmt(x, t, l, cont, brk).code|, cont, brk)
    decreases fuel, x, 1
  {
    hide *;
    StmtStart(code, c, x, t, l, cont, brk, inLoop, s, st);
    WhileMeaning(c, x, inLoop, st, fuel);
    if fuel == 0 {
      n := 0;
      NoFuel(code, c, s, st, Ast.Exec(c, x, st, fuel), s.pc + |GenStmt(x, t, l, cont, brk).code|, cont, brk);
      return;
    }
    WhileLands(code, x, t, l, cont, brk, s.pc);
    WhilePlaces(code, x, t, l, s.pc);
    var g, r := GenExpr(x.cond, t, l), Ast.Eval(c, x.cond, st);
    var q, end := s.pc + 1 + |g.code|, s.pc + |GenStmt(x, t, l, None, None).code|;
    ArrivedLabel(code, c, s, 0, s.pc, st);
    var m := BranchOn(code, c, x.cond, t, l, s, 1, s.pc + 1, st, end - 1);
    if r.word == 0 {
      n := m;
      FallFollows(code, c, s, n, Ast.Done(Ast.Fall, r.st), fuel, end, cont, brk);
    } else {
      var start, stop := Some(g.labels), Some(g.labels + 1);
      StmtStarts(code, c, x.body, g.temps, g.labels + 2, start, stop, true, s, m, q + 1, r.st);
      var o := Ast.Exec(c, x.body, r.st, fuel);
      var k := StmtCorrect(code, c, x.body, g.temps, g.labels + 2, start, stop, true, Run(code, c, s, m), r.st, fuel);
      FollowsLater(code, c, s, m, k, o, fuel, fuel, end - 2, start, stop);
      var j := BodyDone(code, c, x, t, l, s, m + k, o, fuel);
      if o.Done? && (o.exit.Fall? || o.exit.Cont?) {
        StmtStarts(code, c, x, t, l, cont, brk, inLoop, s, j, s.pc, o.st);
        var i := WhileCorrect(code, c, x, t, l, cont, brk, inLoop, Run(code, c, s, j), o.st, fuel - 1);
        FollowsLater(code, c, s, j, i, Ast.Exec(c, x, o.st, fuel - 1), fuel - 1, fuel, end, cont, brk);
        n := j + i;
      } else if o.Done? && o.exit.Brk? {
        n := j;
        FallFollows(code, c, s, n, Ast.Done(Ast.Fall, o.st), fuel, end, cont, brk);
      } else {
        n := j;
        ExitFollows(code, c, s, n, o, fuel, end - 2, end, start, stop, cont, brk);
      }
    }
  }

  lemma NoFuel(
    code: seq<Unit>, c: Context, s: State, st: Store, o: Ast.Outcome, end: nat, cont: Option<int>, brk: Option<int>)
    requires o.OutOfFuel? && Arrived(code, c, s, 0, s.pc, st)
    ensures Follows(code, c, s, 0, o, 0, end, cont, brk)
  {
  }

  /** Returning, or running out of fuel, does not depend on where jumps would have gone. */
  lemma ExitFollows(
    code: seq<Unit>, c: Context, s: State, n: nat, o: Ast.Outcome, fuel: nat, end: nat, end': nat,
    cont: Option<int>, brk: Option<int>, cont': Option<int>, brk': Option<int>)
    requires Follows(code, c, s, n, o, fuel, end, cont, brk) && (o.OutOfFuel? || (o.Done? && o.exit.Ret?))
    ensures Follows(code, c, s, n, o, fuel, end', cont', brk')
  {
  }

  /** After the body: back at the start of the loop, or behind its end. */
  lemma BodyDone(code: seq<Unit>, c: Context, x: Stmt, t: int, l: int, s: State, n: nat, o: Ast.Outcome, fuel: nat)
    returns (m: nat)
    requires x.While? && WhileLayout(code, x, t, l, s.pc) && DistinctLabels(code) && n >= 1
    requires var g := GenExpr(x.cond, t, l);
             Follows(code, c, s, n, o, fuel, s.pc + |GenStmt(x, t, l, None, None).code| - 2, Some(g.labels), Some(g.labels + 1))
    ensures m >= n
    ensures o.Done? && (o.exit.Fall? || o.exit.Cont?) ==> Arrived(code, c, s, m, s.pc, o.st)
    ensures o.Done? && o.exit.Brk? ==> Arrived(code, c, s, m, s.pc + |GenStmt(x, t, l, None, None).code|, o.st)
    ensures o.OutOfFuel? || (o.Done? && o.exit.Ret?) ==> m == n
  {
    hide *;
    WhilePlaces(code, x, t, l, s.pc);
    var g := GenExpr(x.cond, t, l);
    var end := s.pc + |GenStmt(x, t, l, None, None).code|;
    m := n;
    if o.Done? && o.exit.Fall? {
      FollowsFall(code, c, s, n, o, fuel, end - 2, Some(g.labels), Some(g.labels + 1));
      ArrivedJump(code, c, s, n, end - 2, o.st, g.labels);
      m := n + 1;
    } else if o.Done? && (o.exit.Cont? || o.exit.Brk?) {
      FollowsJump(code, c, s, n, o, fuel, end - 2, g.labels, g.labels + 1);
      if o.exit.Brk? {
        ArrivedLabel(code, c, s, n, end - 1, o.st);
        m := n + 1;
      }
    }
  }

  lemma FollowsJump(
    code: seq<Unit>, c: Context, s: State, n: nat, o: Ast.Outcome, fuel: nat, end: nat, cont: int, brk: int)
    requires Follows(code, c, s, n, o, fuel, end, Some(cont), Some(brk)) && o.Done?
    ensures o.exit.Cont? ==> IndexOf(code, Label(cont)).Some? && Arrived(code, c, s, n, IndexOf(code, Label(cont)).value, o.st)
    ensures o.exit.Brk? ==> IndexOf(code, Label(brk)).Some? && Arrived(code, c, s, n, IndexOf(code, Label(brk)).value, o.st)
  {
  }

  // ----- the remaining statements -----

  lemma SimpleCorrect(
    code: seq<Unit>, c: Context, x: Stmt, t: int, l: int, cont: Option<int>, brk: Option<int>, inLoop: bool,
    s: State, st: Store, fuel: nat)
    returns (n: nat)
    requires StmtReady(code, c, x, t, l, cont, brk, inLoop, s, st) && !x.Block? && !x.If? && !x.While? && !Ast.Exec(c, x, st, fuel).Undefined?
    ensures Follows(code, c, s, n, Ast.Exec(c, x, st, fuel), fuel, s.pc + |GenStmt(x, t, l, cont, brk).code|, cont, brk)
  {
    hide *;
    SimpleIs(x);
    match x {
      case AssignStmt(lhs, rhs) =>
        AssignStart(code, c, x, t, l, cont, brk, inLoop, s, st, fuel);
        var o, end := Ast.AssignTo(c, lhs, rhs, st), s.pc + |GenStmt(x, t, l, None, None).code|;
        if lhs.Symbol? {
          n := ScalarAssignCorrect(code, c, x, t, l, s, st);
        } else {
          n := ElementAssignCorrect(code, c, x, t, l, s, st);
        }
        AssignFalls(code, c, lhs, rhs, s, n, st, end);
        FallFollows(code, c, s, n, o, fuel, end, cont, brk);
      case Declare(op, length, init) =>
        DeclareStart(code, c, x, t, l, cont, brk, inLoop, s, st, fuel);
        n := InitCorrect(code, c, op, length, init, t, l, s, st);
        FallFollows(code, c, s, n, Ast.Init(c, op, length, init, st), fuel, s.pc + |GenStmt(x, t, l, cont, brk).code|, cont, brk);
      case ExprStmt(e) => n := ExprStmtCorrect(code, c, x, t, l, cont, brk, inLoop, s, st, fuel);
      case Return(v) => n := ReturnCorrect(code, c, x, t, l, cont, brk, inLoop, s, st, fuel);
      case _ => n := JumpsCorrect(code, c, x, t, l, cont, brk, inLoop, s, st, fuel);
    }
  }

  lemma SimpleIs(x: Stmt)
    requires !x.Block? && !x.If? && !x.While?
    ensures x.AssignStmt? || x.Declare? || x.ExprStmt? || x.Return? || x.Empty? || x.Break? || x.Continue?
  {
  }

  lemma AssignStart(
    code: seq<Unit>, c: Context, x: Stmt, t: int, l: int, cont: Option<int>, brk: Option<int>, inLoop: bool,
    s: State, st: Store, fuel: nat)
    requires StmtReady(code, c, x, t, l, cont, brk, inLoop, s, st) && x.AssignStmt? && !Ast.Exec(c, x, st, fuel).Undefined?
    ensures GenStmt(x, t, l, cont, brk) == GenStmt(x, t, l, None, None)
    ensures Ready(code, c, GenStmt(x, t, l, None, None).code, s, st)
    ensures Ast.StmtOk(c, x, false) && (x.lhs.Symbol? || x.lhs.OffsetExpr?)
    ensures Ast.Exec(c, x, st, fuel) == Ast.AssignTo(c, x.lhs, x.rhs, st) && Ast.AssignTo(c, x.lhs, x.rhs, st).Done?
  {
    hide Ast.Eval, Ast.ExprOk, Ast.Arith, GenExpr, Sits, Represents, DistinctLabels, IndexOf;
  }

  lemma AssignFalls(code: seq<Unit>, c: Context, lhs: Expr, rhs: Expr, s: State, n: nat, st: Store, end: nat)
    requires Ast.AssignTo(c, lhs, rhs, st).Done? && Follows(code, c, s, n, Ast.AssignTo(c, lhs, rhs, st), 0, end, None, None)
    ensures Ast.AssignTo(c, lhs, rhs, st).exit.Fall? && Arrived(code, c, s, n, end, Ast.AssignTo(c, lhs, rhs, st).st)
  {
    hide Ast.Eval, Arrived;
  }

  lemma DeclareStart(
    code: seq<Unit>, c: Context, x: Stmt, t: int, l: int, cont: Option<int>, brk: Option<int>, inLoop: bool,
    s: State, st: Store, fuel: nat)
    requires StmtReady(code, c, x, t, l, cont, brk, inLoop, s, st) && x.Declare? && !Ast.Exec(c, x, st, fuel).Undefined?
    ensures ContextOk(c) && DistinctLabels(code) && Represents(st, s, []) && InitOk(c, x.op, x.length, x.init)
    ensures GenStmt(x, t, l, cont, brk).code == GenInit(x.op, x.length, x.init, t, l).code
    ensures Sits(code, s.pc, GenInit(x.op, x.length, x.init, t, l).code)
    ensures Ast.Exec(c, x, st, fuel) == Ast.Init(c, x.op, x.length, x.init, st) && Ast.Init(c, x.op, x.length, x.init, st).Done?
  {
    hide Ast.Eval, Ast.ExprOk, Ast.Arith, GenInit, Sits, Represents, DistinctLabels, IndexOf;
    InitEnds(c, x.op, x.length, x.init, st);
    hide Ast.Init;
  }

  lemma {:induction false} InitEnds(c: Context, op: Operand, length: int, init: seq<Ast.Alignment>, st: Store)
    ensures !Ast.Init(c, op, length, init, st).OutOfFuel?
    decreases |init|
  {
    hide Ast.Eval, Wrap, Ast.ElementAddress, Value;
    if init != [] {
      var o := InitStep(c, op, length, init[0], st);
      if o.Done? {
        InitEnds(c, op, length, init[1..], o.st);
      }
    }
  }

  lemma JumpsCorrect(
    code: seq<Unit>, c: Context, x: Stmt, t: int, l: int, cont: Option<int>, brk: Option<int>, inLoop: bool,
    s: State, st: Store, fuel: nat)
    returns (n: nat)
    requires StmtReady(code, c, x, t, l, cont, brk, inLoop, s, st) && (x.Empty? || x.Break? || x.Continue?)
    ensures Follows(code, c, s, n, Ast.Exec(c, x, st, fuel), fuel, s.pc + |GenStmt(x, t, l, cont, brk).code|, cont, brk)
  {
    hide Represents, DistinctLabels, IndexOf, Arrived, Sits;
    StmtStart(code, c, x, t, l, cont, brk, inLoop, s, st);
    if x.Empty? {
      n := 0;
    } else {
      SitsUnit(code, s.pc, GenStmt(x, t, l, cont, brk).code, 0);
      ArrivedJump(code, c, s, 0, s.pc, st, if x.Break? then brk.value else cont.value);
      n := 1;
    }
  }

  lemma ReturnStep(code: seq<Unit>, c: Context, s: State, n: nat, t: int, p: nat, st: Store, o: Operand, w: Word)
    requires Reached(code, c, s, n, t, p, st, o, w) && p < |code| && code[p] == RetI(o)
    ensures Stopped(code, c, s, n + 1, Some(w), st)
  {
    hide KeepsTemps, Value;
    OneMore(code, c, s, n, RetI(o));
  }

  lemma ReturnNothing(code: seq<Unit>, c: Context, s: State, n: nat, p: nat, st: Store)
    requires Arrived(code, c, s, n, p, st) && p < |code| && code[p] == RetV
    ensures Stopped(code, c, s, n + 1, None, st)
  {
    OneMore(code, c, s, n, RetV);
  }

  lemma StoppedFollows(
    code: seq<Unit>, c: Context, s: State, n: nat, o: Ast.Outcome, fuel: nat, end: nat, cont: Option<int>, brk: Option<int>,
    v: Option<Word>, st: Store)
    requires o == Ast.Done(Ast.Ret(v), st) && Stopped(code, c, s, n, v, st)
    ensures Follows(code, c, s, n, o, fuel, end, cont, brk)
  {
  }

  lemma ReturnStart(
    code: seq<Unit>, c: Context, x: Stmt, t: int, l: int, cont: Option<int>, brk: Option<int>, inLoop: bool,
    s: State, st: Store, fuel: nat)
    requires StmtReady(code, c, x, t, l, cont, brk, inLoop, s, st) && x.Return? && !Ast.Exec(c, x, st, fuel).Undefined?
    ensures x.val.None? ==>
              s.pc < |code| && code[s.pc] == RetV && Ast.Exec(c, x, st, fuel) == Ast.Done(Ast.Ret(None), st)
    ensures x.val.Some? ==>
              var e, g := x.val.value, GenExpr(x.val.value, t, l);
              && Sits(code, s.pc, g.code) && s.pc + |g.code| < |code| && code[s.pc + |g.code|] == RetI(g.result)
              && Ast.ExprOk(c, e) && Ast.Condition(e) && Ast.Arith(e) && Ast.Eval(c, e, st).Val?
              && Ast.Exec(c, x, st, fuel) == Ast.Done(Ast.Ret(Some(Ast.Eval(c, e, st).word)), Ast.Eval(c, e, st).st)
  {
    hide Ast.Eval, Ast.ExprOk, Ast.Arith, GenExpr, Sits, Represents, DistinctLabels, IndexOf;
    if x.val.None? {
      SitsUnit(code, s.pc, [RetV], 0);
    } else {
      var g := GenExpr(x.val.value, t, l);
      SitsSplit(code, s.pc, g.code, [RetI(g.result)]);
      SitsUnit(code, s.pc + |g.code|, [RetI(g.result)], 0);
    }
  }

  lemma ReturnCorrect(
    code: seq<Unit>, c: Context, x: Stmt, t: int, l: int, cont: Option<int>, brk: Option<int>, inLoop: bool,
    s: State, st: Store, fuel: nat)
    returns (n: nat)
    requires StmtReady(code, c, x, t, l, cont, brk, inLoop, s, st) && x.Return? && !Ast.Exec(c, x, st, fuel).Undefined?
    ensures Follows(code, c, s, n, Ast.Exec(c, x, st, fuel), fuel, s.pc + |GenStmt(x, t, l, cont, brk).code|, cont, brk)
  {
    hide *;
    StmtStart(code, c, x, t, l, cont, brk, inLoop, s, st);
    ReturnStart(code, c, x, t, l, cont, brk, inLoop, s, st, fuel);
    var o, end := Ast.Exec(c, x, st, fuel), s.pc + |GenStmt(x, t, l, cont, brk).code|;
    if x.val.None? {
      ReturnNothing(code, c, s, 0, s.pc, st);
      n := 1;
      StoppedFollows(code, c, s, n, o, fuel, end, cont, brk, None, st);
    } else {
      var e, g := x.val.value, GenExpr(x.val.value, t, l);
      ReadyStarts(code, c, s, st, t);
      var m, w := ReachedExpr(code, c, s, 0, t, s.pc, st, Lit(0), 0, e, t, l);
      ReturnStep(code, c, s, m, t, s.pc + |g.code|, Ast.Eval(c, e, st).st, g.result, w);
      n := m + 1;
      StoppedFollows(code, c, s, n, o, fuel, end, cont, brk, Some(w), Ast.Eval(c, e, st).st);
    }
  }

  lemma ReadyStarts(code: seq<Unit>, c: Context, s: State, st: Store, t: int)
    requires Arrived(code, c, s, 0, s.pc, st)
    ensures Represents(st, s, []) && Reached(code, c, s, 0, t, s.pc, st, Lit(0), 0)
  {
  }

  // ----- expression statements -----

  lemma ExprStmtStart(
    code: seq<Unit>, c: Context, x: Stmt, t: int, l: int, cont: Option<int>, brk: Option<int>, inLoop: bool,
    s: State, st: Store, fuel: nat)
    requires StmtReady(code, c, x, t, l, cont, brk, inLoop, s, st) && x.ExprStmt? && !Ast.Exec(c, x, st, fuel).Undefined?
    ensures GenStmt(x, t, l, cont, brk).code == GenExpr(x.exp, t, l).code && Sits(code, s.pc, GenExpr(x.exp, t, l).code)
    ensures Ast.Eval(c, x.exp, st).Val?
    ensures Ast.Exec(c, x, st, fuel) == Ast.Done(Ast.Fall, Ast.Eval(c, x.exp, st).st)
    ensures x.exp.CallExpr? && !x.exp.kind.IntCall? ==> forall a :: a in x.exp.args ==> Ast.ExprOk(c, a) && Ast.Arith(a)
    ensures !x.exp.CallExpr? || x.exp.kind.IntCall? ==> Ast.ExprOk(c, x.exp) && Ast.Arith(x.exp) && Ast.Condition(x.exp)
  {
    hide Ast.Eval, GenExpr, Sits, Represents, DistinctLabels, IndexOf;
  }

  lemma ExprStmtCorrect(
    code: seq<Unit>, c: Context, x: Stmt, t: int, l: int, cont: Option<int>, brk: Option<int>, inLoop: bool,
    s: State, st: Store, fuel: nat)
    returns (n: nat)
    requires StmtReady(code, c, x, t, l, cont, brk, inLoop, s, st) && x.ExprStmt? && !Ast.Exec(c, x, st, fuel).Undefined?
    ensures Follows(code, c, s, n, Ast.Exec(c, x, st, fuel), fuel, s.pc + |GenStmt(x, t, l, cont, brk).code|, cont, brk)
  {
    hide *;
    StmtStart(code, c, x, t, l, cont, brk, inLoop, s, st);
    ExprStmtStart(code, c, x, t, l, cont, brk, inLoop, s, st, fuel);
    ReadyStarts(code, c, s, st, t);
    var e, g := x.exp, GenExpr(x.exp, t, l);
    if !e.CallExpr? || e.kind.IntCall? {
      var w;
      n, w := ReachedExpr(code, c, s, 0, t, s.pc, st, Lit(0), 0, e, t, l);
      ReachedArrived(code, c, s, n, t, s.pc + |g.code|, Ast.Eval(c, e, st).st, g.result, w);
    } else {
      n := VoidCallCorrect(code, c, e, t, l, s, st);
    }
    FallFollows(code, c, s, n, Ast.Exec(c, x, st, fuel), fuel, s.pc + |g.code|, cont, brk);
  }

  lemma CallVExec(code: seq<Unit>, c: Context, st: Store, s: State, name: string, words: seq<Word>)
    requires ContextOk(c) && Represents(st, s, words) && |words| == c.arity(name)
    ensures var s' := Exec(code, c, CallV(name), s);
            Represents(Ast.CallStore(c, name, words, st), s', []) && s'.pc == s.pc + 1
  {
    assert Exec(code, c, CallV(name), s) == Next(AfterCall(c, s, name));
    CallAgrees(c, st, s, name, words);
    hide AfterCall, Ast.CallStore, CallValue, Exec;
  }

  lemma CallVStep(code: seq<Unit>, c: Context, s: State, n: nat, p: nat, st: Store, name: string, words: seq<Word>)
    requires ContextOk(c) && |words| == c.arity(name)
    requires Run(code, c, s, n).pc == p && Represents(st, Run(code, c, s, n), words)
    requires p < |code| && code[p] == CallV(name)
    ensures Arrived(code, c, s, n + 1, p + 1, Ast.CallStore(c, name, words, st))
  {
    hide Run, Represents, Exec, Ast.CallStore;
    RepresentsStatus(st, Run(code, c, s, n), words);
    OneMore(code, c, s, n, CallV(name));
    CallVExec(code, c, st, Run(code, c, s, n), name, words);
  }

  /** The line number that a timing macro pushes last. */
  lemma LineStep(code: seq<Unit>, c: Context, s: State, n: nat, p: nat, st: Store, words: seq<Word>, line: Word)
    requires Run(code, c, s, n).pc == p && Represents(st, Run(code, c, s, n), words)
    requires p < |code| && code[p] == Arg(Lit(line))
    ensures Run(code, c, s, n + 1).pc == p + 1 && Represents(st, Run(code, c, s, n + 1), words + [line])
  {
    RepresentsStatus(st, Run(code, c, s, n), words);
    OneMore(code, c, s, n, Arg(Lit(line)));
  }

  ghost function VoidCalls(e: Expr): seq<Unit>
    requires e.CallExpr? && !e.kind.IntCall?
  {
    if e.kind.VoidCall? then [CallV(e.name)] else [Arg(Lit(e.kind.line)), CallV(Ast.MACRO_PREFIX + e.name)]
  }

  lemma VoidCallCode(e: Expr, t: int, l: int)
    requires e.CallExpr? && !e.kind.IntCall?
    ensures var a := GenArguments(e.args, t, l);
            GenExpr(e, t, l).code == a.code + Params(a.ops) + VoidCalls(e)
  {
    hide GenArguments, Params;
  }

  lemma VoidCallMeaning(c: Context, e: Expr, st: Store)
    requires e.CallExpr? && !e.kind.IntCall? && Ast.Eval(c, e, st).Val?
    ensures var r := Ast.EvalArgs(c, e.args, st);
            && r.ArgsVal?
            && (e.kind.VoidCall? ==>
                  |r.words| == c.arity(e.name) && Ast.Eval(c, e, st).st == Ast.CallStore(c, e.name, r.words, r.st))
            && (e.kind.MacroCall? ==>
                  var f, words := Ast.MACRO_PREFIX + e.name, r.words + [e.kind.line];
                  |words| == c.arity(f) && Ast.Eval(c, e, st).st == Ast.CallStore(c, f, words, r.st))
  {
    hide Ast.EvalArgs, Ast.CallStore;
  }

  lemma VoidCallStart(code: seq<Unit>, e: Expr, t: int, l: int, p: nat)
    requires e.CallExpr? && !e.kind.IntCall? && Sits(code, p, GenExpr(e, t, l).code)
    ensures var a := GenArguments(e.args, t, l);
            var q := p + |a.code| + |a.ops|;
            && Sits(code, p, a.code + Params(a.ops)) && q < |code|
            && (e.kind.VoidCall? ==> code[q] == CallV(e.name) && p + |GenExpr(e, t, l).code| == q + 1)
            && (e.kind.MacroCall? ==>
                  && q + 1 < |code| && code[q] == Arg(Lit(e.kind.line)) && code[q + 1] == CallV(Ast.MACRO_PREFIX + e.name)
                  && p + |GenExpr(e, t, l).code| == q + 2)
  {
    hide GenArguments, Sits, GenExpr;
    VoidCallCode(e, t, l);
    var a := GenArguments(e.args, t, l);
    SitsSplit(code, p, a.code + Params(a.ops), VoidCalls(e));
    SitsUnit(code, p + |a.code + Params(a.ops)|, VoidCalls(e), 0);
    if e.kind.MacroCall? {
      SitsUnit(code, p + |a.code + Params(a.ops)|, VoidCalls(e), 1);
    }
  }

  lemma VoidCallCorrect(code: seq<Unit>, c: Context, e: Expr, t: int, l: int, s: State, st: Store)
    returns (n: nat)
    requires ContextOk(c) && DistinctLabels(code) && Sits(code, s.pc, GenExpr(e, t, l).code) && Represents(st, s, [])
    requires e.CallExpr? && !e.kind.IntCall? && Ast.Eval(c, e, st).Val?
    requires forall a :: a in e.args ==> Ast.ExprOk(c, a) && Ast.Arith(a)
    ensures Arrived(code, c, s, n, s.pc + |GenExpr(e, t, l).code|, Ast.Eval(c, e, st).st)
  {
    hide *;
    VoidCallStart(code, e, t, l, s.pc);
    VoidCallMeaning(c, e, st);
    var a, r := GenArguments(e.args, t, l), Ast.EvalArgs(c, e.args, st);
    ReadyFrom(code, c, a.code + Params(a.ops), s, st);
    n := ArgsPushed(code, c, e.args, t, l, s, st);
    var q := s.pc + |a.code| + |a.ops|;
    if e.kind.VoidCall? {
      CallVStep(code, c, s, n, q, r.st, e.name, r.words);
      n := n + 1;
    } else {
      LineStep(code, c, s, n, q, r.st, r.words, e.kind.line);
      CallVStep(code, c, s, n + 1, q + 1, r.st, Ast.MACRO_PREFIX + e.name, r.words + [e.kind.line]);
      n := n + 2;
    }
  }

  lemma ReadyFrom(code: seq<Unit>, c: Context, part: seq<Unit>, s: State, st: Store)
    requires ContextOk(c) && DistinctLabels(code) && Sits(code, s.pc, part) && Represents(st, s, [])
    ensures Ready(code, c, part, s, st)
  {
  }
}
