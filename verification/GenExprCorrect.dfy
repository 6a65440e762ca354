/** The code generated for an expression computes its value, wherever it is embedded. */
module GenExprCorrect {
  import opened Words
  import opened Wrappers
  import opened Primitive
  import opened Layout
  import opened SemanticTypes
  import opened Pinkie
  import Ast
  import opened Embedding
  import opened GenEeyore

  type Expr = Ast.Expr
  type Store = Ast.Store

  // ----- stores and machine states -----

  /** The machine is running with the store's scalars and arrays, `args` pushed, and any temporaries. */
  ghost predicate Represents(st: Store, s: State, args: seq<Word>) {
    && s.status == Running && s.mem == st.mem && s.trace == st.trace && s.args == args
    && (forall o :: o in st.vars ==> !o.Temp? && o in s.env && s.env[o] == st.vars[o])
    && (forall o :: o in s.env && !o.Temp? ==> o in st.vars)
  }

  /** Temporaries below `t` that had a value still have it. */
  ghost predicate KeepsTemps(s: State, s': State, t: int) {
    forall i :: i < t && Temp(i) in s.env ==> Temp(i) in s'.env && s'.env[Temp(i)] == s.env[Temp(i)]
  }

  lemma RepresentsValue(c: Context, st: Store, s: State, args: seq<Word>, o: Operand)
    requires ContextOk(c) && Represents(st, s, args) && !o.Temp?
    ensures Value(c, s.env, o) == Value(c, st.vars, o)
  {
  }

  /** Storing into a temporary changes nothing that the store shows. */
  lemma TempAssigned(c: Context, st: Store, s: State, args: seq<Word>, i: int, v: Word)
    requires ContextOk(c) && Represents(st, s, args)
    ensures var s' := Assign(c, s, Temp(i), Some(v));
            && Represents(st, s', args) && s'.pc == s.pc + 1
            && KeepsTemps(s, s', i) && Value(c, s'.env, Temp(i)) == Some(v)
  {
  }

  lemma KeepsTransitive(a: State, b: State, d: State, t: int, t': int)
    requires t <= t' && KeepsTemps(a, b, t) && KeepsTemps(b, d, t')
    ensures KeepsTemps(a, d, t)
  {
  }

  lemma KeptValue(c: Context, s: State, s': State, t: int, i: int)
    requires ContextOk(c) && KeepsTemps(s, s', t) && i < t && Value(c, s.env, Temp(i)).Some?
    ensures Value(c, s'.env, Temp(i)) == Value(c, s.env, Temp(i))
  {
  }

  // ----- where results live, and what evaluation leaves alone -----

  /** A result is in a temporary of the expression's own, or is the variable the expression names. */
  lemma {:induction false} ResultPlace(c: Context, e: Expr, t: int, l: int)
    requires Ast.ExprOk(c, e)
    ensures var g := GenExpr(e, t, l);
            && t <= g.temps
            && (if Ast.BareOp(e).Some? then g.result == Ast.BareOp(e).value && !g.result.Temp?
                else g.result.Temp? && t <= g.result.id < g.temps)
    decreases e, 1
  {
    match e
    case UnaryExpr(_, ch) => ResultPlace(c, ch, t, l);
    case BinaryExpr(_, ch0, ch1) =>
      ResultPlace(c, ch0, t, l);
      ResultPlace(c, ch1, GenExpr(ch0, t, l).temps, GenExpr(ch0, t, l).labels);
    case OffsetExpr(arr, off) =>
      ResultPlace(c, arr, t, l);
      ResultPlace(c, off, GenExpr(arr, t, l).temps, GenExpr(arr, t, l).labels);
    case CallExpr(_, _, args) => ArgsPlace(c, args, t, l);
    case _ =>
  }

  lemma {:induction false} ArgsPlace(c: Context, args: seq<Expr>, t: int, l: int)
    requires forall a :: a in args ==> Ast.ExprOk(c, a)
    ensures var g := GenArguments(args, t, l);
            && t <= g.temps && |g.ops| == |args|
            && forall i :: 0 <= i < |g.ops| ==> g.ops[i].Temp? && t <= g.ops[i].id < g.temps
    decreases args, 0
  {
    if args != [] {
      ResultPlace(c, args[0], t, l);
      var g := GenExpr(args[0], t, l);
      if g.result.Temp? {
        ArgsPlace(c, args[1..], g.temps, g.labels);
      } else {
        ArgsPlace(c, args[1..], g.temps + 1, g.labels);
      }
    }
  }

  /** Evaluation changes nothing but global scalars and arrays. */
  lemma {:induction false} EvalFrame(c: Context, e: Expr, st: Store, o: Operand, ord: Ast.Reading := Ast.AtUse)
    requires ContextOk(c) && Ast.Eval(c, e, st, ord).Val? && o !in c.globals
    ensures Value(c, Ast.Eval(c, e, st, ord).st.vars, o) == Value(c, st.vars, o)
    decreases e, 1
  {
    hide Value, EvalUnary, EvalBinary, Wrap, Ast.ExprType, Ast.Found;
    match e
    case UnaryExpr(_, ch) => EvalFrame(c, ch, st, o, ord);
    case BinaryExpr(op, ch0, ch1) =>
      EvalFrame(c, ch0, st, o, ord);
      var r := Ast.Eval(c, ch0, st, ord);
      if Ast.Eval(c, ch1, r.st, ord).Val? {
        EvalFrame(c, ch1, r.st, o, ord);
      }
    case OffsetExpr(arr, off) =>
      EvalFrame(c, arr, st, o, ord);
      EvalFrame(c, off, Ast.Eval(c, arr, st, ord).st, o, ord);
    case CallExpr(kind, name, args) => CallFrame(c, kind, name, args, st, o, ord);
    case _ =>
  }

  lemma {:induction false} CallFrame(
    c: Context, kind: Ast.CallKind, name: string, args: seq<Expr>, st: Store, o: Operand, ord: Ast.Reading)
    requires ContextOk(c) && Ast.Eval(c, Ast.CallExpr(kind, name, args), st, ord).Val? && o !in c.globals
    ensures Value(c, Ast.Eval(c, Ast.CallExpr(kind, name, args), st, ord).st.vars, o) == Value(c, st.vars, o)
    decreases args, 1
  {
    ArgsFrame(c, args, st, o, ord);
    hide Ast.EvalArgs;
  }

  lemma {:induction false} ArgsFrame(c: Context, args: seq<Expr>, st: Store, o: Operand, ord: Ast.Reading)
    requires ContextOk(c) && Ast.EvalArgs(c, args, st, ord).ArgsVal? && o !in c.globals
    ensures Value(c, Ast.EvalArgs(c, args, st, ord).st.vars, o) == Value(c, st.vars, o)
    decreases args, 0
  {
    hide Value;
    if args != [] {
      EvalFrame(c, args[0], st, o, ord);
      ArgsFrame(c, args[1..], Ast.Eval(c, args[0], st, ord).st, o, ord);
      hide Ast.Eval;
    }
  }

  /** The base of a subscript is not a global scalar, so nothing changes it before it is used. */
  lemma BaseStays(c: Context, arr: Expr, off: Expr, st: Store)
    requires ContextOk(c) && Ast.ExprOk(c, arr) && !Ast.IsScalar(arr)
    requires Ast.Eval(c, arr, st).Val? && Ast.Eval(c, off, Ast.Eval(c, arr, st).st).Val?
    ensures var r0 := Ast.Eval(c, arr, st);
            Ast.Found(c, arr, r0.word, Ast.Eval(c, off, r0.st).st, Ast.AtUse) == Some(r0.word)
  {
    hide Ast.Eval, Value;
    if Ast.BareOp(arr).Some? {
      assert arr.Symbol?;
      Ast.BareEval(c, arr, st);
      EvalFrame(c, off, Ast.Eval(c, arr, st).st, arr.op);
    }
  }

  // ----- the simulation -----

  /** Where a fragment starts: embedded at the program counter of a machine that represents the store. */
  ghost predicate Ready(code: seq<Unit>, c: Context, part: seq<Unit>, s: State, st: Store) {
    && ContextOk(c) && DistinctLabels(code)
    && Sits(code, s.pc, part) && Represents(st, s, [])
  }

  ghost predicate ExprReady(code: seq<Unit>, c: Context, e: Expr, t: int, l: int, s: State, st: Store) {
    && Ready(code, c, GenExpr(e, t, l).code, s, st)
    && Ast.ExprOk(c, e) && Ast.Condition(e)
    && Ast.Eval(c, e, st).Val?
  }

  /** After `n` steps control is behind the fragment, the store is the one evaluation leaves, and the
      result operand holds `w`: the value itself, or for conditions the deciding operand's, which is as true. */
  ghost predicate Computes(code: seq<Unit>, c: Context, e: Expr, t: int, l: int, s: State, st: Store, n: nat, w: Word) {
    var g, r, s' := GenExpr(e, t, l), Ast.Eval(c, e, st), Run(code, c, s, n);
    && r.Val?
    && s'.pc == s.pc + |g.code|
    && Represents(r.st, s', []) && KeepsTemps(s, s', t)
    && Value(c, s'.env, g.result) == Some(w)
    && w == Ast.CodeWord(c, e, st)
    && (w != 0 <==> r.word != 0)
    && (Ast.Arith(e) ==> w == r.word)
  }

  /** One more step, which assigns to a fresh temporary. */
  lemma AssignStep(code: seq<Unit>, c: Context, s: State, n: nat, st: Store, u: Unit, i: int, v: Word)
    requires ContextOk(c) && Represents(st, Run(code, c, s, n), [])
    requires Run(code, c, s, n).pc < |code| && code[Run(code, c, s, n).pc] == u
    requires Exec(code, c, u, Run(code, c, s, n)) == Assign(c, Run(code, c, s, n), Temp(i), Some(v))
    ensures var s1, s2 := Run(code, c, s, n), Run(code, c, s, n + 1);
            && Represents(st, s2, []) && s2.pc == s1.pc + 1
            && KeepsTemps(s1, s2, i) && Value(c, s2.env, Temp(i)) == Some(v)
  {
    hide Exec, Represents, KeepsTemps, Assign;
    OneMore(code, c, s, n, u) by { assert Run(code, c, s, n).status == Running by { RepresentsRuns(st, Run(code, c, s, n)); } }
    TempAssigned(c, st, Run(code, c, s, n), [], i, v);
  }

  lemma RepresentsRuns(st: Store, s: State)
    requires Represents(st, s, [])
    ensures s.status == Running && s.args == []
  {
  }

  lemma {:induction false} ExprCorrect(code: seq<Unit>, c: Context, e: Expr, t: int, l: int, s: State, st: Store)
    returns (n: nat, w: Word)
    requires ExprReady(code, c, e, t, l, s, st)
    ensures Computes(code, c, e, t, l, s, st, n, w)
    decreases e, 2
  {
    match e
    case Literal(v) => n, w := LiteralCorrect(code, c, e, t, l, s, st);
    case Symbol(op, _) => n, w := SymbolCorrect(code, c, e, t, l, s, st);
    case UnaryExpr(op, ch) => n, w := UnaryCorrect(code, c, e, t, l, s, st);
    case BinaryExpr(op, ch0, ch1) =>
      if op == And {
        n, w := AndCorrect(code, c, e, t, l, s, st);
      } else if op == Or {
        n, w := OrCorrect(code, c, e, t, l, s, st);
      } else {
        n, w := BinaryCorrect(code, c, e, t, l, s, st);
      }
    case OffsetExpr(arr, off) => n, w := OffsetCorrect(code, c, e, t, l, s, st);
    case CallExpr(kind, name, args) => n, w := CallCorrect(code, c, e, t, l, s, st);
  }

  lemma LiteralCorrect(code: seq<Unit>, c: Context, e: Expr, t: int, l: int, s: State, st: Store)
    returns (n: nat, w: Word)
    requires ExprReady(code, c, e, t, l, s, st) && e.Literal?
    ensures Computes(code, c, e, t, l, s, st, n, w)
  {
    hide Represents, KeepsTemps, Run;
    SitsUnit(code, s.pc, GenExpr(e, t, l).code, 0);
    assert Run(code, c, s, 0) == s by { RunZero(code, c, s); }
    AssignStep(code, c, s, 0, st, Copy(Temp(t), Lit(e.val)), t, e.val);
    n, w := 1, e.val;
  }

  lemma RunZero(code: seq<Unit>, c: Context, s: State)
    ensures Run(code, c, s, 0) == s && KeepsTemps(s, s, 0)
  {
  }

  lemma SymbolCorrect(code: seq<Unit>, c: Context, e: Expr, t: int, l: int, s: State, st: Store)
    returns (n: nat, w: Word)
    requires ExprReady(code, c, e, t, l, s, st) && e.Symbol?
    ensures Computes(code, c, e, t, l, s, st, n, w)
  {
    RepresentsValue(c, st, s, [], e.op);
    n, w := 0, Ast.Eval(c, e, st).word;
  }

  lemma {:induction false} UnaryCorrect(code: seq<Unit>, c: Context, e: Expr, t: int, l: int, s: State, st: Store)
    returns (n: nat, w: Word)
    requires ExprReady(code, c, e, t, l, s, st) && e.UnaryExpr?
    ensures Computes(code, c, e, t, l, s, st, n, w)
    decreases e, 1
  {
    hide Represents, KeepsTemps, Value, Run, DistinctLabels, Exec, EvalUnary;
    var ch, g := e.ch, GenExpr(e.ch, t, l);
    if e.uop == UPlus {
      n, w := ExprCorrect(code, c, ch, t, l, s, st);
      PlusIsIdentity(w);
    } else {
      var u := Unary(e.uop, Temp(g.temps), g.result);
      SitsSplit(code, s.pc, g.code, [u]);
      n, w := ExprCorrect(code, c, ch, t, l, s, st);
      SitsUnit(code, s.pc + |g.code|, [u], 0);
      ResultPlace(c, ch, t, l);
      var s1 := Run(code, c, s, n);
      w := EvalUnary(e.uop, w);
      UnaryExec(code, c, u, s1);
      AssignStep(code, c, s, n, Ast.Eval(c, ch, st).st, u, g.temps, w);
      KeepsTransitive(s, s1, Run(code, c, s, n + 1), t, g.temps);
      n := n + 1;
    }
  }

  lemma PlusIsIdentity(w: Word)
    ensures EvalUnary(UPlus, w) == w
  {
  }

  lemma UnaryExec(code: seq<Unit>, c: Context, u: Unit, s: State)
    requires u.Unary? && Value(c, s.env, u.src).Some?
    ensures Exec(code, c, u, s) == Assign(c, s, u.dst, Some(EvalUnary(u.uop, Value(c, s.env, u.src).value)))
  {
  }

  lemma BinaryExec(code: seq<Unit>, c: Context, u: Unit, s: State)
    requires u.Binary? && Value(c, s.env, u.src1).Some? && Value(c, s.env, u.src2).Some?
    ensures Exec(code, c, u, s)
         == Assign(c, s, u.dst, Some(EvalBinary(u.bop, Value(c, s.env, u.src1).value, Value(c, s.env, u.src2).value)))
  {
  }

  // ----- two operands -----

  ghost function Second(e0: Expr, e1: Expr, t: int, l: int): Gen {
    GenExpr(e1, GenExpr(e0, t, l).temps, GenExpr(e0, t, l).labels)
  }

  /** Two operands evaluated in turn, the store they leave, and what an operation now finds in them: the
      first is in a temporary that the second does not touch, or in the variable that it names. */
  ghost predicate PairComputes(
    code: seq<Unit>, c: Context, e0: Expr, e1: Expr, t: int, l: int, s: State, st: Store, n: nat)
  {
    var g0, g1, s' := GenExpr(e0, t, l), Second(e0, e1, t, l), Run(code, c, s, n);
    var r0 := Ast.Eval(c, e0, st);
    r0.Val? && var r1 := Ast.Eval(c, e1, r0.st);
    && r1.Val?
    && s'.pc == s.pc + |g0.code| + |g1.code|
    && Represents(r1.st, s', []) && KeepsTemps(s, s', t)
    && Value(c, s'.env, g0.result) == Ast.Found(c, e0, r0.word, r1.st, Ast.AtUse)
    && Value(c, s'.env, g1.result) == Some(r1.word)
  }

  /** After more has been evaluated, the first operand is found where its code left it. */
  lemma FirstFound(c: Context, e: Expr, t: int, l: int, s1: State, s2: State, st1: Store, st2: Store, w: Word)
    requires ContextOk(c) && Ast.ExprOk(c, e)
    requires Represents(st1, s1, []) && Represents(st2, s2, []) && KeepsTemps(s1, s2, GenExpr(e, t, l).temps)
    requires Value(c, s1.env, GenExpr(e, t, l).result) == Some(w)
    ensures Value(c, s2.env, GenExpr(e, t, l).result) == Ast.Found(c, e, w, st2, Ast.AtUse)
  {
    hide Represents, KeepsTemps, Value, Ast.ExprOk, GenExpr;
    ResultPlace(c, e, t, l);
    var o := GenExpr(e, t, l).result;
    if Ast.BareOp(e).Some? {
      RepresentsValue(c, st2, s2, [], o);
    } else {
      KeptValue(c, s1, s2, GenExpr(e, t, l).temps, o.id);
    }
  }

  lemma {:induction false} PairCorrect(
    code: seq<Unit>, c: Context, e: Expr, e0: Expr, e1: Expr, t: int, l: int, s: State, st: Store)
    returns (n: nat)
    requires e0 < e && e1 < e
    requires Ready(code, c, GenExpr(e0, t, l).code + Second(e0, e1, t, l).code, s, st)
    requires Ast.ExprOk(c, e0) && Ast.ExprOk(c, e1) && Ast.Arith(e0) && Ast.Arith(e1)
    requires Ast.Eval(c, e0, st).Val? && Ast.Eval(c, e1, Ast.Eval(c, e0, st).st).Val?
    ensures PairComputes(code, c, e0, e1, t, l, s, st, n)
    decreases e, 0
  {
    hide Ast.Eval, Ast.ExprOk, Represents, KeepsTemps, Value, GenExpr, Run, DistinctLabels, Ast.Arith, Ast.Found, Ast.CodeWord;
    var g0, g1 := GenExpr(e0, t, l), Second(e0, e1, t, l);
    var st1 := Ast.Eval(c, e0, st).st;
    SitsSplit(code, s.pc, g0.code, g1.code);
    var n0, w0 := ExprCorrect(code, c, e0, t, l, s, st);
    var s1 := Run(code, c, s, n0);
    var n1, w1 := ExprCorrect(code, c, e1, g0.temps, g0.labels, s1, st1);
    RunAdd(code, c, s, n0, n1);
    ResultPlace(c, e0, t, l);
    KeepsTransitive(s, s1, Run(code, c, s, n0 + n1), t, g0.temps);
    FirstFound(c, e0, t, l, s1, Run(code, c, s, n0 + n1), st1, Ast.Eval(c, e1, st1).st, w0);
    n := n0 + n1;
  }

  lemma SecondPlace(c: Context, e0: Expr, e1: Expr, t: int, l: int)
    requires Ast.ExprOk(c, e0) && Ast.ExprOk(c, e1)
    ensures t <= Second(e0, e1, t, l).temps
  {
    ResultPlace(c, e0, t, l);
    ResultPlace(c, e1, GenExpr(e0, t, l).temps, GenExpr(e0, t, l).labels);
    hide GenExpr;
  }

  lemma {:induction false} BinaryCorrect(code: seq<Unit>, c: Context, e: Expr, t: int, l: int, s: State, st: Store)
    returns (n: nat, w: Word)
    requires ExprReady(code, c, e, t, l, s, st) && e.BinaryExpr? && !Ast.Logical(e.bop)
    ensures Computes(code, c, e, t, l, s, st, n, w)
    decreases e, 1
  {
    hide Represents, KeepsTemps, Value, Run, DistinctLabels, Exec, EvalBinary, Ast.Found;
    var e0, e1, g0, g1 := e.ch0, e.ch1, GenExpr(e.ch0, t, l), Second(e.ch0, e.ch1, t, l);
    var u := Binary(e.bop, Temp(g1.temps), g0.result, g1.result);
    SitsSplit(code, s.pc, g0.code + g1.code, [u]);
    SitsUnit(code, s.pc + |g0.code + g1.code|, [u], 0);
    n := PairCorrect(code, c, e, e0, e1, t, l, s, st);
    SecondPlace(c, e0, e1, t, l);
    var s1 := Run(code, c, s, n);
    var r0 := Ast.Eval(c, e0, st);
    var r1 := Ast.Eval(c, e1, r0.st);
    w := EvalBinary(e.bop, Ast.Found(c, e0, r0.word, r1.st, Ast.AtUse).value, r1.word);
    BinaryExec(code, c, u, s1);
    AssignStep(code, c, s, n, r1.st, u, g1.temps, w);
    KeepsTransitive(s, s1, Run(code, c, s, n + 1), t, g1.temps);
    n := n + 1;
  }

  // ----- subscripts -----

  /** Scaling a subscript and adding the base, each in wrapping arithmetic, addresses the element. */
  lemma ScaledAddress(base: Word, stride: int, i: Word)
    ensures EvalBinary(Plus, base, EvalBinary(Mult, i, Wrap(4 * stride))) == Ast.ElementAddress(base, stride, i)
  {
    WrapMul(4 * stride, i);
    assert i * Wrap(4 * stride) == Wrap(4 * stride) * i;
    WrapAdd(4 * stride * i, base);
  }

  /** The unit that scales the subscript of `arr[off]`, after both have been evaluated. */
  lemma ScaleStep(code: seq<Unit>, c: Context, s: State, n: nat, st: Store, arr: Expr, off: Expr, t: int, l: int)
    requires ContextOk(c) && Ast.ExprOk(c, arr) && Ast.ExprOk(c, off)
    requires |Ast.ExprType(arr).offsets| > 0
    requires PairComputes(code, c, arr, off, t, l, s, st, n)
    requires var r0 := Ast.Eval(c, arr, st);
             Ast.Found(c, arr, r0.word, Ast.Eval(c, off, r0.st).st, Ast.AtUse) == Some(r0.word)
    requires Run(code, c, s, n).pc < |code|
    requires code[Run(code, c, s, n).pc]
          == Binary(Mult, Temp(Second(arr, off, t, l).temps), Second(arr, off, t, l).result, ByteStride(arr))
    ensures var s2 := Run(code, c, s, n + 1);
            var r0 := Ast.Eval(c, arr, st);
            var r1 := Ast.Eval(c, off, r0.st);
            && Represents(r1.st, s2, []) && KeepsTemps(s, s2, t)
            && s2.pc == Run(code, c, s, n).pc + 1
            && KeepsTemps(Run(code, c, s, n), s2, Second(arr, off, t, l).temps)
            && Value(c, s2.env, GenExpr(arr, t, l).result) == Some(r0.word)
            && Value(c, s2.env, Temp(Second(arr, off, t, l).temps))
               == Some(EvalBinary(Mult, r1.word, Wrap(4 * Ast.ExprType(arr).offsets[0])))
  {
    hide Ast.Eval, Ast.ExprOk, Represents, KeepsTemps, GenExpr, Run, Exec, EvalBinary, Ast.ExprType, Ast.Found;
    var g0, g1 := GenExpr(arr, t, l), Second(arr, off, t, l);
    var r0 := Ast.Eval(c, arr, st);
    var r1 := Ast.Eval(c, off, r0.st);
    var s1 := Run(code, c, s, n);
    var u := Binary(Mult, Temp(g1.temps), g1.result, ByteStride(arr));
    assert Value(c, s1.env, ByteStride(arr)) == Some(Wrap(4 * Ast.ExprType(arr).offsets[0]));
    hide Value;
    BinaryExec(code, c, u, s1);
    AssignStep(code, c, s, n, r1.st, u, g1.temps, EvalBinary(Mult, r1.word, Wrap(4 * Ast.ExprType(arr).offsets[0])));
    SecondPlace(c, arr, off, t, l);
    KeepsTransitive(s, s1, Run(code, c, s, n + 1), t, g1.temps);
    FirstStill(c, arr, off, t, l, s1, Run(code, c, s, n + 1), r1.st, r0.word);
  }

  lemma FirstStill(c: Context, e0: Expr, e1: Expr, t: int, l: int, s1: State, s2: State, st: Store, w: Word)
    requires ContextOk(c) && Ast.ExprOk(c, e0) && Ast.ExprOk(c, e1)
    requires Represents(st, s1, []) && Represents(st, s2, []) && KeepsTemps(s1, s2, Second(e0, e1, t, l).temps)
    requires Value(c, s1.env, GenExpr(e0, t, l).result) == Some(w)
    ensures Value(c, s2.env, GenExpr(e0, t, l).result) == Some(w)
  {
    hide Represents, KeepsTemps, Value, Ast.ExprOk;
    ResultPlace(c, e0, t, l);
    ResultPlace(c, e1, GenExpr(e0, t, l).temps, GenExpr(e0, t, l).labels);
    hide GenExpr;
    var o := GenExpr(e0, t, l).result;
    if o.Temp? {
      KeptValue(c, s1, s2, Second(e0, e1, t, l).temps, o.id);
    } else {
      RepresentsValue(c, st, s1, [], o);
      RepresentsValue(c, st, s2, [], o);
    }
  }

  lemma RepresentsMem(st: Store, s: State)
    requires Represents(st, s, [])
    ensures s.mem == st.mem
  {
  }

  lemma ReadExec(code: seq<Unit>, c: Context, u: Unit, s: State, addr: Word)
    requires u.ArrayRead? && Value(c, s.env, u.base).Some? && Value(c, s.env, u.incr).Some?
    requires addr == EvalBinary(Plus, Value(c, s.env, u.base).value, Value(c, s.env, u.incr).value) && addr in s.mem
    ensures Exec(code, c, u, s) == Assign(c, s, u.dst, Some(s.mem[addr]))
  {
  }

  lemma OffsetCode(e: Expr, t: int, l: int)
    requires e.OffsetExpr?
    ensures var g0, g1 := GenExpr(e.arr, t, l), Second(e.arr, e.off, t, l);
            var disp, temp := Temp(g1.temps), Temp(g1.temps + 1);
            GenExpr(e, t, l)
            == Gen(g0.code + g1.code
                   + [Binary(Mult, disp, g1.result, ByteStride(e.arr)),
                      if !Ast.IsScalar(e) then Binary(Plus, temp, g0.result, disp) else ArrayRead(temp, g0.result, disp)],
                   temp, g1.temps + 2, g1.labels)
  {
    hide Ast.IsScalar, ByteStride;
  }

  lemma OffsetEval(c: Context, e: Expr, st: Store)
    requires Ast.ExprOk(c, e) && e.OffsetExpr? && Ast.Eval(c, e, st).Val?
    ensures Ast.ExprOk(c, e.arr) && Ast.ExprOk(c, e.off) && |Ast.ExprType(e.arr).offsets| > 0
    ensures Ast.Condition(e) ==> Ast.Arith(e.arr) && Ast.Arith(e.off)
    ensures !Ast.IsScalar(e.arr)
    ensures var r0 := Ast.Eval(c, e.arr, st);
            r0.Val? && var r1 := Ast.Eval(c, e.off, r0.st);
            r1.Val? && var addr := Ast.ElementAddress(r0.word, Ast.ExprType(e.arr).offsets[0], r1.word);
            && (!Ast.IsScalar(e) ==> Ast.Eval(c, e, st) == Ast.Val(addr, r1.st))
            && (Ast.IsScalar(e) ==> addr in r1.st.mem && Ast.Eval(c, e, st) == Ast.Val(r1.st.mem[addr], r1.st))
  {
    hide Ast.ElementAddress, Ast.ExprType, Ast.IsScalar;
  }

  lemma ExprReadyMeans(code: seq<Unit>, c: Context, e: Expr, t: int, l: int, s: State, st: Store)
    requires ExprReady(code, c, e, t, l, s, st)
    ensures ContextOk(c) && DistinctLabels(code) && Sits(code, s.pc, GenExpr(e, t, l).code) && Represents(st, s, [])
    ensures Ast.ExprOk(c, e) && Ast.Condition(e) && Ast.Eval(c, e, st).Val?
    ensures forall part :: Sits(code, s.pc, part) ==> Ready(code, c, part, s, st)
  {
    hide ContextOk, DistinctLabels, Sits, Represents, GenExpr, Ast.Eval, Ast.ExprOk, Ast.Condition;
  }

  lemma PairMeans(code: seq<Unit>, c: Context, e0: Expr, e1: Expr, t: int, l: int, s: State, st: Store, n: nat)
    requires PairComputes(code, c, e0, e1, t, l, s, st, n)
    ensures Run(code, c, s, n).pc == s.pc + |GenExpr(e0, t, l).code| + |Second(e0, e1, t, l).code|
  {
    hide GenExpr, Run, Second, Represents, KeepsTemps, Value, Ast.Eval;
  }

  lemma ComputesFrom(code: seq<Unit>, c: Context, e: Expr, t: int, l: int, s: State, st: Store, n: nat)
    requires var g, r, s' := GenExpr(e, t, l), Ast.Eval(c, e, st), Run(code, c, s, n);
             && r.Val? && s'.pc == s.pc + |g.code|
             && Represents(r.st, s', []) && KeepsTemps(s, s', t)
             && Value(c, s'.env, g.result) == Some(r.word)
    requires !(e.BinaryExpr? && Ast.Logical(e.bop))
    ensures Computes(code, c, e, t, l, s, st, n, Ast.Eval(c, e, st).word)
  {
    hide GenExpr, Run, Represents, KeepsTemps, Value, Ast.Eval;
  }

  lemma {:induction false} OffsetCorrect(code: seq<Unit>, c: Context, e: Expr, t: int, l: int, s: State, st: Store)
    returns (n: nat, w: Word)
    requires ExprReady(code, c, e, t, l, s, st) && e.OffsetExpr?
    ensures Computes(code, c, e, t, l, s, st, n, w)
    decreases e, 1
  {
    hide *;
    var arr, off, g0, g1 := e.arr, e.off, GenExpr(e.arr, t, l), Second(e.arr, e.off, t, l);
    var disp, temp := Temp(g1.temps), Temp(g1.temps + 1);
    var scale := Binary(Mult, disp, g1.result, ByteStride(arr));
    var u := if !Ast.IsScalar(e) then Binary(Plus, temp, g0.result, disp) else ArrayRead(temp, g0.result, disp);
    ExprReadyMeans(code, c, e, t, l, s, st);
    OffsetCode(e, t, l);
    OffsetEval(c, e, st);
    SitsSplit(code, s.pc, g0.code, g1.code) by { SitsSplit(code, s.pc, g0.code + g1.code, [scale, u]); }
    SitsSplit(code, s.pc, g0.code + g1.code, [scale, u]);
    SitsUnit(code, s.pc + |g0.code + g1.code|, [scale, u], 0);
    SitsUnit(code, s.pc + |g0.code + g1.code|, [scale, u], 1);
    n := PairCorrect(code, c, e, arr, off, t, l, s, st);
    PairMeans(code, c, arr, off, t, l, s, st, n);
    BaseStays(c, arr, off, st);
    ScaleStep(code, c, s, n, st, arr, off, t, l);
    SecondPlace(c, arr, off, t, l);
    var r0 := Ast.Eval(c, arr, st);
    var r1 := Ast.Eval(c, off, r0.st);
    var s2 := Run(code, c, s, n + 1);
    ScaledAddress(r0.word, Ast.ExprType(arr).offsets[0], r1.word);
    RepresentsMem(r1.st, s2);
    w := Ast.Eval(c, e, st).word;
    if !Ast.IsScalar(e) {
      BinaryExec(code, c, u, s2);
    } else {
      ReadExec(code, c, u, s2, Ast.ElementAddress(r0.word, Ast.ExprType(arr).offsets[0], r1.word));
    }
    AssignStep(code, c, s, n + 1, r1.st, u, g1.temps + 1, w);
    KeepsTransitive(s, s2, Run(code, c, s, n + 2), t, g1.temps + 1);
    n := n + 2;
    ComputesFrom(code, c, e, t, l, s, st, n);
  }

  // ----- control steps -----

  lemma Moved(c: Context, st: Store, a: State, s: State, t: int, p: nat)
    requires Represents(st, s, []) && KeepsTemps(a, s, t)
    ensures Represents(st, s.(pc := p), []) && KeepsTemps(a, s.(pc := p), t)
  {
  }

  lemma LabelStep(code: seq<Unit>, c: Context, s: State, n: nat)
    requires Run(code, c, s, n).status == Running
    requires Run(code, c, s, n).pc < |code| && code[Run(code, c, s, n).pc].Label?
    ensures Run(code, c, s, n + 1) == Run(code, c, s, n).(pc := Run(code, c, s, n).pc + 1)
  {
    hide Run;
    OneMore(code, c, s, n, code[Run(code, c, s, n).pc]);
  }

  lemma JumpStep(code: seq<Unit>, c: Context, s: State, n: nat, l: int, q: nat)
    requires Run(code, c, s, n).status == Running && DistinctLabels(code)
    requires Run(code, c, s, n).pc < |code| && code[Run(code, c, s, n).pc] == Jump(l)
    requires q < |code| && code[q] == Label(l)
    ensures Run(code, c, s, n + 2) == Run(code, c, s, n).(pc := q + 1)
  {
    hide Run;
    LabelFound(code, q, l);
    hide IndexOf;
    OneMore(code, c, s, n, Jump(l));
    LabelStep(code, c, s, n + 1);
  }

  lemma BranchTaken(code: seq<Unit>, c: Context, s: State, n: nat, l: int, o: Operand, q: nat)
    requires Run(code, c, s, n).status == Running && DistinctLabels(code)
    requires Run(code, c, s, n).pc < |code| && code[Run(code, c, s, n).pc] == JumpC(l, o)
    requires q < |code| && code[q] == Label(l)
    requires Value(c, Run(code, c, s, n).env, o) == Some(0)
    ensures Run(code, c, s, n + 2) == Run(code, c, s, n).(pc := q + 1)
  {
    hide Run;
    LabelFound(code, q, l);
    hide IndexOf;
    OneMore(code, c, s, n, JumpC(l, o));
    LabelStep(code, c, s, n + 1);
  }

  lemma BranchNotTaken(code: seq<Unit>, c: Context, s: State, n: nat, l: int, o: Operand)
    requires Run(code, c, s, n).status == Running
    requires Run(code, c, s, n).pc < |code| && code[Run(code, c, s, n).pc] == JumpC(l, o)
    requires Value(c, Run(code, c, s, n).env, o).Some? && Value(c, Run(code, c, s, n).env, o).value != 0
    ensures Run(code, c, s, n + 1) == Run(code, c, s, n).(pc := Run(code, c, s, n).pc + 1)
  {
    hide Run;
    OneMore(code, c, s, n, JumpC(l, o));
  }

  lemma CopyExec(code: seq<Unit>, c: Context, u: Unit, s: State)
    requires u.Copy? && Value(c, s.env, u.src).Some?
    ensures Exec(code, c, u, s) == Assign(c, s, u.dst, Some(Value(c, s.env, u.src).value))
  {
  }

  lemma LitValue(c: Context, env: map<Operand, Word>, w: Word)
    ensures Value(c, env, Lit(w)) == Some(w)
  {
  }

  // ----- logical connectives -----

  lemma Sits3(code: seq<Unit>, p: nat, a: seq<Unit>, b: seq<Unit>, d: seq<Unit>, e: seq<Unit>)
    requires Sits(code, p, a + b + d + e)
    ensures Sits(code, p, a) && Sits(code, p + |a|, b)
    ensures Sits(code, p + |a| + |b|, d) && Sits(code, p + |a| + |b| + |d|, e)
  {
    SitsSplit(code, p, a + b + d, e);
    SitsSplit(code, p, a + b, d);
    SitsSplit(code, p, a, b);
  }

  /** A copy into the fresh result temporary, anywhere in a run. */
  lemma CopyStep(code: seq<Unit>, c: Context, s: State, n: nat, st: Store, t: int, i: int, o: Operand, w: Word)
    requires ContextOk(c) && Represents(st, Run(code, c, s, n), []) && KeepsTemps(s, Run(code, c, s, n), t) && t <= i
    requires Run(code, c, s, n).pc < |code| && code[Run(code, c, s, n).pc] == Copy(Temp(i), o)
    requires Value(c, Run(code, c, s, n).env, o) == Some(w)
    ensures var s1, s2 := Run(code, c, s, n), Run(code, c, s, n + 1);
            && Represents(st, s2, []) && s2.pc == s1.pc + 1
            && KeepsTemps(s, s2, t) && Value(c, s2.env, Temp(i)) == Some(w)
  {
    hide Represents, KeepsTemps, Value, Run, Exec;
    CopyExec(code, c, Copy(Temp(i), o), Run(code, c, s, n));
    AssignStep(code, c, s, n, st, Copy(Temp(i), o), i, w);
    KeepsTransitive(s, Run(code, c, s, n), Run(code, c, s, n + 1), t, i);
  }

  /** The run has reached `p` with store `st`, the temporaries of `a` below `t` intact, and `o` holding `w`. */
  ghost predicate Reached(
    code: seq<Unit>, c: Context, a: State, n: nat, t: int, p: nat, st: Store, o: Operand, w: Word)
  {
    var s := Run(code, c, a, n);
    s.pc == p && Represents(st, s, []) && KeepsTemps(a, s, t) && Value(c, s.env, o) == Some(w)
  }

  lemma ReachedLabel(
    code: seq<Unit>, c: Context, a: State, n: nat, t: int, p: nat, st: Store, o: Operand, w: Word)
    requires Reached(code, c, a, n, t, p, st, o, w) && p < |code| && code[p].Label?
    ensures Reached(code, c, a, n + 1, t, p + 1, st, o, w)
  {
    hide Represents, KeepsTemps, Value, Run;
    RepresentsRuns(st, Run(code, c, a, n));
    LabelStep(code, c, a, n);
    Moved(c, st, a, Run(code, c, a, n), t, p + 1);
  }

  lemma ReachedJump(
    code: seq<Unit>, c: Context, a: State, n: nat, t: int, p: nat, st: Store, o: Operand, w: Word, l: int, q: nat)
    requires Reached(code, c, a, n, t, p, st, o, w) && DistinctLabels(code)
    requires p < |code| && code[p] == Jump(l) && q < |code| && code[q] == Label(l)
    ensures Reached(code, c, a, n + 2, t, q + 1, st, o, w)
  {
    hide Represents, KeepsTemps, Value, Run, DistinctLabels;
    RepresentsRuns(st, Run(code, c, a, n));
    JumpStep(code, c, a, n, l, q);
    Moved(c, st, a, Run(code, c, a, n), t, q + 1);
  }

  lemma ReachedBranch(
    code: seq<Unit>, c: Context, a: State, n: nat, t: int, p: nat, st: Store, o: Operand, w: Word, l: int, q: nat)
    requires Reached(code, c, a, n, t, p, st, o, w) && DistinctLabels(code)
    requires p < |code| && code[p] == JumpC(l, o) && q < |code| && code[q] == Label(l)
    ensures w == 0 ==> Reached(code, c, a, n + 2, t, q + 1, st, o, w)
    ensures w != 0 ==> Reached(code, c, a, n + 1, t, p + 1, st, o, w)
  {
    hide Represents, KeepsTemps, Value, Run, DistinctLabels;
    RepresentsRuns(st, Run(code, c, a, n));
    if w == 0 {
      BranchTaken(code, c, a, n, l, o, q);
      Moved(c, st, a, Run(code, c, a, n), t, q + 1);
    } else {
      BranchNotTaken(code, c, a, n, l, o);
      Moved(c, st, a, Run(code, c, a, n), t, p + 1);
    }
  }

  lemma ReachedCopy(
    code: seq<Unit>, c: Context, a: State, n: nat, t: int, p: nat, st: Store, o: Operand, w: Word,
    i: int, src: Operand, v: Word)
    requires ContextOk(c) && Reached(code, c, a, n, t, p, st, o, w) && t <= i
    requires p < |code| && code[p] == Copy(Temp(i), src) && (src == Lit(v) || (src == o && v == w))
    ensures Reached(code, c, a, n + 1, t, p + 1, st, Temp(i), v)
  {
    hide Represents, KeepsTemps, Run;
    LitValue(c, Run(code, c, a, n).env, v);
    hide Value;
    CopyStep(code, c, a, n, st, t, i, src, v);
  }

  /** Evaluating another expression after some steps. */
  lemma {:induction false} ReachedExpr(
    code: seq<Unit>, c: Context, a: State, n: nat, t: int, p: nat, st: Store, o: Operand, w: Word,
    e: Expr, t1: int, l1: int)
    returns (m: nat, v: Word)
    requires ContextOk(c) && DistinctLabels(code) && Reached(code, c, a, n, t, p, st, o, w) && t <= t1
    requires Sits(code, p, GenExpr(e, t1, l1).code)
    requires Ast.ExprOk(c, e) && Ast.Condition(e) && Ast.Eval(c, e, st).Val?
    ensures Reached(code, c, a, m, t, p + |GenExpr(e, t1, l1).code|, Ast.Eval(c, e, st).st, GenExpr(e, t1, l1).result, v)
    ensures (v != 0 <==> Ast.Eval(c, e, st).word != 0) && (Ast.Arith(e) ==> v == Ast.Eval(c, e, st).word)
    ensures v == Ast.CodeWord(c, e, st) && m >= n
    decreases e, 3
  {
    hide Represents, KeepsTemps, Value, Run, DistinctLabels, GenExpr, Ast.Eval, Ast.ExprOk, Ast.Condition, Ast.Arith, Ast.CodeWord;
    var k;
    k, v := ExprCorrect(code, c, e, t1, l1, Run(code, c, a, n), st);
    RunAdd(code, c, a, n, k);
    KeepsTransitive(a, Run(code, c, a, n), Run(code, c, a, n + k), t, t1);
    m := n + k;
  }

  lemma StartReached(code: seq<Unit>, c: Context, s: State, st: Store, t: int)
    requires Represents(st, s, [])
    ensures Reached(code, c, s, 0, t, s.pc, st, Lit(0), 0)
  {
  }

  ghost function AndTail(g1: Gen): seq<Unit> {
    [Copy(Temp(g1.temps), g1.result), Jump(g1.labels + 1), Label(g1.labels), Copy(Temp(g1.temps), Lit(0)),
     Label(g1.labels + 1)]
  }

  ghost function OrHead(g0: Gen, g1: Gen): seq<Unit> {
    [JumpC(g1.labels, g0.result), Copy(Temp(g1.temps), Lit(1)), Jump(g1.labels + 1), Label(g1.labels)]
  }

  ghost function OrTail(g1: Gen): seq<Unit> {
    [Copy(Temp(g1.temps), g1.result), Label(g1.labels + 1)]
  }

  lemma LogicalCode(e: Expr, t: int, l: int)
    requires e.BinaryExpr?
    ensures var g, g0, g1 := GenExpr(e, t, l), GenExpr(e.ch0, t, l), Second(e.ch0, e.ch1, t, l);
            && (Ast.Logical(e.bop) ==> g.result == Temp(g1.temps))
            && (e.bop == And ==> g.code == g0.code + [JumpC(g1.labels, g0.result)] + g1.code + AndTail(g1))
            && (e.bop == Or ==> g.code == g0.code + OrHead(g0, g1) + g1.code + OrTail(g1))
  {
  }

  /** Where the pieces of `e0 && e1` land. */
  lemma AndLayout(code: seq<Unit>, e: Expr, t: int, l: int, p: nat)
    requires e.BinaryExpr? && e.bop == And && Sits(code, p, GenExpr(e, t, l).code)
    ensures var g0, g1 := GenExpr(e.ch0, t, l), Second(e.ch0, e.ch1, t, l);
            var q0, q := p + |g0.code|, p + |g0.code| + 1 + |g1.code|;
            && Sits(code, p, g0.code) && Sits(code, q0 + 1, g1.code)
            && q + 5 <= |code| && q + 5 == p + |GenExpr(e, t, l).code|
            && GenExpr(e, t, l).result == Temp(g1.temps)
            && code[q0] == JumpC(g1.labels, g0.result)
            && code[q] == Copy(Temp(g1.temps), g1.result) && code[q + 1] == Jump(g1.labels + 1)
            && code[q + 2] == Label(g1.labels) && code[q + 3] == Copy(Temp(g1.temps), Lit(0))
            && code[q + 4] == Label(g1.labels + 1)
  {
    hide GenExpr, Sits;
    var g0, g1 := GenExpr(e.ch0, t, l), Second(e.ch0, e.ch1, t, l);
    LogicalCode(e, t, l);
    hide Second;
    var jump, tail := [JumpC(g1.labels, g0.result)], AndTail(g1);
    Sits3(code, p, g0.code, jump, g1.code, tail);
    var q := p + |g0.code| + 1 + |g1.code|;
    SitsUnit(code, p + |g0.code|, jump, 0);
    SitsUnit(code, q, tail, 0);
    SitsUnit(code, q, tail, 1);
    SitsUnit(code, q, tail, 2);
    SitsUnit(code, q, tail, 3);
    SitsUnit(code, q, tail, 4);
  }

  /** Where the pieces of `e0 || e1` land. */
  lemma OrLayout(code: seq<Unit>, e: Expr, t: int, l: int, p: nat)
    requires e.BinaryExpr? && e.bop == Or && Sits(code, p, GenExpr(e, t, l).code)
    ensures var g0, g1 := GenExpr(e.ch0, t, l), Second(e.ch0, e.ch1, t, l);
            var q0, q := p + |g0.code|, p + |g0.code| + 4 + |g1.code|;
            && Sits(code, p, g0.code) && Sits(code, q0 + 4, g1.code)
            && q + 2 <= |code| && q + 2 == p + |GenExpr(e, t, l).code|
            && GenExpr(e, t, l).result == Temp(g1.temps)
            && code[q0] == JumpC(g1.labels, g0.result)
            && code[q0 + 1] == Copy(Temp(g1.temps), Lit(1)) && code[q0 + 2] == Jump(g1.labels + 1)
            && code[q0 + 3] == Label(g1.labels)
            && code[q] == Copy(Temp(g1.temps), g1.result) && code[q + 1] == Label(g1.labels + 1)
  {
    hide GenExpr, Sits;
    var g0, g1 := GenExpr(e.ch0, t, l), Second(e.ch0, e.ch1, t, l);
    LogicalCode(e, t, l);
    hide Second;
    var head, tail := OrHead(g0, g1), OrTail(g1);
    Sits3(code, p, g0.code, head, g1.code, tail);
    var q0, q := p + |g0.code|, p + |g0.code| + 4 + |g1.code|;
    SitsUnit(code, q0, head, 0);
    SitsUnit(code, q0, head, 1);
    SitsUnit(code, q0, head, 2);
    SitsUnit(code, q0, head, 3);
    SitsUnit(code, q, tail, 0);
    SitsUnit(code, q, tail, 1);
  }

  /** The word that the code of the second operand leaves, from the store that the first leaves. */
  ghost function SecondWord(c: Context, e: Expr, st: Store): Word
    requires e.BinaryExpr? && Ast.Eval(c, e.ch0, st).Val?
  {
    Ast.CodeWord(c, e.ch1, Ast.Eval(c, e.ch0, st).st)
  }

  /** What the operands of a connective contribute. */
  lemma LogicalEval(c: Context, e: Expr, st: Store)
    requires e.BinaryExpr? && Ast.Logical(e.bop) && Ast.ExprOk(c, e) && Ast.Condition(e) && Ast.Eval(c, e, st).Val?
    ensures var r, r0 := Ast.Eval(c, e, st), Ast.Eval(c, e.ch0, st);
            && r0.Val? && Ast.ExprOk(c, e.ch0) && Ast.ExprOk(c, e.ch1)
            && Ast.Condition(e.ch0) && Ast.Condition(e.ch1) && !Ast.Arith(e)
            && (e.bop == And && r0.word == 0 ==> r == Ast.Val(0, r0.st) && Ast.CodeWord(c, e, st) == 0)
            && (e.bop == Or && r0.word != 0 ==> r == Ast.Val(1, r0.st) && Ast.CodeWord(c, e, st) == 1)
            && (!(e.bop == And && r0.word == 0) && !(e.bop == Or && r0.word != 0) ==>
                  var r1 := Ast.Eval(c, e.ch1, r0.st);
                  r1.Val? && r.st == r1.st && (r.word != 0 <==> r1.word != 0)
                  && Ast.CodeWord(c, e, st) == Ast.CodeWord(c, e.ch1, r0.st))
  {
    hide Ast.Found;
  }

  lemma {:induction false} AndCorrect(code: seq<Unit>, c: Context, e: Expr, t: int, l: int, s: State, st: Store)
    returns (n: nat, w: Word)
    requires ExprReady(code, c, e, t, l, s, st) && e.BinaryExpr? && e.bop == And
    ensures Computes(code, c, e, t, l, s, st, n, w)
    ensures Ast.Eval(c, e.ch0, st).Val?
    ensures w == if Ast.Eval(c, e.ch0, st).word == 0 then 0 else SecondWord(c, e, st)
    decreases e, 1
  {
    hide Represents, KeepsTemps, Value, Run, DistinctLabels, Exec, Reached, GenExpr, Ast.Eval, Ast.ExprOk, Ast.Condition, Ast.CodeWord,
         Ast.Arith, Sits, Computes;
    var e0, e1, g0, g1 := e.ch0, e.ch1, GenExpr(e.ch0, t, l), Second(e.ch0, e.ch1, t, l);
    var temp, mid, end := g1.temps, g1.labels, g1.labels + 1;
    var q0, q := s.pc + |g0.code|, s.pc + |g0.code| + 1 + |g1.code|;
    AndLayout(code, e, t, l, s.pc);
    LogicalEval(c, e, st);
    ResultPlace(c, e0, t, l);
    ResultPlace(c, e1, g0.temps, g0.labels);
    var st0 := Ast.Eval(c, e0, st).st;
    StartReached(code, c, s, st, t);
    var n0, w0 := ReachedExpr(code, c, s, 0, t, s.pc, st, Lit(0), 0, e0, t, l);
    ReachedBranch(code, c, s, n0, t, q0, st0, g0.result, w0, mid, q + 2);
    if w0 == 0 {
      ReachedCopy(code, c, s, n0 + 2, t, q + 3, st0, g0.result, w0, temp, Lit(0), 0);
      ReachedLabel(code, c, s, n0 + 3, t, q + 4, st0, Temp(temp), 0);
      n, w := n0 + 4, 0;
      LogicalDone(code, c, e, t, l, s, st, n, w, st0, q + 5);
    } else {
      var st1 := Ast.Eval(c, e1, st0).st;
      var n1, w1 := ReachedExpr(code, c, s, n0 + 1, t, q0 + 1, st0, g0.result, w0, e1, g0.temps, g0.labels);
      ReachedCopy(code, c, s, n1, t, q, st1, g1.result, w1, temp, g1.result, w1);
      ReachedJump(code, c, s, n1 + 1, t, q + 1, st1, Temp(temp), w1, end, q + 4);
      n, w := n1 + 3, w1;
      LogicalDone(code, c, e, t, l, s, st, n, w, st1, q + 5);
    }
  }

  lemma LogicalDone(
    code: seq<Unit>, c: Context, e: Expr, t: int, l: int, s: State, st: Store, n: nat, w: Word, st1: Store, p: nat)
    requires e.BinaryExpr? && Ast.Logical(e.bop)
    requires !Ast.Arith(e) && Ast.Eval(c, e, st).Val? && Ast.Eval(c, e, st).st == st1 && (w != 0 <==> Ast.Eval(c, e, st).word != 0)
    requires p == s.pc + |GenExpr(e, t, l).code| && w == Ast.CodeWord(c, e, st)
    requires Reached(code, c, s, n, t, p, st1, GenExpr(e, t, l).result, w)
    ensures Computes(code, c, e, t, l, s, st, n, w)
  {
    hide Represents, KeepsTemps, Value, Run, GenExpr, Ast.Eval;
  }

  lemma {:induction false} OrCorrect(code: seq<Unit>, c: Context, e: Expr, t: int, l: int, s: State, st: Store)
    returns (n: nat, w: Word)
    requires ExprReady(code, c, e, t, l, s, st) && e.BinaryExpr? && e.bop == Or
    ensures Computes(code, c, e, t, l, s, st, n, w)
    ensures Ast.Eval(c, e.ch0, st).Val?
    ensures w == if Ast.Eval(c, e.ch0, st).word != 0 then 1 else SecondWord(c, e, st)
    decreases e, 1
  {
    hide Represents, KeepsTemps, Value, Run, DistinctLabels, Exec, Reached, GenExpr, Ast.Eval, Ast.ExprOk, Ast.Condition, Ast.CodeWord,
         Ast.Arith, Sits, Computes;
    var e0, e1, g0, g1 := e.ch0, e.ch1, GenExpr(e.ch0, t, l), Second(e.ch0, e.ch1, t, l);
    var temp, mid, end := g1.temps, g1.labels, g1.labels + 1;
    var q0, q := s.pc + |g0.code|, s.pc + |g0.code| + 4 + |g1.code|;
    OrLayout(code, e, t, l, s.pc);
    LogicalEval(c, e, st);
    ResultPlace(c, e0, t, l);
    ResultPlace(c, e1, g0.temps, g0.labels);
    var st0 := Ast.Eval(c, e0, st).st;
    StartReached(code, c, s, st, t);
    var n0, w0 := ReachedExpr(code, c, s, 0, t, s.pc, st, Lit(0), 0, e0, t, l);
    ReachedBranch(code, c, s, n0, t, q0, st0, g0.result, w0, mid, q0 + 3);
    if w0 != 0 {
      ReachedCopy(code, c, s, n0 + 1, t, q0 + 1, st0, g0.result, w0, temp, Lit(1), 1);
      ReachedJump(code, c, s, n0 + 2, t, q0 + 2, st0, Temp(temp), 1, end, q + 1);
      n, w := n0 + 4, 1;
      LogicalDone(code, c, e, t, l, s, st, n, w, st0, q + 2);
    } else {
      var st1 := Ast.Eval(c, e1, st0).st;
      var n1, w1 := ReachedExpr(code, c, s, n0 + 2, t, q0 + 4, st0, g0.result, w0, e1, g0.temps, g0.labels);
      ReachedCopy(code, c, s, n1, t, q, st1, g1.result, w1, temp, g1.result, w1);
      ReachedLabel(code, c, s, n1 + 1, t, q + 1, st1, Temp(temp), w1);
      n, w := n1 + 2, w1;
      LogicalDone(code, c, e, t, l, s, st, n, w, st1, q + 2);
    }
  }

  // ----- calls -----

  /** All arguments have been evaluated into temporaries of their own. */
  ghost predicate ArgsCompute(code: seq<Unit>, c: Context, args: seq<Expr>, t: int, l: int, s: State, st: Store, n: nat) {
    var g, r, s' := GenArguments(args, t, l), Ast.EvalArgs(c, args, st), Run(code, c, s, n);
    && r.ArgsVal?
    && s'.pc == s.pc + |g.code|
    && Represents(r.st, s', []) && KeepsTemps(s, s', t)
    && HoldWords(c, s', g.ops, r.words)
  }

  ghost predicate HoldWords(c: Context, s: State, ops: seq<Operand>, words: seq<Word>) {
    |ops| == |words| && forall i :: 0 <= i < |ops| ==> Value(c, s.env, ops[i]) == Some(words[i])
  }

  lemma {:induction false} ArgCorrect(code: seq<Unit>, c: Context, e: Expr, t: int, l: int, s: State, st: Store)
    returns (n: nat)
    requires Ready(code, c, ArgGen(e, t, l).code, s, st)
    requires Ast.ExprOk(c, e) && Ast.Arith(e) && Ast.Eval(c, e, st).Val?
    ensures var h, r, s' := ArgGen(e, t, l), Ast.Eval(c, e, st), Run(code, c, s, n);
            && s'.pc == s.pc + |h.code| && Represents(r.st, s', []) && KeepsTemps(s, s', t)
            && Value(c, s'.env, h.result) == Some(r.word)
    decreases e, 3
  {
    hide Ast.Eval, Ast.ExprOk, Represents, KeepsTemps, Value, GenExpr, Run, DistinctLabels, Exec, Ast.Arith;
    var g := GenExpr(e, t, l);
    var w;
    ResultPlace(c, e, t, l);
    if g.result.Temp? {
      n, w := ExprCorrect(code, c, e, t, l, s, st);
    } else {
      var copy := [Copy(Temp(g.temps), g.result)];
      SitsSplit(code, s.pc, g.code, copy);
      SitsUnit(code, s.pc + |g.code|, copy, 0);
      n, w := ExprCorrect(code, c, e, t, l, s, st);
      CopyStep(code, c, s, n, Ast.Eval(c, e, st).st, t, g.temps, g.result, w);
      n := n + 1;
    }
  }

  lemma ArgPlace(c: Context, e: Expr, t: int, l: int)
    requires Ast.ExprOk(c, e)
    ensures var h := ArgGen(e, t, l);
            t <= h.temps && h.result.Temp? && t <= h.result.id < h.temps
  {
    ResultPlace(c, e, t, l);
    hide GenExpr;
  }

  lemma {:induction false} ArgsCorrect(code: seq<Unit>, c: Context, args: seq<Expr>, t: int, l: int, s: State, st: Store)
    returns (n: nat)
    requires Ready(code, c, GenArguments(args, t, l).code, s, st)
    requires forall a :: a in args ==> Ast.ExprOk(c, a) && Ast.Arith(a)
    requires Ast.EvalArgs(c, args, st).ArgsVal?
    ensures ArgsCompute(code, c, args, t, l, s, st, n)
    decreases args, 0
  {
    hide Ast.Eval, Ast.ExprOk, Represents, KeepsTemps, Value, GenExpr, Run, DistinctLabels, Ast.Arith;
    if args == [] {
      n := 0;
      NoSteps(code, c, s, t);
    } else {
      var h := ArgGen(args[0], t, l);
      var rest := GenArguments(args[1..], h.temps, h.labels);
      assert GenArguments(args, t, l).code == h.code + rest.code;
      SitsSplit(code, s.pc, h.code, rest.code);
      var n0 := ArgCorrect(code, c, args[0], t, l, s, st);
      var r0, s0 := Ast.Eval(c, args[0], st), Run(code, c, s, n0);
      var n1 := ArgsCorrect(code, c, args[1..], h.temps, h.labels, s0, r0.st);
      RunAdd(code, c, s, n0, n1);
      n := n0 + n1;
      ArgPlace(c, args[0], t, l);
      KeepsTransitive(s, s0, Run(code, c, s, n), t, h.temps);
      KeptValue(c, s0, Run(code, c, s, n), h.temps, h.result.id);
    }
  }

  lemma NoSteps(code: seq<Unit>, c: Context, s: State, t: int)
    ensures Run(code, c, s, 0) == s && KeepsTemps(s, s, t)
  {
  }

  /** Pushing the arguments one by one. */
  lemma {:induction false} PushCorrect(
    code: seq<Unit>, c: Context, s: State, n: nat, st: Store, ops: seq<Operand>, words: seq<Word>, p: nat, k: nat)
    requires k <= |ops|
    requires Run(code, c, s, n).pc == p && Represents(st, Run(code, c, s, n), [])
    requires HoldWords(c, Run(code, c, s, n), ops, words)
    requires Sits(code, p, Params(ops))
    ensures Run(code, c, s, n + k) == Run(code, c, s, n).(pc := p + k, args := words[..k])
  {
    hide Run, Value, Exec, Represents;
    RepresentsStatus(st, Run(code, c, s, n), []);
    if k > 0 {
      PushCorrect(code, c, s, n, st, ops, words, p, k - 1);
      SitsUnit(code, p, Params(ops), k - 1);
      OneMore(code, c, s, n + (k - 1), Arg(ops[k - 1]));
      ArgExec(code, c, ops[k - 1], words[k - 1], Run(code, c, s, n + (k - 1)));
      assert words[..k] == words[..k - 1] + [words[k - 1]];
    }
  }

  lemma ArgExec(code: seq<Unit>, c: Context, o: Operand, w: Word, s: State)
    requires Value(c, s.env, o) == Some(w)
    ensures Exec(code, c, Arg(o), s) == s.(pc := s.pc + 1, args := s.args + [w])
  {
  }

  /** A call of the store's kind is what the machine's call unit performs. */
  lemma CallAgrees(c: Context, st: Store, s: State, name: string, words: seq<Word>)
    requires ContextOk(c) && Represents(st, s, words)
    ensures CallValue(c, s, name) == Ast.CallWord(c, name, words, st)
    ensures Represents(Ast.CallStore(c, name, words, st), AfterCall(c, s, name), [])
    ensures forall t :: KeepsTemps(s, AfterCall(c, s, name), t)
    ensures AfterCall(c, s, name).pc == s.pc
  {
    assert Restrict(s.env, c.globals) == Restrict(st.vars, c.globals);
  }

  lemma PushedRepresents(st: Store, a: State, s: State, t: int, p: nat, words: seq<Word>)
    requires Represents(st, s, []) && KeepsTemps(a, s, t)
    ensures Represents(st, s.(pc := p, args := words), words) && KeepsTemps(a, s.(pc := p, args := words), t)
  {
  }

  /** Up to the call: arguments evaluated and pushed. */
  lemma {:induction false} ArgsPushed(code: seq<Unit>, c: Context, args: seq<Expr>, t: int, l: int, s: State, st: Store)
    returns (n: nat)
    requires Ready(code, c, GenArguments(args, t, l).code + Params(GenArguments(args, t, l).ops), s, st)
    requires forall a :: a in args ==> Ast.ExprOk(c, a) && Ast.Arith(a)
    requires Ast.EvalArgs(c, args, st).ArgsVal?
    ensures var a, r, s' := GenArguments(args, t, l), Ast.EvalArgs(c, args, st), Run(code, c, s, n);
            && s'.pc == s.pc + |a.code| + |a.ops|
            && Represents(r.st, s', r.words) && KeepsTemps(s, s', t)
    decreases args, 1
  {
    hide Ast.Eval, Ast.EvalArgs, Ast.ExprOk, Represents, KeepsTemps, Value, GenArguments, Run, DistinctLabels, Ast.Arith;
    var a, r := GenArguments(args, t, l), Ast.EvalArgs(c, args, st);
    SitsSplit(code, s.pc, a.code, Params(a.ops));
    var n0 := ArgsCorrect(code, c, args, t, l, s, st);
    PushCorrect(code, c, s, n0, r.st, a.ops, r.words, s.pc + |a.code|, |a.ops|);
    assert r.words[..|a.ops|] == r.words;
    n := n0 + |a.ops|;
    PushedRepresents(r.st, s, Run(code, c, s, n0), t, s.pc + |a.code| + |a.ops|, r.words);
  }

  lemma CallIExec(code: seq<Unit>, c: Context, st: Store, s: State, name: string, words: seq<Word>, i: int)
    requires ContextOk(c) && Represents(st, s, words) && |words| == c.arity(name)
    ensures var s' := Exec(code, c, CallI(name, Temp(i)), s);
            && Represents(Ast.CallStore(c, name, words, st), s', []) && s'.pc == s.pc + 1
            && KeepsTemps(s, s', i) && Value(c, s'.env, Temp(i)) == Some(Ast.CallWord(c, name, words, st))
  {
    assert Exec(code, c, CallI(name, Temp(i)), s) == Assign(c, AfterCall(c, s, name), Temp(i), Some(CallValue(c, s, name)));
    CallAgrees(c, st, s, name, words);
    hide Represents, KeepsTemps, Value, AfterCall, Ast.CallStore, Ast.CallWord, CallValue, Exec;
    TempAssigned(c, Ast.CallStore(c, name, words, st), AfterCall(c, s, name), [], i, CallValue(c, s, name));
    KeepsTransitive(s, AfterCall(c, s, name), Exec(code, c, CallI(name, Temp(i)), s), i, i);
  }

  lemma {:induction false} CallCorrect(code: seq<Unit>, c: Context, e: Expr, t: int, l: int, s: State, st: Store)
    returns (n: nat, w: Word)
    requires ExprReady(code, c, e, t, l, s, st) && e.CallExpr?
    ensures Computes(code, c, e, t, l, s, st, n, w)
    decreases e, 1
  {
    hide Represents, KeepsTemps, Value, Run, DistinctLabels, Exec, Ast.CallStore, Ast.CallWord;
    var a := GenArguments(e.args, t, l);
    var call := [CallI(e.name, Temp(a.temps))];
    SitsSplit(code, s.pc, a.code + Params(a.ops), call);
    SitsUnit(code, s.pc + |a.code + Params(a.ops)|, call, 0);
    n := ArgsPushed(code, c, e.args, t, l, s, st);
    var r, s1 := Ast.EvalArgs(c, e.args, st), Run(code, c, s, n);
    RepresentsStatus(r.st, s1, r.words);
    OneMore(code, c, s, n, call[0]);
    CallIExec(code, c, r.st, s1, e.name, r.words, a.temps);
    ArgsPlace(c, e.args, t, l);
    KeepsTransitive(s, s1, Run(code, c, s, n + 1), t, a.temps);
    w := Ast.Eval(c, e, st).word;
    n := n + 1;
  }

  lemma RepresentsStatus(st: Store, s: State, args: seq<Word>)
    requires Represents(st, s, args)
    ensures s.status == Running && s.args == args
  {
  }
}
