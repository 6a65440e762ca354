/** Generated code reads a variable that is an operand by itself when the operation uses it, where
    evaluation from left to right reads it at once. What the code does is what the program means from
    left to right exactly where no call in between makes a difference to an operation. */
module ReadingOrder {
  import opened Words
  import opened Wrappers
  import opened Primitive
  import opened SemanticTypes
  import opened Pinkie
  import opened Ast
  import opened Layout
  import opened Embedding
  import opened GenEeyore
  import opened GenExprCorrect
  import opened GenStmtCorrect
  import GF = GenFunctionCorrect

  // ----- operations that do not mind -----

  /** An operation whose left operand had the value `v` has the same outcome if it reads the operand now. */
  ghost predicate SameOutcome(c: Context, op: BinaryOp, e: Expr, v: Word, w: Word, st: Store) {
    var now := Found(c, e, v, st, AtUse);
    now.Some? && EvalBinary(op, now.value, w) == EvalBinary(op, v, w)
  }

  /** Along the evaluation of `e` from left to right, every operation has the outcome it would have if it
      read its left operand only when it runs. */
  ghost predicate Harmless(c: Context, e: Expr, st: Store)
    decreases e, 1
  {
    match e
    case UnaryExpr(_, ch) => Harmless(c, ch, st)
    case BinaryExpr(op, ch0, ch1) =>
      && Harmless(c, ch0, st)
      && var r0 := Eval(c, ch0, st, AtOnce);
      r0.Val? && !(op == And && r0.word == 0) && !(op == Or && r0.word != 0) ==>
        && Harmless(c, ch1, r0.st)
        && var r1 := Eval(c, ch1, r0.st, AtOnce);
        r1.Val? && !Logical(op) ==> SameOutcome(c, op, ch0, r0.word, r1.word, r1.st)
    case OffsetExpr(arr, off) =>
      Harmless(c, arr, st) && var r0 := Eval(c, arr, st, AtOnce); r0.Val? ==> Harmless(c, off, r0.st)
    case CallExpr(_, _, args) => HarmlessArgs(c, args, st)
    case _ => true
  }

  ghost predicate HarmlessArgs(c: Context, args: seq<Expr>, st: Store)
    decreases args, 0
  {
    args != [] ==>
      && Harmless(c, args[0], st)
      && var r := Eval(c, args[0], st, AtOnce);
      r.Val? ==> HarmlessArgs(c, args[1..], r.st)
  }

  /** Harmless expressions have one value, whichever way their operands are read. */
  lemma {:induction false} OrdersAgree(c: Context, e: Expr, st: Store)
    requires Harmless(c, e, st)
    ensures Eval(c, e, st, AtUse) == Eval(c, e, st, AtOnce)
    decreases e, 1
  {
    hide EvalUnary, EvalBinary, ElementAddress, ExprType, Value, CallStore, CallWord, BareOp;
    match e
    case UnaryExpr(_, ch) => OrdersAgree(c, ch, st);
    case BinaryExpr(op, ch0, ch1) =>
      OrdersAgree(c, ch0, st);
      var r0 := Eval(c, ch0, st, AtOnce);
      if r0.Val? && !(op == And && r0.word == 0) && !(op == Or && r0.word != 0) {
        OrdersAgree(c, ch1, r0.st);
      }
    case OffsetExpr(arr, off) =>
      OrdersAgree(c, arr, st);
      var r0 := Eval(c, arr, st, AtOnce);
      if r0.Val? {
        OrdersAgree(c, off, r0.st);
      }
    case CallExpr(_, _, args) => ArgsAgree(c, args, st);
    case _ =>
  }

  lemma {:induction false} ArgsAgree(c: Context, args: seq<Expr>, st: Store)
    requires HarmlessArgs(c, args, st)
    ensures EvalArgs(c, args, st, AtUse) == EvalArgs(c, args, st, AtOnce)
    decreases args, 0
  {
    hide Eval, Harmless;
    if args != [] {
      OrdersAgree(c, args[0], st);
      var r := Eval(c, args[0], st, AtOnce);
      if r.Val? {
        ArgsAgree(c, args[1..], r.st);
      }
    }
  }

  // ----- exactly when one operation minds -----

  /** Evaluation neither adds variables nor removes any. */
  lemma {:induction false} EvalKeys(c: Context, e: Expr, st: Store, ord: Reading)
    requires Eval(c, e, st, ord).Val?
    ensures Eval(c, e, st, ord).st.vars.Keys == st.vars.Keys
    decreases e, 1
  {
    hide EvalUnary, EvalBinary, ElementAddress, ExprType, Value, Found, CallWord;
    match e
    case UnaryExpr(_, ch) => EvalKeys(c, ch, st, ord);
    case BinaryExpr(op, ch0, ch1) =>
      EvalKeys(c, ch0, st, ord);
      var r := Eval(c, ch0, st, ord);
      if Eval(c, ch1, r.st, ord).Val? {
        EvalKeys(c, ch1, r.st, ord);
      }
    case OffsetExpr(arr, off) =>
      EvalKeys(c, arr, st, ord);
      EvalKeys(c, off, Eval(c, arr, st, ord).st, ord);
    case CallExpr(_, _, args) => ArgsKeys(c, args, st, ord);
    case _ =>
  }

  lemma {:induction false} ArgsKeys(c: Context, args: seq<Expr>, st: Store, ord: Reading)
    requires EvalArgs(c, args, st, ord).ArgsVal?
    ensures EvalArgs(c, args, st, ord).st.vars.Keys == st.vars.Keys
    decreases args, 0
  {
    hide Eval;
    if args != [] {
      EvalKeys(c, args[0], st, ord);
      ArgsKeys(c, args[1..], Eval(c, args[0], st, ord).st, ord);
    }
  }

  /** A variable that had a value can be read as long as there are the same variables. */
  lemma FoundWhile(c: Context, e: Expr, st: Store, ord: Reading, st1: Store)
    requires Eval(c, e, st, ord).Val? && st1.vars.Keys == Eval(c, e, st, ord).st.vars.Keys
    ensures Found(c, e, Eval(c, e, st, ord).word, st1, AtUse).Some?
  {
    hide Eval;
    if BareOp(e).Some? {
      BareEval(c, e, st, ord);
    }
  }

  lemma FoundLater(c: Context, e0: Expr, e1: Expr, st: Store, ord: Reading)
    requires Eval(c, e0, st, ord).Val? && Eval(c, e1, Eval(c, e0, st, ord).st, ord).Val?
    ensures var r0 := Eval(c, e0, st, ord);
            Found(c, e0, r0.word, Eval(c, e1, r0.st, ord).st, AtUse).Some?
  {
    hide *;
    var r0 := Eval(c, e0, st, ord);
    EvalKeys(c, e1, r0.st, ord);
    FoundWhile(c, e0, st, ord, Eval(c, e1, r0.st, ord).st);
  }

  /** A sum or difference of words determines its first operand. */
  lemma SumCancels(op: BinaryOp, a: Word, b: Word, r: Word)
    requires op == Plus || op == Minus
    ensures EvalBinary(op, a, r) == EvalBinary(op, b, r) <==> a == b
  {
    if EvalBinary(op, a, r) == EvalBinary(op, b, r) {
      var k := WrapWitness(if op == Plus then a + r else a - r);
      var j := WrapWitness(if op == Plus then b + r else b - r);
      assert a - b == (k - j) * 0x1_0000_0000;
    }
  }

  lemma OperationIs(c: Context, e: Expr, st: Store, ord: Reading)
    requires e.BinaryExpr? && !Logical(e.bop)
    requires var r0 := Eval(c, e.ch0, st, ord); r0.Val? && Eval(c, e.ch1, r0.st, ord).Val?
    ensures var r0 := Eval(c, e.ch0, st, ord);
            var r1 := Eval(c, e.ch1, r0.st, ord);
            var v := Found(c, e.ch0, r0.word, r1.st, ord);
            Eval(c, e, st, ord) == if v.Some? then Val(EvalBinary(e.bop, v.value, r1.word), r1.st) else Undef
  {
    hide Found, EvalBinary;
  }

  lemma HarmlessIs(c: Context, e: Expr, st: Store)
    requires e.BinaryExpr? && !Logical(e.bop)
    requires var r0 := Eval(c, e.ch0, st, AtOnce);
             r0.Val? && Eval(c, e.ch1, r0.st, AtOnce).Val? && Harmless(c, e.ch0, st) && Harmless(c, e.ch1, r0.st)
    ensures var r0 := Eval(c, e.ch0, st, AtOnce);
            var r1 := Eval(c, e.ch1, r0.st, AtOnce);
            Harmless(c, e, st) <==> SameOutcome(c, e.bop, e.ch0, r0.word, r1.word, r1.st)
  {
    hide SameOutcome, Eval;
  }

  /** The code computes every operation with what it finds in its left operand after the right one has
      been evaluated. Over harmless operands that is the value from left to right exactly if the operation
      gives the same for both words; for sums and differences, exactly if nothing changed the operand. */
  lemma OperationIff(code: seq<Unit>, c: Context, e: Expr, t: int, l: int, s: State, st: Store) returns (n: nat, w: Word)
    requires Ready(code, c, GenExpr(e, t, l).code, s, st) && ExprOk(c, e) && Condition(e) && e.BinaryExpr? && !Logical(e.bop)
    requires Eval(c, e.ch0, st, AtOnce).Val? && Eval(c, e.ch1, Eval(c, e.ch0, st, AtOnce).st, AtOnce).Val?
    requires Harmless(c, e.ch0, st) && Harmless(c, e.ch1, Eval(c, e.ch0, st, AtOnce).st)
    ensures Computes(code, c, e, t, l, s, st, n, w) && Eval(c, e, st, AtOnce).Val?
    ensures var r0 := Eval(c, e.ch0, st, AtOnce);
            var r1 := Eval(c, e.ch1, r0.st, AtOnce);
            var now := Found(c, e.ch0, r0.word, r1.st, AtUse);
            && now.Some? && w == EvalBinary(e.bop, now.value, r1.word)
            && Eval(c, e, st, AtOnce) == Val(EvalBinary(e.bop, r0.word, r1.word), r1.st)
            && (Harmless(c, e, st) <==> w == Eval(c, e, st, AtOnce).word)
            && (e.bop == Plus || e.bop == Minus ==> (w == Eval(c, e, st, AtOnce).word <==> now.value == r0.word))
  {
    hide *;
    OrdersAgree(c, e.ch0, st);
    var r0 := Eval(c, e.ch0, st, AtOnce);
    OrdersAgree(c, e.ch1, r0.st);
    var r1 := Eval(c, e.ch1, r0.st, AtOnce);
    OperationIs(c, e, st, AtUse);
    OperationIs(c, e, st, AtOnce);
    FoundLater(c, e.ch0, e.ch1, st, AtOnce);
    FoundAtOnce(c, e.ch0, r0.word, r1.st);
    HarmlessIs(c, e, st);
    ExprReadyIs(code, c, e, t, l, s, st);
    n, w := ExprCorrect(code, c, e, t, l, s, st);
    ComputesArith(code, c, e, t, l, s, st, n, w);
    var now := Found(c, e.ch0, r0.word, r1.st, AtUse);
    SameOutcomeIs(c, e.bop, e.ch0, r0.word, r1.word, r1.st);
    if e.bop == Plus || e.bop == Minus {
      SumCancels(e.bop, now.value, r0.word, r1.word);
    }
  }

  lemma ExprReadyIs(code: seq<Unit>, c: Context, e: Expr, t: int, l: int, s: State, st: Store)
    requires Ready(code, c, GenExpr(e, t, l).code, s, st) && ExprOk(c, e) && Condition(e) && Eval(c, e, st).Val?
    ensures ExprReady(code, c, e, t, l, s, st)
  {
    hide Eval, GenExpr, Ready, ExprOk, Condition;
  }

  lemma ComputesArith(code: seq<Unit>, c: Context, e: Expr, t: int, l: int, s: State, st: Store, n: nat, w: Word)
    requires Computes(code, c, e, t, l, s, st, n, w) && Condition(e) && e.BinaryExpr? && !Logical(e.bop)
    ensures Eval(c, e, st).Val? && w == Eval(c, e, st).word
  {
    hide Eval, Run, GenExpr, Represents, KeepsTemps, Value;
  }

  lemma FoundAtOnce(c: Context, e: Expr, v: Word, st: Store)
    ensures Found(c, e, v, st, AtOnce) == Some(v)
  {
  }

  lemma SameOutcomeIs(c: Context, op: BinaryOp, e: Expr, v: Word, w: Word, st: Store)
    ensures SameOutcome(c, op, e, v, w, st)
       <==> var now := Found(c, e, v, st, AtUse); now.Some? && EvalBinary(op, now.value, w) == EvalBinary(op, v, w)
  {
    hide Found, EvalBinary;
  }

  // ----- assignments -----

  /** The value to be stored in an element is not changed by the subscripts. */
  ghost predicate HarmlessAssign(c: Context, lhs: Expr, rhs: Expr, st: Store) {
    && Harmless(c, rhs, st)
    && (lhs.OffsetExpr? ==>
          var r := Eval(c, rhs, st, AtOnce);
          r.Val? ==>
            && Harmless(c, lhs.arr, r.st)
            && var r0 := Eval(c, lhs.arr, r.st, AtOnce);
            r0.Val? ==>
              && Harmless(c, lhs.off, r0.st)
              && var r1 := Eval(c, lhs.off, r0.st, AtOnce);
              r1.Val? ==> Found(c, rhs, r.word, r1.st, AtUse) == Some(r.word))
  }

  lemma AssignAgrees(c: Context, lhs: Expr, rhs: Expr, st: Store)
    requires HarmlessAssign(c, lhs, rhs, st)
    ensures AssignTo(c, lhs, rhs, st, AtUse) == AssignTo(c, lhs, rhs, st, AtOnce)
  {
    hide Eval, Harmless, BareOp, Value, ElementAddress, ExprType, SetElement, SetVar;
    OrdersAgree(c, rhs, st);
    var r := Eval(c, rhs, st, AtOnce);
    if lhs.OffsetExpr? && r.Val? {
      OrdersAgree(c, lhs.arr, r.st);
      var r0 := Eval(c, lhs.arr, r.st, AtOnce);
      if r0.Val? {
        OrdersAgree(c, lhs.off, r0.st);
      }
    }
  }

  /** An assignment to an element, over harmless parts, stores what it should from left to right exactly if
      its value is not a variable that the subscripts change. */
  lemma AssignIff(c: Context, lhs: Expr, rhs: Expr, st: Store)
    requires lhs.OffsetExpr? && AssignTo(c, lhs, rhs, st, AtOnce).Done?
    requires var r := Eval(c, rhs, st, AtOnce);
             r.Val? && var r0 := Eval(c, lhs.arr, r.st, AtOnce);
             r0.Val? && Harmless(c, rhs, st) && Harmless(c, lhs.arr, r.st) && Harmless(c, lhs.off, r0.st)
    ensures var r := Eval(c, rhs, st, AtOnce);
            var r1 := Eval(c, lhs.off, Eval(c, lhs.arr, r.st, AtOnce).st, AtOnce);
            && r1.Val?
            && (AssignTo(c, lhs, rhs, st, AtUse) == AssignTo(c, lhs, rhs, st, AtOnce)
                <==> Found(c, rhs, r.word, r1.st, AtUse) == Some(r.word))
  {
    hide Eval, Harmless, BareOp, Value, ElementAddress, ExprType;
    var r := Eval(c, rhs, st, AtOnce);
    var r0 := Eval(c, lhs.arr, r.st, AtOnce);
    OrdersAgree(c, rhs, st);
    OrdersAgree(c, lhs.arr, r.st);
    OrdersAgree(c, lhs.off, r0.st);
    var r1 := Eval(c, lhs.off, r0.st, AtOnce);
    var addr := ElementAddress(r0.word, ExprType(lhs.arr).offsets[0], r1.word);
    var now := Found(c, rhs, r.word, r1.st, AtUse);
    if now.Some? {
      UpdateIff(r1.st.mem, addr, now.value, r.word);
    }
    FoundAtOnce(c, rhs, r.word, r1.st);
  }

  /** The same of the code: it stores what the variable holds after the subscripts. */
  lemma ElementAssignIff(code: seq<Unit>, c: Context, x: Stmt, t: int, l: int, s: State, st: Store) returns (n: nat)
    requires Ready(code, c, GenStmt(x, t, l, None, None).code, s, st) && StmtOk(c, x, false)
    requires x.AssignStmt? && x.lhs.OffsetExpr? && AssignTo(c, x.lhs, x.rhs, st, AtOnce).Done?
    requires var r := Eval(c, x.rhs, st, AtOnce);
             r.Val? && var r0 := Eval(c, x.lhs.arr, r.st, AtOnce);
             r0.Val? && Harmless(c, x.rhs, st) && Harmless(c, x.lhs.arr, r.st) && Harmless(c, x.lhs.off, r0.st)
    ensures AssignTo(c, x.lhs, x.rhs, st).Done?
    ensures Arrived(code, c, s, n, s.pc + |GenStmt(x, t, l, None, None).code|, AssignTo(c, x.lhs, x.rhs, st).st)
    ensures var r := Eval(c, x.rhs, st, AtOnce);
            var r1 := Eval(c, x.lhs.off, Eval(c, x.lhs.arr, r.st, AtOnce).st, AtOnce);
            && r1.Val?
            && (AssignTo(c, x.lhs, x.rhs, st).st == AssignTo(c, x.lhs, x.rhs, st, AtOnce).st
                <==> Found(c, x.rhs, r.word, r1.st, AtUse) == Some(r.word))
  {
    hide *;
    AssignIff(c, x.lhs, x.rhs, st);
    AssignDone(c, x.lhs, x.rhs, st);
    n := ElementAssignCorrect(code, c, x, t, l, s, st);
    var o := AssignTo(c, x.lhs, x.rhs, st);
    FollowsFall(code, c, s, n, o, 0, s.pc + |GenStmt(x, t, l, None, None).code|, None, None);
  }

  lemma AssignDone(c: Context, lhs: Expr, rhs: Expr, st: Store)
    requires lhs.OffsetExpr? && AssignTo(c, lhs, rhs, st, AtOnce).Done?
    requires var r := Eval(c, rhs, st, AtOnce);
             r.Val? && var r0 := Eval(c, lhs.arr, r.st, AtOnce);
             r0.Val? && Harmless(c, rhs, st) && Harmless(c, lhs.arr, r.st) && Harmless(c, lhs.off, r0.st)
    ensures AssignTo(c, lhs, rhs, st).Done? && AssignTo(c, lhs, rhs, st).exit.Fall?
    ensures AssignTo(c, lhs, rhs, st, AtOnce).exit.Fall?
  {
    hide Eval, Harmless, BareOp, Value, ElementAddress, ExprType, Found;
    var r := Eval(c, rhs, st, AtOnce);
    var r0 := Eval(c, lhs.arr, r.st, AtOnce);
    OrdersAgree(c, rhs, st);
    OrdersAgree(c, lhs.arr, r.st);
    OrdersAgree(c, lhs.off, r0.st);
    EvalKeys(c, lhs.arr, r.st, AtOnce);
    EvalKeys(c, lhs.off, r0.st, AtOnce);
    FoundWhile(c, rhs, st, AtOnce, Eval(c, lhs.off, r0.st, AtOnce).st);
  }

  lemma UpdateIff(m: map<Word, Word>, a: Word, v: Word, w: Word)
    ensures m[a := v] == m[a := w] <==> v == w
  {
    assert m[a := v][a] == v && m[a := w][a] == w;
  }

  // ----- statements and functions -----

  ghost predicate HarmlessInit(c: Context, op: Operand, length: int, init: seq<Alignment>, st: Store) {
    init != [] ==>
      && Harmless(c, init[0].exp, st)
      && var o := Init(c, op, length, init[..1], st, AtOnce);
      o.Done? ==> HarmlessInit(c, op, length, init[1..], o.st)
  }

  /** Everything that running the statement from left to right evaluates is harmless. */
  ghost predicate HarmlessStmt(c: Context, s: Stmt, st: Store, fuel: nat)
    decreases fuel, s, 1
  {
    match s
    case Block(items) => HarmlessAll(c, items, st, fuel)
    case Declare(op, length, init) => HarmlessInit(c, op, length, init, st)
    case AssignStmt(lhs, rhs) => HarmlessAssign(c, lhs, rhs, st)
    case ExprStmt(e) => Harmless(c, e, st)
    case Return(Some(e)) => Harmless(c, e, st)
    case If(cond, thenClause, elseClause) =>
      && Harmless(c, cond, st)
      && var r := Eval(c, cond, st, AtOnce);
      r.Val? ==>
        if r.word != 0 then HarmlessStmt(c, thenClause, r.st, fuel)
        else elseClause.Some? ==> HarmlessStmt(c, elseClause.value, r.st, fuel)
    case While(cond, body) =>
      fuel > 0 ==>
        && Harmless(c, cond, st)
        && var r := Eval(c, cond, st, AtOnce);
        r.Val? && r.word != 0 ==>
          && HarmlessStmt(c, body, r.st, fuel)
          && var o := Ast.Exec(c, body, r.st, fuel, AtOnce);
          o.Done? && (o.exit.Fall? || o.exit.Cont?) ==> HarmlessStmt(c, s, o.st, fuel - 1)
    case _ => true
  }

  ghost predicate HarmlessAll(c: Context, items: seq<Stmt>, st: Store, fuel: nat)
    decreases fuel, items, 0
  {
    items != [] ==>
      && HarmlessStmt(c, items[0], st, fuel)
      && var o := Ast.Exec(c, items[0], st, fuel, AtOnce);
      o.Done? && o.exit.Fall? ==> HarmlessAll(c, items[1..], o.st, fuel)
  }

  lemma InitFirst(c: Context, op: Operand, length: int, init: seq<Alignment>, st: Store, ord: Reading)
    requires init != []
    ensures var o := Init(c, op, length, init[..1], st, ord);
            Init(c, op, length, init, st, ord) == if o.Done? then Init(c, op, length, init[1..], o.st, ord) else o
  {
    hide Eval, SetVar, SetElement, Value, ElementAddress;
    assert init[..1][1..] == [];
  }

  lemma InitOneAgrees(c: Context, op: Operand, length: int, init: seq<Alignment>, st: Store)
    requires init != [] && Harmless(c, init[0].exp, st)
    ensures Init(c, op, length, init[..1], st, AtUse) == Init(c, op, length, init[..1], st, AtOnce)
  {
    OrdersAgree(c, init[0].exp, st);
    hide Eval, SetVar, SetElement, Value, ElementAddress, Harmless;
    assert init[..1][1..] == [];
  }

  lemma {:induction false} InitAgrees(c: Context, op: Operand, length: int, init: seq<Alignment>, st: Store)
    requires HarmlessInit(c, op, length, init, st)
    ensures Init(c, op, length, init, st, AtUse) == Init(c, op, length, init, st, AtOnce)
  {
    if init != [] {
      hide Init, Harmless;
      InitOneAgrees(c, op, length, init, st);
      InitFirst(c, op, length, init, st, AtUse);
      InitFirst(c, op, length, init, st, AtOnce);
      var o := Init(c, op, length, init[..1], st, AtOnce);
      if o.Done? {
        InitAgrees(c, op, length, init[1..], o.st);
      }
    }
  }

  /** A run without harmful operations is the same run, whichever way operands are read. */
  lemma {:induction false} RunsAgree(c: Context, s: Stmt, st: Store, fuel: nat)
    requires HarmlessStmt(c, s, st, fuel)
    ensures Ast.Exec(c, s, st, fuel, AtUse) == Ast.Exec(c, s, st, fuel, AtOnce)
    decreases fuel, s, 1
  {
    hide Eval, Harmless, HarmlessAssign, HarmlessInit, AssignTo, Init;
    match s {
      case Block(items) => AllAgree(c, items, st, fuel);
      case Declare(op, length, init) => InitAgrees(c, op, length, init, st);
      case AssignStmt(lhs, rhs) => AssignAgrees(c, lhs, rhs, st);
      case ExprStmt(e) => OrdersAgree(c, e, st);
      case Return(v) =>
        if v.Some? {
          OrdersAgree(c, v.value, st);
        }
      case If(cond, thenClause, elseClause) =>
        OrdersAgree(c, cond, st);
        var r := Eval(c, cond, st, AtOnce);
        if r.Val? && r.word != 0 {
          RunsAgree(c, thenClause, r.st, fuel);
        } else if r.Val? && elseClause.Some? {
          RunsAgree(c, elseClause.value, r.st, fuel);
        }
      case While(cond, body) =>
        if fuel > 0 {
          OrdersAgree(c, cond, st);
          var r := Eval(c, cond, st, AtOnce);
          if r.Val? && r.word != 0 {
            RunsAgree(c, body, r.st, fuel);
            var o := Ast.Exec(c, body, r.st, fuel, AtOnce);
            if o.Done? && (o.exit.Fall? || o.exit.Cont?) {
              RunsAgree(c, s, o.st, fuel - 1);
            }
          }
        }
      case _ =>
    }
  }

  lemma {:induction false} AllAgree(c: Context, items: seq<Stmt>, st: Store, fuel: nat)
    requires HarmlessAll(c, items, st, fuel)
    ensures ExecAll(c, items, st, fuel, AtUse) == ExecAll(c, items, st, fuel, AtOnce)
    decreases fuel, items, 0
  {
    hide Ast.Exec, HarmlessStmt;
    if items != [] {
      RunsAgree(c, items[0], st, fuel);
      var o := Ast.Exec(c, items[0], st, fuel, AtOnce);
      if o.Done? && o.exit.Fall? {
        AllAgree(c, items[1..], o.st, fuel);
      }
    }
  }

  /** A call of the function meets no harmful operation. */
  ghost predicate HarmlessCall(c: Context, f: GenEeyore.Function, st: Store, fuel: nat) {
    HarmlessStmt(c, f.body, GF.BodyStore(c, f, st), fuel)
  }

  lemma MeaningsAgree(c: Context, f: GenEeyore.Function, st: Store, fuel: nat)
    requires HarmlessCall(c, f, st, fuel)
    ensures GF.Meaning(c, f, st, fuel, AtUse) == GF.Meaning(c, f, st, fuel, AtOnce)
  {
    hide Ast.Exec, GF.BodyStore, HarmlessStmt;
    RunsAgree(c, f.body, GF.BodyStore(c, f, st), fuel);
  }

  // ----- a check before running -----

  predicate HasCall(e: Expr) {
    match e
    case UnaryExpr(_, ch) => HasCall(ch)
    case BinaryExpr(_, ch0, ch1) => HasCall(ch0) || HasCall(ch1)
    case OffsetExpr(arr, off) => HasCall(arr) || HasCall(off)
    case CallExpr(_, _, _) => true
    case _ => false
  }

  /** No operand names a global scalar to the left of an operand with a call. */
  predicate Tame(globals: set<Operand>, e: Expr) {
    match e
    case UnaryExpr(_, ch) => Tame(globals, ch)
    case BinaryExpr(op, ch0, ch1) =>
      && Tame(globals, ch0) && Tame(globals, ch1)
      && (Logical(op) || BareOp(ch0).None? || BareOp(ch0).value !in globals || !HasCall(ch1))
    case OffsetExpr(arr, off) => Tame(globals, arr) && Tame(globals, off)
    case CallExpr(_, _, args) => forall a :: a in args ==> Tame(globals, a)
    case _ => true
  }

  lemma {:induction false} EvalPure(c: Context, e: Expr, st: Store, ord: Reading)
    requires !HasCall(e) && Eval(c, e, st, ord).Val?
    ensures Eval(c, e, st, ord).st == st
  {
    hide EvalUnary, EvalBinary, ElementAddress, ExprType, Value, Found;
    match e
    case UnaryExpr(_, ch) => EvalPure(c, ch, st, ord);
    case BinaryExpr(op, ch0, ch1) =>
      EvalPure(c, ch0, st, ord);
      if Eval(c, ch1, st, ord).Val? {
        EvalPure(c, ch1, st, ord);
      }
    case OffsetExpr(arr, off) =>
      EvalPure(c, arr, st, ord);
      EvalPure(c, off, st, ord);
    case _ =>
  }

  lemma TameOutcome(c: Context, op: BinaryOp, e0: Expr, e1: Expr, st: Store)
    requires ContextOk(c) && (BareOp(e0).None? || BareOp(e0).value !in c.globals || !HasCall(e1))
    requires var r0 := Eval(c, e0, st, AtOnce); r0.Val? && Eval(c, e1, r0.st, AtOnce).Val?
    ensures var r0 := Eval(c, e0, st, AtOnce);
            var r1 := Eval(c, e1, r0.st, AtOnce);
            SameOutcome(c, op, e0, r0.word, r1.word, r1.st)
  {
    hide Eval, Value, EvalBinary;
    var r0 := Eval(c, e0, st, AtOnce);
    if BareOp(e0).Some? {
      BareEval(c, e0, st, AtOnce);
      if HasCall(e1) {
        EvalFrame(c, e1, r0.st, BareOp(e0).value, AtOnce);
      } else {
        EvalPure(c, e1, r0.st, AtOnce);
      }
    }
  }

  /** Expressions that pass the check are harmless from every store; call-free ones always pass. */
  lemma {:induction false} TameHarmless(c: Context, e: Expr, st: Store)
    requires ContextOk(c) && Tame(c.globals, e)
    ensures Harmless(c, e, st)
    decreases e, 1
  {
    hide SameOutcome, HasCall, BareOp, ContextOk;
    match e
    case UnaryExpr(_, ch) => TameHarmless(c, ch, st);
    case BinaryExpr(op, ch0, ch1) =>
      TameHarmless(c, ch0, st);
      var r0 := Eval(c, ch0, st, AtOnce);
      if r0.Val? && !(op == And && r0.word == 0) && !(op == Or && r0.word != 0) {
        TameHarmless(c, ch1, r0.st);
        hide Eval;
        if Eval(c, ch1, r0.st, AtOnce).Val? && !Logical(op) {
          TameOutcome(c, op, ch0, ch1, st);
        }
      }
    case OffsetExpr(arr, off) =>
      TameHarmless(c, arr, st);
      var r0 := Eval(c, arr, st, AtOnce);
      if r0.Val? {
        TameHarmless(c, off, r0.st);
      }
    case CallExpr(_, _, args) => TameArgs(c, args, st);
    case _ =>
  }

  lemma {:induction false} TameArgs(c: Context, args: seq<Expr>, st: Store)
    requires ContextOk(c) && forall a :: a in args ==> Tame(c.globals, a)
    ensures HarmlessArgs(c, args, st)
    decreases args, 0
  {
    hide Eval, Tame, Harmless, ContextOk;
    if args != [] {
      TameHarmless(c, args[0], st);
      var r := Eval(c, args[0], st, AtOnce);
      if r.Val? {
        TameArgs(c, args[1..], r.st);
      }
    }
  }

  lemma CallFreeTame(globals: set<Operand>, e: Expr)
    requires !HasCall(e)
    ensures Tame(globals, e)
  {
  }

  /** The same check of statements: nor is a global scalar assigned to an element whose subscripts call. */
  predicate TameStmt(globals: set<Operand>, s: Stmt) {
    match s
    case Block(items) => forall i :: i in items ==> TameStmt(globals, i)
    case Declare(_, _, init) => forall a :: a in init ==> Tame(globals, a.exp)
    case AssignStmt(lhs, rhs) =>
      && Tame(globals, rhs)
      && (lhs.OffsetExpr? ==>
            && Tame(globals, lhs.arr) && Tame(globals, lhs.off)
            && (BareOp(rhs).None? || BareOp(rhs).value !in globals || !HasCall(lhs)))
    case ExprStmt(e) => Tame(globals, e)
    case Return(v) => v.Some? ==> Tame(globals, v.value)
    case If(cond, t, f) => Tame(globals, cond) && TameStmt(globals, t) && (f.Some? ==> TameStmt(globals, f.value))
    case While(cond, body) => Tame(globals, cond) && TameStmt(globals, body)
    case _ => true
  }

  lemma TameAssign(c: Context, lhs: Expr, rhs: Expr, st: Store)
    requires ContextOk(c) && TameStmt(c.globals, AssignStmt(lhs, rhs))
    ensures HarmlessAssign(c, lhs, rhs, st)
  {
    hide Eval, Harmless, Tame, Value, BareOp;
    TameHarmless(c, rhs, st);
    var r := Eval(c, rhs, st, AtOnce);
    if lhs.OffsetExpr? && r.Val? {
      TameHarmless(c, lhs.arr, r.st);
      var r0 := Eval(c, lhs.arr, r.st, AtOnce);
      if r0.Val? {
        TameHarmless(c, lhs.off, r0.st);
        if Eval(c, lhs.off, r0.st, AtOnce).Val? {
          TameFound(c, rhs, lhs.arr, lhs.off, st);
        }
      }
    }
  }

  lemma TameFound(c: Context, rhs: Expr, arr: Expr, off: Expr, st: Store)
    requires ContextOk(c) && Eval(c, rhs, st, AtOnce).Val?
    requires var r := Eval(c, rhs, st, AtOnce);
             var r0 := Eval(c, arr, r.st, AtOnce);
             r0.Val? && Eval(c, off, r0.st, AtOnce).Val?
    requires BareOp(rhs).None? || BareOp(rhs).value !in c.globals || !HasCall(OffsetExpr(arr, off))
    ensures var r := Eval(c, rhs, st, AtOnce);
            var r1 := Eval(c, off, Eval(c, arr, r.st, AtOnce).st, AtOnce);
            Found(c, rhs, r.word, r1.st, AtUse) == Some(r.word)
  {
    hide Eval, Value;
    var r := Eval(c, rhs, st, AtOnce);
    var r0 := Eval(c, arr, r.st, AtOnce);
    if BareOp(rhs).Some? {
      BareEval(c, rhs, st, AtOnce);
      if HasCall(OffsetExpr(arr, off)) {
        EvalFrame(c, arr, r.st, BareOp(rhs).value, AtOnce);
        EvalFrame(c, off, r0.st, BareOp(rhs).value, AtOnce);
      } else {
        EvalPure(c, arr, r.st, AtOnce);
        EvalPure(c, off, r0.st, AtOnce);
      }
    }
  }

  lemma {:induction false} TameInit(c: Context, op: Operand, length: int, init: seq<Alignment>, st: Store)
    requires ContextOk(c) && forall a :: a in init ==> Tame(c.globals, a.exp)
    ensures HarmlessInit(c, op, length, init, st)
  {
    hide Init, Harmless, Tame, ContextOk;
    if init != [] {
      TameHarmless(c, init[0].exp, st);
      var o := Init(c, op, length, init[..1], st, AtOnce);
      if o.Done? {
        TameInit(c, op, length, init[1..], o.st);
      }
    }
  }

  /** Every run of a statement that passes the check is harmless, so the code does what it means. */
  lemma {:induction false} TameRuns(c: Context, s: Stmt, st: Store, fuel: nat)
    requires ContextOk(c) && TameStmt(c.globals, s)
    ensures HarmlessStmt(c, s, st, fuel)
    decreases fuel, s, 1
  {
    match s {
      case Block(items) => TameAll(c, items, st, fuel);
      case Declare(op, length, init) => TameInit(c, op, length, init, st);
      case AssignStmt(lhs, rhs) => TameAssign(c, lhs, rhs, st);
      case ExprStmt(e) => TameHarmless(c, e, st);
      case Return(v) =>
        if v.Some? {
          TameHarmless(c, v.value, st);
        }
      case If(cond, thenClause, elseClause) =>
        TameHarmless(c, cond, st);
        var r := Eval(c, cond, st, AtOnce);
        if r.Val? && r.word != 0 {
          TameRuns(c, thenClause, r.st, fuel);
        } else if r.Val? && elseClause.Some? {
          TameRuns(c, elseClause.value, r.st, fuel);
        }
      case While(cond, body) =>
        TameHarmless(c, cond, st);
        var r := Eval(c, cond, st, AtOnce);
        if fuel > 0 && r.Val? && r.word != 0 {
          TameRuns(c, body, r.st, fuel);
          var o := Ast.Exec(c, body, r.st, fuel, AtOnce);
          if o.Done? && (o.exit.Fall? || o.exit.Cont?) {
            TameRuns(c, s, o.st, fuel - 1);
          }
        }
      case _ =>
    }
    hide Eval, Ast.Exec, Harmless, HarmlessAssign, HarmlessInit, Tame, ContextOk;
  }

  lemma {:induction false} TameAll(c: Context, items: seq<Stmt>, st: Store, fuel: nat)
    requires ContextOk(c) && forall i :: i in items ==> TameStmt(c.globals, i)
    ensures HarmlessAll(c, items, st, fuel)
    decreases fuel, items, 0
  {
    hide Ast.Exec, HarmlessStmt, TameStmt, ContextOk;
    if items != [] {
      TameRuns(c, items[0], st, fuel);
      var o := Ast.Exec(c, items[0], st, fuel, AtOnce);
      if o.Done? && o.exit.Fall? {
        TameAll(c, items[1..], o.st, fuel);
      }
    }
  }
}
