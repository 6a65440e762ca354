/** Resolved SysY expressions and statements, and what the language says they mean. */
module Ast {
  import opened Words
  import opened Wrappers
  import opened Primitive
  import opened SemanticTypes
  import opened Pinkie

  /** A call to a function returning `int`, to one returning nothing, or to a timing macro on a line. */
  datatype CallKind = IntCall | VoidCall | MacroCall(line: Word)

  datatype Expr =
    | Literal(val: Word)
    | Symbol(op: Operand, ty: SemanticType)
    | UnaryExpr(uop: UnaryOp, ch: Expr)
    | BinaryExpr(bop: BinaryOp, ch0: Expr, ch1: Expr)
    | OffsetExpr(arr: Expr, off: Expr)
    | CallExpr(kind: CallKind, name: string, args: seq<Expr>)

  /** One aligned initialiser: an element offset and the expression that goes there. */
  datatype Alignment = Alignment(offset: int, exp: Expr)

  datatype Stmt =
    | Empty
    | Break
    | Continue
    | Block(items: seq<Stmt>)
    | Declare(op: Operand, length: int, init: seq<Alignment>)
    | AssignStmt(lhs: Expr, rhs: Expr)
    | ExprStmt(exp: Expr)
    | Return(val: Option<Expr>)
    | If(cond: Expr, thenClause: Stmt, elseClause: Option<Stmt>)
    | While(cond: Expr, body: Stmt)

  function ExprType(e: Expr): SemanticType {
    match e
    case Symbol(_, ty) => ty
    case UnaryExpr(UPlus, ch) => ExprType(ch)
    case OffsetExpr(arr, _) =>
      var ty := ExprType(arr);
      if |ty.dimensions| > 0 && |ty.offsets| > 0 then ty.DropFirst() else SCALAR
    case _ => SCALAR
  }

  predicate IsScalar(e: Expr) {
    !ExprType(e).IsArray()
  }

  predicate Logical(op: BinaryOp) {
    op == And || op == Or
  }

  /** No logical connective anywhere: what the grammar allows outside conditions. */
  predicate Arith(e: Expr) {
    match e
    case UnaryExpr(_, ch) => Arith(ch)
    case BinaryExpr(op, ch0, ch1) => !Logical(op) && Arith(ch0) && Arith(ch1)
    case OffsetExpr(arr, off) => Arith(arr) && Arith(off)
    case CallExpr(_, _, args) => forall a :: a in args ==> Arith(a)
    case _ => true
  }

  /** A condition: logical connectives over arithmetic, and nothing over logical connectives. */
  predicate Condition(e: Expr) {
    Arith(e) || (e.BinaryExpr? && Logical(e.bop) && Condition(e.ch0) && Condition(e.ch1))
  }

  /** The variable an expression merely names, if it is a variable under unary pluses. */
  function BareOp(e: Expr): Option<Operand> {
    match e
    case Symbol(op, _) => Some(op)
    case UnaryExpr(UPlus, ch) => BareOp(ch)
    case _ => None
  }

  ghost predicate SymbolOk(c: Context, op: Operand, ty: SemanticType) {
    && (op.Var? || op.Param?)
    && |ty.offsets| == |ty.dimensions|
    && (if ty.IsArray() then op !in c.globals else op !in c.arrays)
  }

  /** Well-typed expressions. */
  ghost predicate ExprOk(c: Context, e: Expr) {
    match e
    case Literal(_) => true
    case Symbol(op, ty) => SymbolOk(c, op, ty)
    case UnaryExpr(_, ch) => IsScalar(ch) && ExprOk(c, ch)
    case BinaryExpr(op, ch0, ch1) =>
      IsScalar(ch0) && IsScalar(ch1) && ExprOk(c, ch0) && ExprOk(c, ch1)
    case OffsetExpr(arr, off) =>
      !IsScalar(arr) && |ExprType(arr).offsets| > 0 && IsScalar(off) && ExprOk(c, arr) && ExprOk(c, off)
    case CallExpr(kind, _, args) => kind.IntCall? && forall a :: a in args ==> ExprOk(c, a)
  }

  // ----- meaning of expressions -----

  /** The named scalars, the arrays, and the calls made so far. */
  datatype Store = Store(vars: map<Operand, Word>, mem: map<Word, Word>, trace: seq<Event>)

  /** The value of an expression and the store it leaves, unless it has no meaning. */
  datatype Result = Undef | Val(word: Word, st: Store)

  /** When a variable that is an operand by itself is read: at once, as evaluation from left to right has it,
      or at its use by the operation, after the other operand, as generated code has it. */
  datatype Reading = AtOnce | AtUse

  datatype ArgsResult = ArgsUndef | ArgsVal(words: seq<Word>, st: Store)

  /** A machine state that holds a store and pending arguments, and nothing else. */
  ghost function AsState(st: Store, args: seq<Word>): State {
    State(0, st.vars, st.mem, args, st.trace, Running)
  }

  ghost function CallStore(c: Context, name: string, args: seq<Word>, st: Store): Store {
    var s := AfterCall(c, AsState(st, args), name);
    Store(s.env, s.mem, s.trace)
  }

  ghost function CallWord(c: Context, name: string, args: seq<Word>, st: Store): Word {
    CallValue(c, AsState(st, args), name)
  }

  /** The byte address of element `i` of what `base` points to, with stride `stride`. */
  function ElementAddress(base: Word, stride: int, i: Word): Word {
    Wrap(base + 4 * stride * i)
  }

  const MACRO_PREFIX := "_sysy_"

  /** What an operation finds in operand `e`, which had the value `v`, when it runs in the store `st`. */
  ghost function Found(c: Context, e: Expr, v: Word, st: Store, ord: Reading): Option<Word> {
    if ord.AtUse? && BareOp(e).Some? then Value(c, st.vars, BareOp(e).value) else Some(v)
  }

  ghost function Eval(c: Context, e: Expr, st: Store, ord: Reading := AtUse): Result
    decreases e, 1
  {
    match e
    case Literal(v) => Val(v, st)
    case Symbol(op, _) => (match Value(c, st.vars, op) case None => Undef case Some(v) => Val(v, st))
    case UnaryExpr(op, ch) =>
      (match Eval(c, ch, st, ord)
       case Undef => Undef
       case Val(v, st1) => Val(EvalUnary(op, v), st1))
    case BinaryExpr(op, ch0, ch1) =>
      (match Eval(c, ch0, st, ord)
       case Undef => Undef
       case Val(v0, st0) =>
         if op == And && v0 == 0 then Val(0, st0)
         else if op == Or && v0 != 0 then Val(1, st0)
         else
           match Eval(c, ch1, st0, ord)
           case Undef => Undef
           case Val(v1, st1) =>
             if Logical(op) then Val(EvalBinary(op, v0, v1), st1)
             else
               match Found(c, ch0, v0, st1, ord)
               case None => Undef
               case Some(v) => Val(EvalBinary(op, v, v1), st1))
    case OffsetExpr(arr, off) =>
      (match Eval(c, arr, st, ord)
       case Undef => Undef
       case Val(base, st0) =>
         match Eval(c, off, st0, ord)
         case Undef => Undef
         case Val(i, st1) =>
           if |ExprType(arr).offsets| == 0 then Undef
           else
             var addr := ElementAddress(base, ExprType(arr).offsets[0], i);
             if !IsScalar(e) then Val(addr, st1)
             else if addr in st1.mem then Val(st1.mem[addr], st1)
             else Undef)
    case CallExpr(kind, name, args) =>
      match EvalArgs(c, args, st, ord)
      case ArgsUndef => Undef
      case ArgsVal(ws, st1) =>
        var f := if kind.MacroCall? then MACRO_PREFIX + name else name;
        var words := if kind.MacroCall? then ws + [kind.line] else ws;
        if |words| != c.arity(f) then Undef
        else Val(CallWord(c, f, words, st1), CallStore(c, f, words, st1))
  }

  /** Arguments are evaluated from left to right. */
  ghost function EvalArgs(c: Context, args: seq<Expr>, st: Store, ord: Reading := AtUse): ArgsResult
    decreases args, 0
  {
    if args == [] then ArgsVal([], st)
    else
      match Eval(c, args[0], st, ord)
      case Undef => ArgsUndef
      case Val(w, st0) =>
        match EvalArgs(c, args[1..], st0, ord)
        case ArgsUndef => ArgsUndef
        case ArgsVal(ws, st1) => ArgsVal([w] + ws, st1)
  }

  /** The word that generated code leaves for a condition: a connective gives the word of the operand
      that decides it as it is, 0 for a false first operand of `&&` and 1 for a true one of `||`. */
  ghost function CodeWord(c: Context, e: Expr, st: Store): Word {
    var r := Eval(c, if e.BinaryExpr? && Logical(e.bop) then e.ch0 else e, st);
    if r.Undef? then 0
    else if !(e.BinaryExpr? && Logical(e.bop)) then r.word
    else if e.bop == And && r.word == 0 then 0
    else if e.bop == Or && r.word != 0 then 1
    else CodeWord(c, e.ch1, r.st)
  }

  /** An operand that merely names a variable evaluates to the variable. */
  lemma {:induction false} BareEval(c: Context, e: Expr, st: Store, ord: Reading := AtUse)
    requires BareOp(e).Some? && Eval(c, e, st, ord).Val?
    ensures Eval(c, e, st, ord).st == st && Value(c, st.vars, BareOp(e).value) == Some(Eval(c, e, st, ord).word)
  {
    if e.UnaryExpr? {
      BareEval(c, e.ch, st, ord);
    }
  }

  /** What has just been evaluated is found as it was, whenever it is read. */
  lemma FoundRightAway(c: Context, e: Expr, st: Store, ord: Reading := AtUse)
    requires Eval(c, e, st, ord).Val?
    ensures Found(c, e, Eval(c, e, st, ord).word, Eval(c, e, st, ord).st, AtUse) == Some(Eval(c, e, st, ord).word)
  {
    hide Eval, Value;
    if BareOp(e).Some? {
      BareEval(c, e, st, ord);
    }
  }

  // ----- meaning of statements -----

  datatype Exit = Fall | Brk | Cont | Ret(val: Option<Word>)

  datatype Outcome = Undefined | OutOfFuel | Done(exit: Exit, st: Store)

  ghost function SetVar(c: Context, op: Operand, r: Result): Outcome {
    match r
    case Undef => Undefined
    case Val(w, st) =>
      if Assignable(c, op) then Done(Fall, st.(vars := st.vars[op := w])) else Undefined
  }

  ghost function SetElement(addr: Word, w: Word, st: Store): Outcome {
    if addr in st.mem then Done(Fall, st.(mem := st.mem[addr := w])) else Undefined
  }

  /** Initialisers are evaluated and stored one after the other. */
  ghost function Init(
    c: Context, op: Operand, length: int, init: seq<Alignment>, st: Store, ord: Reading := AtUse): Outcome
  {
    if init == [] then Done(Fall, st)
    else
      var r := Eval(c, init[0].exp, st, ord);
      var o :=
        if length <= 0 then SetVar(c, op, r)
        else
          (match r
           case Undef => Undefined
           case Val(w, st1) =>
             match Value(c, st1.vars, op)
             case None => Undefined
             case Some(base) => SetElement(ElementAddress(base, 1, Wrap(init[0].offset)), w, st1));
      if o.Done? then Init(c, op, length, init[1..], o.st, ord) else o
  }

  ghost function AssignTo(c: Context, lhs: Expr, rhs: Expr, st: Store, ord: Reading := AtUse): Outcome {
    match lhs
    case Symbol(op, _) => SetVar(c, op, Eval(c, rhs, st, ord))
    case OffsetExpr(arr, off) =>
      (match Eval(c, rhs, st, ord)
       case Undef => Undefined
       case Val(w, st0) =>
         match Eval(c, arr, st0, ord)
         case Undef => Undefined
         case Val(base, st1) =>
           match Eval(c, off, st1, ord)
           case Undef => Undefined
           case Val(i, st2) =>
             if |ExprType(arr).offsets| == 0 then Undefined
             else
               match Found(c, rhs, w, st2, ord)
               case None => Undefined
               case Some(v) => SetElement(ElementAddress(base, ExprType(arr).offsets[0], i), v, st2))
    case _ => Undefined
  }

  /** Runs a statement; `fuel` bounds the iterations of each loop. */
  ghost function Exec(c: Context, s: Stmt, st: Store, fuel: nat, ord: Reading := AtUse): Outcome
    decreases fuel, s, 1
  {
    match s
    case Empty => Done(Fall, st)
    case Break => Done(Brk, st)
    case Continue => Done(Cont, st)
    case Block(items) => ExecAll(c, items, st, fuel, ord)
    case Declare(op, length, init) => Init(c, op, length, init, st, ord)
    case AssignStmt(lhs, rhs) => AssignTo(c, lhs, rhs, st, ord)
    case ExprStmt(e) =>
      (match Eval(c, e, st, ord) case Undef => Undefined case Val(_, st1) => Done(Fall, st1))
    case Return(None) => Done(Ret(None), st)
    case Return(Some(e)) =>
      (match Eval(c, e, st, ord) case Undef => Undefined case Val(w, st1) => Done(Ret(Some(w)), st1))
    case If(cond, thenClause, elseClause) =>
      (match Eval(c, cond, st, ord)
       case Undef => Undefined
       case Val(w, st1) =>
         if w != 0 then Exec(c, thenClause, st1, fuel, ord)
         else if elseClause.Some? then Exec(c, elseClause.value, st1, fuel, ord)
         else Done(Fall, st1))
    case While(cond, body) =>
      if fuel == 0 then OutOfFuel
      else
        match Eval(c, cond, st, ord)
        case Undef => Undefined
        case Val(w, st1) =>
          if w == 0 then Done(Fall, st1)
          else
            var o := Exec(c, body, st1, fuel, ord);
            if o.Done? && (o.exit.Fall? || o.exit.Cont?) then Exec(c, s, o.st, fuel - 1, ord)
            else if o.Done? && o.exit.Brk? then Done(Fall, o.st)
            else o
  }

  ghost function ExecAll(c: Context, items: seq<Stmt>, st: Store, fuel: nat, ord: Reading := AtUse): Outcome
    decreases fuel, items, 0
  {
    if items == [] then Done(Fall, st)
    else
      var o := Exec(c, items[0], st, fuel, ord);
      if o.Done? && o.exit.Fall? then ExecAll(c, items[1..], o.st, fuel, ord) else o
  }

  /** Well-typed statements, as the parser and the type checker leave them. */
  ghost predicate StmtOk(c: Context, s: Stmt, inLoop: bool) {
    match s
    case Empty => true
    case Break => inLoop
    case Continue => inLoop
    case Block(items) => forall i :: i in items ==> StmtOk(c, i, inLoop)
    case Declare(op, length, init) =>
      && (op.Var? || op.Param?)
      && (if length > 0 then op in c.arrays else Assignable(c, op))
      && forall a :: a in init ==> ExprOk(c, a.exp) && IsScalar(a.exp) && Arith(a.exp)
    case AssignStmt(lhs, rhs) =>
      && ExprOk(c, lhs) && ExprOk(c, rhs) && IsScalar(lhs) && IsScalar(rhs) && Arith(lhs) && Arith(rhs)
      && (lhs.Symbol? || lhs.OffsetExpr?)
    case ExprStmt(e) =>
      if e.CallExpr? then forall a :: a in e.args ==> ExprOk(c, a) && Arith(a) else ExprOk(c, e) && Arith(e)
    case Return(v) => v.Some? ==> ExprOk(c, v.value) && IsScalar(v.value) && Arith(v.value)
    case If(cond, t, f) =>
      && ExprOk(c, cond) && Condition(cond) && StmtOk(c, t, inLoop) && (f.Some? ==> StmtOk(c, f.value, inLoop))
    case While(cond, body) => ExprOk(c, cond) && Condition(cond) && StmtOk(c, body, true)
  }
}
