/** Code generation: structured statements to flat three-address code with labels.
    Units are written as the Eeyore statements that the compiler emits, each standing for the Pinkie
    unit that the translation from Eeyore makes of it. */
module GenEeyore {
  import opened Words
  import opened Wrappers
  import opened Primitive
  import opened Layout
  import opened SemanticTypes
  import opened Pinkie
  import opened Ast

  // ----- Eeyore statements, translated -----

  function ExprU(dst: Operand, op: UnaryOp, src: Operand): Unit { Unary(op, dst, src) }

  function ExprB(dst: Operand, op: BinaryOp, src1: Operand, src2: Operand): Unit { Binary(op, dst, src1, src2) }

  function ExprC(dst: Operand, src: Operand): Unit { Copy(dst, src) }

  function ExprAW(base: Operand, incr: Operand, src: Operand): Unit { ArrayWrite(base, src, incr) }

  function ExprAR(dst: Operand, base: Operand, incr: Operand): Unit { ArrayRead(dst, base, incr) }

  /** Jump when the operand is zero. */
  function JumpC(tgt: int, cnd: Operand): Unit { JumpIf(EQ, tgt, cnd, Lit(0)) }

  function JumpU(tgt: int): Unit { Jump(tgt) }

  // ----- expressions -----

  /** Generated code, the operand that holds its result, and the next free temporary and label. */
  datatype Gen = Gen(code: seq<Unit>, result: Operand, temps: int, labels: int)

  datatype GenArgs = GenArgs(code: seq<Unit>, ops: seq<Operand>, temps: int, labels: int)

  /** The byte stride that scales a subscript. */
  function ByteStride(arr: Expr): Operand {
    var offsets := ExprType(arr).offsets;
    Lit(Wrap(4 * if |offsets| > 0 then offsets[0] else 0))
  }

  function Params(ops: seq<Operand>): (r: seq<Unit>)
    ensures |r| == |ops| && forall i :: 0 <= i < |r| ==> r[i] == Arg(ops[i])
  {
    seq(|ops|, i requires 0 <= i < |ops| => Arg(ops[i]))
  }

  function GenExpr(e: Expr, t: int, l: int): Gen
    decreases e, 1
  {
    match e
    case Symbol(op, _) => Gen([], op, t, l)
    case Literal(v) => Gen([ExprC(Temp(t), Lit(v))], Temp(t), t + 1, l)
    case UnaryExpr(UPlus, ch) => GenExpr(ch, t, l)
    case UnaryExpr(op, ch) =>
      var g := GenExpr(ch, t, l);
      Gen(g.code + [ExprU(Temp(g.temps), op, g.result)], Temp(g.temps), g.temps + 1, g.labels)
    case BinaryExpr(op, ch0, ch1) =>
      var g0 := GenExpr(ch0, t, l);
      var g1 := GenExpr(ch1, g0.temps, g0.labels);
      var temp := Temp(g1.temps);
      var mid, end := g1.labels, g1.labels + 1;
      if op == And then
        Gen(g0.code + [JumpC(mid, g0.result)] + g1.code
            + [ExprC(temp, g1.result), JumpU(end), Label(mid), ExprC(temp, Lit(0)), Label(end)],
            temp, g1.temps + 1, g1.labels + 2)
      else if op == Or then
        Gen(g0.code + [JumpC(mid, g0.result), ExprC(temp, Lit(1)), JumpU(end), Label(mid)] + g1.code
            + [ExprC(temp, g1.result), Label(end)],
            temp, g1.temps + 1, g1.labels + 2)
      else
        Gen(g0.code + g1.code + [ExprB(temp, op, g0.result, g1.result)], temp, g1.temps + 1, g1.labels)
    case OffsetExpr(arr, off) =>
      var g0 := GenExpr(arr, t, l);
      var g1 := GenExpr(off, g0.temps, g0.labels);
      var disp, temp := Temp(g1.temps), Temp(g1.temps + 1);
      var scale := ExprB(disp, Mult, g1.result, ByteStride(arr));
      var use := if !IsScalar(e) then ExprB(temp, Plus, g0.result, disp) else ExprAR(temp, g0.result, disp);
      Gen(g0.code + g1.code + [scale, use], temp, g1.temps + 2, g1.labels)
    case CallExpr(kind, name, args) =>
      var a := GenArguments(args, t, l);
      match kind
      case MacroCall(line) =>
        Gen(a.code + Params(a.ops) + [Arg(Lit(line)), CallV(MACRO_PREFIX + name)], Temp(-1), a.temps, a.labels)
      case IntCall =>
        Gen(a.code + Params(a.ops) + [CallI(name, Temp(a.temps))], Temp(a.temps), a.temps + 1, a.labels)
      case VoidCall =>
        Gen(a.code + Params(a.ops) + [CallV(name)], Temp(-1), a.temps, a.labels)
  }

  /** An argument as a value of its own. */
  function Copied(g: Gen): Gen {
    if g.result.Temp? then g else Gen(g.code + [ExprC(Temp(g.temps), g.result)], Temp(g.temps), g.temps + 1, g.labels)
  }

  /** The code of one argument. */
  function ArgGen(e: Expr, t: int, l: int): Gen {
    Copied(GenExpr(e, t, l))
  }

  /** Evaluates the arguments in turn, copying into a temporary whatever is not one already. */
  function GenArguments(args: seq<Expr>, t: int, l: int): GenArgs
    decreases args, 0
  {
    if args == [] then GenArgs([], [], t, l)
    else
      var h := Copied(GenExpr(args[0], t, l));
      var rest := GenArguments(args[1..], h.temps, h.labels);
      GenArgs(h.code + rest.code, [h.result] + rest.ops, rest.temps, rest.labels)
  }

  // ----- statements -----

  /** Generated code, the symbols it declares, and the next free temporary and label. */
  datatype GenS = GenS(code: seq<Unit>, decs: seq<Symb>, temps: int, labels: int)

  function GenInit(op: Operand, length: int, init: seq<Alignment>, t: int, l: int): GenS {
    if init == [] then GenS([], [], t, l)
    else
      var g := GenExpr(init[0].exp, t, l);
      var put :=
        if length > 0 then ExprAW(op, Lit(Wrap(init[0].offset * 4)), g.result) else ExprC(op, g.result);
      var rest := GenInit(op, length, init[1..], g.temps, g.labels);
      GenS(g.code + [put] + rest.code, [], rest.temps, rest.labels)
  }

  /** `declaration_cast`: arrays are declared with their size in bytes. */
  function DeclarationCast(op: Operand, length: int): Symb {
    if length > 0 then Symb(op, length * 4) else Symb(op, 0)
  }

  function LabelOr0(l: Option<int>): int {
    if l.Some? then l.value else 0
  }

  function GenStmt(s: Stmt, t: int, l: int, cont: Option<int>, brk: Option<int>): GenS
    decreases s, 1
  {
    match s
    case Empty => GenS([], [], t, l)
    case Break => GenS([JumpU(LabelOr0(brk))], [], t, l)
    case Continue => GenS([JumpU(LabelOr0(cont))], [], t, l)
    case Block(items) => GenBlock(items, t, l, cont, brk)
    case Declare(op, length, init) =>
      GenInit(op, length, init, t, l).(decs := [DeclarationCast(op, length)])
    case AssignStmt(lhs, rhs) =>
      var g := GenExpr(rhs, t, l);
      (match lhs
       case OffsetExpr(arr, off) =>
         var g0 := GenExpr(arr, g.temps, g.labels);
         var g1 := GenExpr(off, g0.temps, g0.labels);
         var disp := Temp(g1.temps);
         GenS(g.code + g0.code + g1.code
              + [ExprB(disp, Mult, g1.result, ByteStride(arr)), ExprAW(g0.result, disp, g.result)],
              [], g1.temps + 1, g1.labels)
       case _ =>
         var g0 := GenExpr(lhs, g.temps, g.labels);
         GenS(g.code + [ExprC(g0.result, g.result)], [], g0.temps, g0.labels))
    case ExprStmt(e) =>
      var g := GenExpr(e, t, l);
      GenS(g.code, [], g.temps, g.labels)
    case Return(None) => GenS([RetV], [], t, l)
    case Return(Some(e)) =>
      var g := GenExpr(e, t, l);
      GenS(g.code + [RetI(g.result)], [], g.temps, g.labels)
    case If(cond, thenClause, elseClause) =>
      var g := GenExpr(cond, t, l);
      var g0 := GenStmt(thenClause, g.temps, g.labels, cont, brk);
      if elseClause.Some? then
        var g1 := GenStmt(elseClause.value, g0.temps, g0.labels, cont, brk);
        var els, end := g1.labels, g1.labels + 1;
        GenS(g.code + [JumpC(els, g.result)] + g0.code + [JumpU(end), Label(els)] + g1.code + [Label(end)],
             g0.decs + g1.decs, g1.temps, g1.labels + 2)
      else
        GenS(g.code + [JumpC(g0.labels, g.result)] + g0.code + [Label(g0.labels)],
             g0.decs, g0.temps, g0.labels + 1)
    case While(cond, body) =>
      var g := GenExpr(cond, t, l);
      var start, end := g.labels, g.labels + 1;
      var g0 := GenStmt(body, g.temps, g.labels + 2, Some(start), Some(end));
      GenS([Label(start)] + g.code + [JumpC(end, g.result)] + g0.code + [JumpU(start), Label(end)],
           g0.decs, g0.temps, g0.labels)
  }

  function GenBlock(items: seq<Stmt>, t: int, l: int, cont: Option<int>, brk: Option<int>): GenS
    decreases items, 0
  {
    if items == [] then GenS([], [], t, l)
    else
      var g := GenStmt(items[0], t, l, cont, brk);
      var rest := GenBlock(items[1..], g.temps, g.labels, cont, brk);
      GenS(g.code + rest.code, g.decs + rest.decs, rest.temps, rest.labels)
  }

  // ----- functions -----

  /** A source function: whether it returns nothing, its parameter count and its body. */
  datatype Function = Function(isVoid: bool, name: string, params: nat, body: Stmt)

  const INITIALIZER := "__initializer__SysY"

  /** The body with the call to the global initialiser in front of `main`, and a return of 0 at the
      end of a function that returns nothing. */
  function FunctionCode(f: Function, body: seq<Unit>): seq<Unit> {
    (if f.name == "main" then [CallV(INITIALIZER)] else [])
    + body + (if f.isVoid then [RetI(Lit(0))] else [])
  }

  /** The destination of a unit that computes into one; array writes have none. */
  function Destination(u: Unit): Option<Operand> {
    match u
    case Unary(_, dst, _) => Some(dst)
    case Binary(_, dst, _, _) => Some(dst)
    case Copy(dst, _) => Some(dst)
    case ArrayRead(dst, _, _) => Some(dst)
    case CallI(_, dst) => Some(dst)
    case _ => None
  }

  /** The declarations that `pretty_function` adds: each temporary written, at its first write. */
  function TempDecs(code: seq<Unit>): seq<Symb> {
    if code == [] then []
    else
      var before := TempDecs(code[..|code| - 1]);
      var dst := Destination(code[|code| - 1]);
      if dst.Some? && dst.value.Temp? && Symb(dst.value, 0) !in before
      then before + [Symb(dst.value, 0)]
      else before
  }

  method PrettyFunction(name: string, arity: nat, dec0: seq<Symb>, code: seq<Unit>) returns (f: Func)
    ensures f == Func(name, arity, dec0 + TempDecs(code), code)
  {
    var uniq: set<int> := {};
    var vcode := [];
    var dec := dec0;
    for i := 0 to |code|
      invariant vcode == code[..i]
      invariant dec == dec0 + TempDecs(code[..i])
      invariant forall t :: t in uniq <==> Symb(Temp(t), 0) in TempDecs(code[..i])
    {
      assert code[..i + 1][..i] == code[..i];
      vcode := vcode + [code[i]];
      var dst := Destination(code[i]);
      if dst.Some? && dst.value.Temp? && dst.value.id !in uniq {
        uniq := uniq + {dst.value.id};
        dec := dec + [Symb(dst.value, 0)];
      }
    }
    assert code[..|code|] == code;
    f := Func(name, arity, dec, vcode);
  }

  /** Unit `k` is the first that assigns the declared symbol. */
  predicate FirstAt(code: seq<Unit>, k: nat, d: Symb) {
    && k < |code| && Destination(code[k]) == Some(d.name)
    && forall m :: 0 <= m < k ==> Destination(code[m]) != Some(d.name)
  }

  ghost predicate InOrder(code: seq<Unit>, decs: seq<Symb>) {
    forall i, j, k: nat, m: nat ::
      0 <= i < j < |decs| && FirstAt(code, k, decs[i]) && FirstAt(code, m, decs[j]) ==> k < m
  }

  /** Every temporary written is declared, none twice, nothing else is, and the declarations come in the
      order of first assignment. */
  lemma {:induction false} TempDecsExact(code: seq<Unit>)
    ensures forall i :: 0 <= i < |code| && Destination(code[i]).Some? && Destination(code[i]).value.Temp? ==>
              Symb(Destination(code[i]).value, 0) in TempDecs(code)
    ensures forall i, j :: 0 <= i < j < |TempDecs(code)| ==> TempDecs(code)[i] != TempDecs(code)[j]
    ensures forall d :: d in TempDecs(code) ==>
              d.name.Temp? && d.len == 0 && exists u :: u in code && Destination(u) == Some(d.name)
    ensures InOrder(code, TempDecs(code))
  {
    if code != [] {
      var n := |code| - 1;
      TempDecsExact(code[..n]);
      assert code == code[..n] + [code[n]];
      forall i, j, k: nat, m: nat
        | 0 <= i < j < |TempDecs(code)| && FirstAt(code, k, TempDecs(code)[i]) && FirstAt(code, m, TempDecs(code)[j])
        ensures k < m
      {
        OneLater(code, i, j, k, m);
      }
    }
  }

  /** The order of two declarations, given that of all earlier ones. */
  lemma OneLater(code: seq<Unit>, i: nat, j: nat, k: nat, m: nat)
    requires code != [] && i < j < |TempDecs(code)|
    requires var code0 := code[..|code| - 1];
             && (forall d :: d in TempDecs(code0) ==> exists u :: u in code0 && Destination(u) == Some(d.name))
             && InOrder(code0, TempDecs(code0))
    requires FirstAt(code, k, TempDecs(code)[i]) && FirstAt(code, m, TempDecs(code)[j])
    ensures k < m
  {
    var n := |code| - 1;
    var before := TempDecs(code[..n]);
    FirstEarlier(code, k, before[i]);
    if j < |before| {
      FirstEarlier(code, m, before[j]);
    } else if m < n {
      DeclaredEarlier(code[..n], m);
    }
  }

  lemma FirstEarlier(code: seq<Unit>, k: nat, d: Symb)
    requires code != [] && FirstAt(code, k, d)
    requires exists u :: u in code[..|code| - 1] && Destination(u) == Some(d.name)
    ensures FirstAt(code[..|code| - 1], k, d)
  {
    var u :| u in code[..|code| - 1] && Destination(u) == Some(d.name);
    var m :| 0 <= m < |code| - 1 && code[m] == u;
  }

  lemma {:induction false} DeclaredEarlier(code: seq<Unit>, m: nat)
    requires m < |code| && Destination(code[m]).Some? && Destination(code[m]).value.Temp?
    ensures Symb(Destination(code[m]).value, 0) in TempDecs(code)
  {
    if m < |code| - 1 {
      DeclaredEarlier(code[..|code| - 1], m);
    }
  }

  /** One function, with the counters before and after. */
  function GenFunction(f: Function, t: int, l: int): Func {
    var g := GenStmt(f.body, t, l, None, None);
    var code := FunctionCode(f, g.code);
    Func(f.name, f.params, g.decs + TempDecs(code), code)
  }
}
