/** The Pinkie intermediate language: three-address code over named operands, and its machine. */
module Pinkie {
  import opened Words
  import opened Wrappers
  import opened Primitive
  import opened Layout

  datatype Operand = Lit(word: Word) | Temp(id: int) | Param(id: int) | Var(id: int)

  datatype Unit =
    | Unary(uop: UnaryOp, dst: Operand, src: Operand)
    | Binary(bop: BinaryOp, dst: Operand, src1: Operand, src2: Operand)
    | Copy(dst: Operand, src: Operand)
    | ArrayWrite(base: Operand, src: Operand, incr: Operand)
    | ArrayRead(dst: Operand, base: Operand, incr: Operand)
    | Label(id: int)
    | Jump(id: int)
    | JumpIf(bop: BinaryOp, id: int, src1: Operand, src2: Operand)
    | Arg(val: Operand)
    | CallI(name: string, dst: Operand)
    | CallV(name: string)
    | RetI(val: Operand)
    | RetV
    | Nop

  /** A declared symbol; `len` is 0 for a scalar and the size in bytes for an array. */
  datatype Symb = Symb(name: Operand, len: int)

  datatype Func = Func(name: string, arity: nat, decl: seq<Symb>, code: seq<Unit>)

  datatype Prog = Prog(labelCount: int, globals: seq<Symb>, funcs: seq<Func>)

  // ----- operand ranges -----

  /** `wops`: the operand in destination position. */
  function WOps(u: Unit): seq<Operand> {
    match u
    case Unary(_, dst, _) => [dst]
    case Binary(_, dst, _, _) => [dst]
    case Copy(dst, _) => [dst]
    case ArrayWrite(base, _, _) => [base]
    case ArrayRead(dst, _, _) => [dst]
    case CallI(_, dst) => [dst]
    case _ => []
  }

  /** The destination operands that `hrops` counts as read. */
  function HwOps(u: Unit): seq<Operand> {
    match u
    case ArrayWrite(base, _, _) => [base]
    case CallI(_, dst) => [dst]
    case _ => []
  }

  /** `rops`: the operands read; a conditional jump lists only its first. */
  function ROps(u: Unit): seq<Operand> {
    match u
    case Unary(_, _, src) => [src]
    case Copy(_, src) => [src]
    case JumpIf(_, _, src1, _) => [src1]
    case Arg(val) => [val]
    case RetI(val) => [val]
    case Binary(_, _, src1, src2) => [src1, src2]
    case ArrayWrite(_, src, incr) => [src, incr]
    case ArrayRead(_, base, incr) => [base, incr]
    case _ => []
  }

  function HrOps(u: Unit): seq<Operand> {
    HwOps(u) + ROps(u)
  }

  function Ops(u: Unit): seq<Operand> {
    WOps(u) + ROps(u)
  }

  /** `u` with the destination replaced by `w` and the operands read by `r1` and `r2`, each where it exists. */
  function WithOps(u: Unit, w: Operand, r1: Operand, r2: Operand): Unit {
    match u
    case Unary(op, _, _) => Unary(op, w, r1)
    case Copy(_, _) => Copy(w, r1)
    case JumpIf(op, l, _, src2) => JumpIf(op, l, r1, src2)
    case Arg(_) => Arg(r1)
    case RetI(_) => RetI(r1)
    case Binary(op, _, _, _) => Binary(op, w, r1, r2)
    case ArrayWrite(_, _, _) => ArrayWrite(w, r1, r2)
    case ArrayRead(_, _, _) => ArrayRead(w, r1, r2)
    case CallI(f, _) => CallI(f, w)
    case _ => u
  }

  function OpAt(s: seq<Operand>, i: nat): Operand {
    if i < |s| then s[i] else Lit(0)
  }

  /** `u` with `f` applied to the destination and `g` to the operands read. */
  function MapOps(u: Unit, f: Operand -> Operand, g: Operand -> Operand): Unit {
    WithOps(u, f(OpAt(WOps(u), 0)), g(OpAt(ROps(u), 0)), g(OpAt(ROps(u), 1)))
  }

  /** Every conditional jump compares with a literal, as the translation from Eeyore makes them;
      the operand ranges list only the other operand. */
  predicate JumpsCompareLiterals(code: seq<Unit>) {
    forall u :: u in code && u.JumpIf? ==> u.src2.Lit?
  }

  predicate IsCall(u: Unit) {
    u.CallI? || u.CallV?
  }

  /** Arguments are pushed right before their call, with nothing in between. */
  predicate ArgsContiguous(code: seq<Unit>) {
    forall i :: 0 <= i < |code| && code[i].Arg? ==> i + 1 < |code| && (code[i + 1].Arg? || IsCall(code[i + 1]))
  }

  // ----- the machine -----

  /** A call as its surroundings see it: the callee, the arguments, the globals and the arrays. */
  datatype Event = Call(name: string, args: seq<Word>, globals: map<Operand, Word>, mem: map<Word, Word>)

  /** What a call does: the value it returns, and the globals and arrays it leaves. */
  datatype Effect = Effect(ret: Word, globals: map<Operand, Word>, mem: map<Word, Word>)

  /** Where arrays live, which operands are global scalars, how many arguments each function takes,
      and an arbitrary meaning of calls in terms of everything observed so far. */
  datatype Context = Context(
    arrays: map<Operand, Word>,
    globals: set<Operand>,
    arity: string -> nat,
    world: seq<Event> -> Effect)

  datatype Status = Running | Returned(val: Option<Word>) | Stuck

  /** `env` holds the scalars written so far, `mem` the words of all reachable arrays,
      `args` the arguments pushed since the last call and `trace` the calls made. */
  datatype State = State(
    pc: nat,
    env: map<Operand, Word>,
    mem: map<Word, Word>,
    args: seq<Word>,
    trace: seq<Event>,
    status: Status)

  /** Only named variables are arrays or globals. */
  ghost predicate ContextOk(c: Context) {
    && (forall o :: o in c.arrays ==> o.Var?)
    && (forall o :: o in c.globals ==> o.Var? && o !in c.arrays)
  }

  /** The value of an operand: an array stands for its address; a scalar must have been written. */
  ghost function Value(c: Context, env: map<Operand, Word>, o: Operand): Option<Word> {
    if o.Lit? then Some(o.word)
    else if o in c.arrays then Some(c.arrays[o])
    else if o in env then Some(env[o])
    else None
  }

  ghost function Halt(s: State, status: Status): State {
    s.(status := status)
  }

  ghost function Next(s: State): State {
    s.(pc := s.pc + 1)
  }

  ghost predicate Assignable(c: Context, o: Operand) {
    !o.Lit? && o !in c.arrays
  }

  ghost function Assign(c: Context, s: State, dst: Operand, v: Option<Word>): State {
    if v.None? || !Assignable(c, dst) then Halt(s, Stuck)
    else Next(s.(env := s.env[dst := v.value]))
  }

  ghost function Goto(code: seq<Unit>, s: State, l: int): State {
    match IndexOf(code, Label(l))
    case None => Halt(s, Stuck)
    case Some(q) => s.(pc := q)
  }

  /** `m` with the values of `n` at the keys they share. */
  ghost function Overlay<K, V>(m: map<K, V>, n: map<K, V>): (r: map<K, V>)
    ensures r.Keys == m.Keys
  {
    map k | k in m :: if k in n then n[k] else m[k]
  }

  ghost function Restrict<K, V>(m: map<K, V>, ks: set<K>): map<K, V> {
    map k | k in m && k in ks :: m[k]
  }

  ghost function CallEvent(c: Context, s: State, name: string): Event {
    Call(name, s.args, Restrict(s.env, c.globals), s.mem)
  }

  /** The state after a call returns, before its value is stored. */
  ghost function AfterCall(c: Context, s: State, name: string): State {
    var trace := s.trace + [CallEvent(c, s, name)];
    var e := c.world(trace);
    s.(env := Overlay(s.env, Restrict(e.globals, c.globals)), mem := Overlay(s.mem, e.mem), args := [], trace := trace)
  }

  ghost function CallValue(c: Context, s: State, name: string): Word {
    c.world(s.trace + [CallEvent(c, s, name)]).ret
  }

  ghost function Address(base: Option<Word>, incr: Option<Word>): Option<Word> {
    if base.Some? && incr.Some? then Some(Wrap(base.value + incr.value)) else None
  }

  ghost function Load(mem: map<Word, Word>, addr: Option<Word>): Option<Word> {
    if addr.Some? && addr.value in mem then Some(mem[addr.value]) else None
  }

  ghost function Store(s: State, addr: Option<Word>, v: Option<Word>): State {
    if addr.None? || addr.value !in s.mem || v.None? then Halt(s, Stuck)
    else Next(s.(mem := s.mem[addr.value := v.value]))
  }

  ghost function ApplyUnary(op: UnaryOp, x: Option<Word>): Option<Word> {
    if x.Some? then Some(EvalUnary(op, x.value)) else None
  }

  ghost function ApplyBinary(op: BinaryOp, x: Option<Word>, y: Option<Word>): Option<Word> {
    if x.Some? && y.Some? then Some(EvalBinary(op, x.value, y.value)) else None
  }

  /** What one unit does to a running state. */
  ghost function Exec(code: seq<Unit>, c: Context, u: Unit, s: State): State {
    match u
    case Unary(op, dst, src) => Assign(c, s, dst, ApplyUnary(op, Value(c, s.env, src)))
    case Binary(op, dst, src1, src2) =>
      Assign(c, s, dst, ApplyBinary(op, Value(c, s.env, src1), Value(c, s.env, src2)))
    case Copy(dst, src) => Assign(c, s, dst, Value(c, s.env, src))
    case ArrayWrite(base, src, incr) =>
      Store(s, Address(Value(c, s.env, base), Value(c, s.env, incr)), Value(c, s.env, src))
    case ArrayRead(dst, base, incr) =>
      Assign(c, s, dst, Load(s.mem, Address(Value(c, s.env, base), Value(c, s.env, incr))))
    case Label(_) => Next(s)
    case Jump(l) => Goto(code, s, l)
    case JumpIf(op, l, src1, src2) =>
      (match ApplyBinary(op, Value(c, s.env, src1), Value(c, s.env, src2))
       case None => Halt(s, Stuck)
       case Some(v) => if v != 0 then Goto(code, s, l) else Next(s))
    case Arg(val) =>
      (match Value(c, s.env, val)
       case None => Halt(s, Stuck)
       case Some(v) => Next(s.(args := s.args + [v])))
    case CallI(name, dst) =>
      if |s.args| != c.arity(name) then Halt(s, Stuck)
      else Assign(c, AfterCall(c, s, name), dst, Some(CallValue(c, s, name)))
    case CallV(name) =>
      if |s.args| != c.arity(name) then Halt(s, Stuck) else Next(AfterCall(c, s, name))
    case RetI(val) =>
      (match Value(c, s.env, val)
       case None => Halt(s, Stuck)
       case Some(v) => Halt(s, Returned(Some(v))))
    case RetV => Halt(s, Returned(None))
    case Nop => Next(s)
  }

  /** One step; control that runs off the end returns without a value. */
  ghost function Step(code: seq<Unit>, c: Context, s: State): State {
    if s.status != Running then s
    else if s.pc < |code| then Exec(code, c, code[s.pc], s)
    else Halt(s, Returned(None))
  }

  ghost function Run(code: seq<Unit>, c: Context, s: State, n: nat): State {
    if n == 0 then s else Step(code, c, Run(code, c, s, n - 1))
  }

  lemma {:induction false} RunAdd(code: seq<Unit>, c: Context, s: State, m: nat, n: nat)
    ensures Run(code, c, s, m + n) == Run(code, c, Run(code, c, s, m), n)
    decreases n
  {
    hide Step;
    if n > 0 {
      RunAdd(code, c, s, m, n - 1);
      assert m + n - 1 == m + (n - 1);
    }
  }

  /** A stopped machine stays as it is. */
  lemma {:induction false} RunStopped(code: seq<Unit>, c: Context, s: State, m: nat, n: nat)
    requires m <= n && Run(code, c, s, m).status != Running
    ensures Run(code, c, s, n) == Run(code, c, s, m)
    decreases n - m
  {
    if m < n {
      RunStopped(code, c, s, m, n - 1);
    }
  }

  /** A machine that is not stuck was never stuck before. */
  lemma {:induction false} NeverStuck(code: seq<Unit>, c: Context, s: State, m: nat, n: nat)
    requires m <= n && Run(code, c, s, n).status != Stuck
    ensures Run(code, c, s, m).status != Stuck
  {
    if Run(code, c, s, m).status == Stuck {
      RunStopped(code, c, s, m, n);
    }
  }

  /** Units refer to the surrounding code only through its labels. */
  lemma ExecSameLabels(code: seq<Unit>, code': seq<Unit>, c: Context, u: Unit, s: State)
    requires forall l :: IndexOf(code, Label(l)) == IndexOf(code', Label(l))
    ensures Exec(code, c, u, s) == Exec(code', c, u, s)
  {
    hide Assign, Store, AfterCall;
  }

  /** A unit leaves alone every temporary it does not write. */
  lemma ExecFrame(code: seq<Unit>, c: Context, u: Unit, s: State, t: int)
    requires ContextOk(c) && Temp(t) !in WOps(u)
    ensures var e := Exec(code, c, u, s).env;
            (Temp(t) in e <==> Temp(t) in s.env) && (Temp(t) in e ==> e[Temp(t)] == s.env[Temp(t)])
  {
    hide EvalUnary, EvalBinary, Wrap, IndexOf;
  }

  /** What the outside can see of a state: how it ended, the calls made, the arrays and the named scalars. */
  datatype Observation = Observation(
    status: Status, trace: seq<Event>, mem: map<Word, Word>, vars: map<Operand, Word>)

  ghost function Observe(s: State): Observation {
    Observation(s.status, s.trace, s.mem, map o | o in s.env && !o.Temp? :: s.env[o])
  }

  /** A state at a function's entry: no temporary has been written yet. */
  ghost predicate Entry(s: State) {
    s.pc == 0 && s.status == Running && forall o :: o in s.env ==> !o.Temp?
  }
}
