/** The Dashie intermediate language: register code with a stack frame, and its machine. */
module Dashie {
  import opened Words
  import opened Wrappers
  import opened Primitive
  import opened Layout
  import Pinkie

  type Event = Pinkie.Event
  type Effect = Pinkie.Effect

  /** `konst`, `arg`, `temp` and `save` registers; the only constant register holds zero. */
  datatype Reg = Zero | Arg(id: int) | Temp(id: int) | Save(id: int)

  datatype Unit =
    | Rbr(bop: BinaryOp, dst: Reg, src1: Reg, src2: Reg)
    | Rbi(bop: BinaryOp, dst: Reg, src1: Reg, imm: Word)
    | Ur(uop: UnaryOp, dst: Reg, src: Reg)
    | Cr(dst: Reg, src: Reg)
    | Ci(dst: Reg, imm: Word)
    | Ar(dst: Reg, src: Reg, incr: Word)
    | Aw(base: Reg, incr: Word, src: Reg)
    | Jc(bop: BinaryOp, id: int, src1: Reg, src2: Reg)
    | Jmp(id: int)
    | Label(id: int)
    | Call(name: string)
    | Ret
    | Wstk(src: Reg, offset: int)
    | Rstk(dst: Reg, offset: int)
    | Rglo(dst: Reg, global: int)
    | PtrStk(dst: Reg, offset: int)
    | PtrGlo(dst: Reg, global: int)

  /** A global symbol: its number and its size in bytes, 0 for a scalar. */
  datatype Global = Global(id: int, length: int)

  datatype Function = Function(name: string, arity: nat, frame: int, code: seq<Unit>)

  datatype Program = Program(labelCount: int, globals: seq<Global>, funcs: seq<Function>)

  /** The register that carries argument `i` of a call. */
  function AbiArgument(i: nat): Reg {
    if i < 8 then Arg(i) else Temp(i - 8 + 3)
  }

  // ----- the machine -----

  /** The stack pointer, the address of every global, the cells of the global scalars and of the
      arrays, the arity and the meaning of calls, and what calls leave in caller-saved registers. */
  datatype Context = Context(
    sp: Word,
    globals: map<int, Word>,
    cells: map<Pinkie.Operand, Word>,
    owner: map<Word, Pinkie.Operand>,
    arity: string -> nat,
    world: seq<Event> -> Effect,
    clobber: (seq<Event>, Reg) -> Word)

  /** Each global scalar has one cell, and each such cell belongs to one global scalar. */
  ghost predicate ContextOk(c: Context) {
    && (forall o :: o in c.cells ==> c.cells[o] in c.owner && c.owner[c.cells[o]] == o)
    && (forall a :: a in c.owner ==> c.owner[a] in c.cells && c.cells[c.owner[a]] == a)
  }

  datatype Status = Running | Returned | Stuck

  /** `frame` holds the scalar slots by offset; `mem` holds all array words and global scalars. */
  datatype State = State(
    pc: nat,
    regs: map<Reg, Word>,
    frame: map<int, Word>,
    mem: map<Word, Word>,
    trace: seq<Event>,
    status: Status)

  ghost function Read(s: State, r: Reg): Option<Word> {
    if r == Zero then Some(0) else if r in s.regs then Some(s.regs[r]) else None
  }

  ghost function Halt(s: State, status: Status): State {
    s.(status := status)
  }

  ghost function Next(s: State): State {
    s.(pc := s.pc + 1)
  }

  /** Writing the zero register has no effect. */
  ghost function Write(s: State, r: Reg, v: Option<Word>): State {
    if v.None? then Halt(s, Stuck)
    else if r == Zero then Next(s)
    else Next(s.(regs := s.regs[r := v.value]))
  }

  ghost function Goto(code: seq<Unit>, s: State, l: int): State {
    match IndexOf(code, Label(l))
    case None => Halt(s, Stuck)
    case Some(q) => s.(pc := q)
  }

  // ----- calls -----

  ghost predicate ArgsReadable(s: State, n: nat) {
    forall i :: 0 <= i < n ==> Read(s, AbiArgument(i)).Some?
  }

  ghost function CallArgs(s: State, n: nat): seq<Word>
    requires ArgsReadable(s, n)
  {
    seq(n, i requires 0 <= i < n => Read(s, AbiArgument(i)).value)
  }

  ghost function GlobalsView(c: Context, mem: map<Word, Word>): map<Pinkie.Operand, Word> {
    map o | o in c.cells && c.cells[o] in mem :: mem[c.cells[o]]
  }

  ghost function ArraysView(c: Context, mem: map<Word, Word>): map<Word, Word> {
    map a | a in mem && a !in c.owner :: mem[a]
  }

  ghost function CallEvent(c: Context, s: State, name: string): Event
    requires ArgsReadable(s, c.arity(name))
  {
    Pinkie.Call(name, CallArgs(s, c.arity(name)), GlobalsView(c, s.mem), ArraysView(c, s.mem))
  }

  ghost function MemAfter(c: Context, mem: map<Word, Word>, e: Effect): map<Word, Word> {
    map a | a in mem ::
      if a in c.owner then (if c.owner[a] in e.globals then e.globals[c.owner[a]] else mem[a])
      else if a in e.mem then e.mem[a] else mem[a]
  }

  /** Callee-saved registers survive a call; the first argument register holds the result. */
  ghost function RegsAfter(c: Context, s: State, trace: seq<Event>): map<Reg, Word> {
    (map r | r in s.regs :: if r.Save? then s.regs[r] else c.clobber(trace, r))[Arg(0) := c.world(trace).ret]
  }

  ghost function ExecCall(c: Context, s: State, name: string): State {
    if !ArgsReadable(s, c.arity(name)) then Halt(s, Stuck)
    else
      var trace := s.trace + [CallEvent(c, s, name)];
      Next(s.(regs := RegsAfter(c, s, trace), mem := MemAfter(c, s.mem, c.world(trace)), trace := trace))
  }

  // ----- steps -----

  ghost function ApplyUnary(op: UnaryOp, x: Option<Word>): Option<Word> {
    if x.Some? then Some(EvalUnary(op, x.value)) else None
  }

  ghost function ApplyBinary(op: BinaryOp, x: Option<Word>, y: Option<Word>): Option<Word> {
    if x.Some? && y.Some? then Some(EvalBinary(op, x.value, y.value)) else None
  }

  ghost function Load<K>(m: map<K, Word>, k: Option<K>): Option<Word> {
    if k.Some? && k.value in m then Some(m[k.value]) else None
  }

  ghost function Offset(base: Option<Word>, incr: Word): Option<Word> {
    if base.Some? then Some(Wrap(base.value + incr)) else None
  }

  ghost function GlobalAddress(c: Context, g: int): Option<Word> {
    if g in c.globals then Some(c.globals[g]) else None
  }

  ghost function Exec(code: seq<Unit>, c: Context, u: Unit, s: State): State {
    match u
    case Rbr(op, dst, src1, src2) => Write(s, dst, ApplyBinary(op, Read(s, src1), Read(s, src2)))
    case Rbi(op, dst, src1, imm) => Write(s, dst, ApplyBinary(op, Read(s, src1), Some(imm)))
    case Ur(op, dst, src) => Write(s, dst, ApplyUnary(op, Read(s, src)))
    case Cr(dst, src) => Write(s, dst, Read(s, src))
    case Ci(dst, imm) => Write(s, dst, Some(imm))
    case Ar(dst, src, incr) => Write(s, dst, Load(s.mem, Offset(Read(s, src), incr)))
    case Aw(base, incr, src) =>
      var a, v := Offset(Read(s, base), incr), Read(s, src);
      if a.None? || a.value !in s.mem || v.None? then Halt(s, Stuck)
      else Next(s.(mem := s.mem[a.value := v.value]))
    case Jc(op, l, src1, src2) =>
      (match ApplyBinary(op, Read(s, src1), Read(s, src2))
       case None => Halt(s, Stuck)
       case Some(v) => if v != 0 then Goto(code, s, l) else Next(s))
    case Jmp(l) => Goto(code, s, l)
    case Label(_) => Next(s)
    case Call(name) => ExecCall(c, s, name)
    case Ret => Halt(s, Returned)
    case Wstk(src, off) =>
      if off !in s.frame || Read(s, src).None? then Halt(s, Stuck)
      else Next(s.(frame := s.frame[off := Read(s, src).value]))
    case Rstk(dst, off) => Write(s, dst, Load(s.frame, Some(off)))
    case Rglo(dst, g) => Write(s, dst, Load(s.mem, GlobalAddress(c, g)))
    case PtrStk(dst, off) => Write(s, dst, Some(Wrap(c.sp + off)))
    case PtrGlo(dst, g) => Write(s, dst, GlobalAddress(c, g))
  }

  ghost function Step(code: seq<Unit>, c: Context, s: State): State {
    if s.status != Running then s
    else if s.pc < |code| then Exec(code, c, code[s.pc], s)
    else Halt(s, Stuck)
  }

  ghost function Run(code: seq<Unit>, c: Context, s: State, n: nat): State {
    if n == 0 then s else Step(code, c, Run(code, c, s, n - 1))
  }

  lemma {:induction false} RunAdd(code: seq<Unit>, c: Context, s: State, m: nat, n: nat)
    ensures Run(code, c, s, m + n) == Run(code, c, Run(code, c, s, m), n)
    decreases n
  {
    hide Step;
    if n > 0 {
      RunAdd(code, c, s, m, n - 1);
      assert m + n - 1 == m + (n - 1);
    }
  }

  lemma {:induction false} RunStopped(code: seq<Unit>, c: Context, s: State, m: nat, n: nat)
    requires m <= n && Run(code, c, s, m).status != Running
    ensures Run(code, c, s, n) == Run(code, c, s, m)
    decreases n - m
  {
    hide Exec;
    if m < n {
      RunStopped(code, c, s, m, n - 1);
    }
  }

  lemma {:induction false} NeverStuck(code: seq<Unit>, c: Context, s: State, m: nat, n: nat)
    requires m <= n && Run(code, c, s, n).status != Stuck
    ensures Run(code, c, s, m).status != Stuck
  {
    hide Step;
    if Run(code, c, s, m).status == Stuck {
      RunStopped(code, c, s, m, n);
    }
  }

  lemma OneMore(code: seq<Unit>, c: Context, s: State, n: nat, u: Unit)
    requires Run(code, c, s, n).status == Running
    requires Run(code, c, s, n).pc < |code| && code[Run(code, c, s, n).pc] == u
    ensures Run(code, c, s, n + 1) == Exec(code, c, u, Run(code, c, s, n))
  {
    hide Exec;
  }

  /** Units refer to the surrounding code only through its labels. */
  lemma ExecSameLabels(code: seq<Unit>, code': seq<Unit>, c: Context, u: Unit, s: State)
    requires !u.Jmp? && !u.Jc?
    ensures Exec(code, c, u, s) == Exec(code', c, u, s)
  {
    hide ExecCall, Write;
  }

  // ----- the destination of a unit -----

  function Destination(u: Unit): Option<Reg> {
    match u
    case Rbr(_, dst, _, _) => Some(dst)
    case Rbi(_, dst, _, _) => Some(dst)
    case Ur(_, dst, _) => Some(dst)
    case Cr(dst, _) => Some(dst)
    case Ci(dst, _) => Some(dst)
    case Ar(dst, _, _) => Some(dst)
    case Rstk(dst, _) => Some(dst)
    case Rglo(dst, _) => Some(dst)
    case PtrStk(dst, _) => Some(dst)
    case PtrGlo(dst, _) => Some(dst)
    case _ => None
  }

  /** What a unit that computes into a register writes there. */
  ghost function Computed(c: Context, u: Unit, s: State): Option<Word>
    requires Destination(u).Some?
  {
    match u
    case Rbr(op, _, src1, src2) => ApplyBinary(op, Read(s, src1), Read(s, src2))
    case Rbi(op, _, src1, imm) => ApplyBinary(op, Read(s, src1), Some(imm))
    case Ur(op, _, src) => ApplyUnary(op, Read(s, src))
    case Cr(_, src) => Read(s, src)
    case Ci(_, imm) => Some(imm)
    case Ar(_, src, incr) => Load(s.mem, Offset(Read(s, src), incr))
    case Rstk(_, off) => Load(s.frame, Some(off))
    case Rglo(_, g) => Load(s.mem, GlobalAddress(c, g))
    case PtrStk(_, off) => Some(Wrap(c.sp + off))
    case PtrGlo(_, g) => GlobalAddress(c, g)
  }

  lemma ComputedMeans(code: seq<Unit>, c: Context, u: Unit, s: State)
    requires Destination(u).Some?
    ensures Exec(code, c, u, s) == Write(s, Destination(u).value, Computed(c, u, s))
  {
    hide Write, Read, ApplyBinary, ApplyUnary, Load, Offset, GlobalAddress, Wrap;
  }
}
