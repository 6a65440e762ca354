/** RV32 instructions as the compiler emits them, with the pseudo-register that stands for an
    immediate operand, and their machine. */
module Glimmy {
  import opened Words
  import opened Wrappers
  import opened Primitive
  import opened Layout
  import D = Dashie

  datatype Reg = X0 | S(id: int) | T(id: int) | A(id: int) | Sp | Ra | Imm

  datatype RRR = Add | Sub | Mul | DivOp | Rem | Slt | Sgt | Xor

  datatype RRI = Addi | Slti | Sw | Lw

  datatype RR = Mv | Neg | Seqz | Snez

  datatype Branch = Blt | Bgt | Ble | Bge | Bne | Beq

  /** `Rrr` carries an immediate for the case that its last register is `Imm`. `Rri(Sw, base, src, imm)`
      stores `src` at `base + imm`. */
  datatype Unit =
    | Rrr(rrr: RRR, reg1: Reg, reg2: Reg, reg3: Reg, imm: int)
    | Rri(rri: RRI, reg1: Reg, reg2: Reg, imm: int)
    | Li(reg1: Reg, imm: int)
    | Rr(rr: RR, reg1: Reg, reg2: Reg)
    | Br(branch: Branch, reg1: Reg, reg2: Reg, id: int)
    | J(id: int)
    | Label(id: int)
    | Call(name: string)
    | Ret
    | La(reg1: Reg, global: int)

  predicate IsInt12(x: int) {
    -0x800 <= x < 0x800
  }

  // ----- instruction meanings -----

  function Unsigned(x: Word): int {
    if x < 0 then x + 0x1_0000_0000 else x
  }

  /** Exclusive or of the lowest `n` bits of two naturals. */
  function XorBits(x: nat, y: nat, n: nat): nat {
    if n == 0 then 0 else 2 * XorBits(x / 2, y / 2, n - 1) + if x % 2 == y % 2 then 0 else 1
  }

  function Power2(n: nat): (p: nat)
    ensures p > 0
  {
    if n == 0 then 1 else 2 * Power2(n - 1)
  }

  lemma {:induction false} XorBitsZero(x: nat, y: nat, n: nat)
    requires x < Power2(n) && y < Power2(n)
    ensures XorBits(x, y, n) == 0 <==> x == y
    ensures XorBits(x, y, n) < Power2(n)
    decreases n
  {
    if n > 0 {
      XorBitsZero(x / 2, y / 2, n - 1);
    }
  }

  function XorWord(x: Word, y: Word): Word {
    Wrap(XorBits(Unsigned(x), Unsigned(y), 32))
  }

  lemma {:induction false} Power2Sum(m: nat, n: nat)
    ensures Power2(m + n) == Power2(m) * Power2(n)
    decreases n
  {
    if n > 0 {
      Power2Sum(m, n - 1);
      assert Power2(m) * (2 * Power2(n - 1)) == 2 * (Power2(m) * Power2(n - 1));
    }
  }

  lemma Power2Word()
    ensures Power2(32) == 0x1_0000_0000
  {
    assert Power2(4) == 16;
    Power2Sum(4, 4);
    Power2Sum(8, 8);
    Power2Sum(16, 16);
  }

  /** The exclusive or of two words is zero exactly when they are equal. */
  lemma XorZero(x: Word, y: Word)
    ensures XorWord(x, y) == 0 <==> x == y
  {
    Power2Word();
    XorBitsZero(Unsigned(x), Unsigned(y), 32);
  }

  function EvalRRR(op: RRR, x: Word, y: Word): Word {
    match op
    case Add => Wrap(x + y)
    case Sub => Wrap(x - y)
    case Mul => Wrap(x * y)
    case DivOp => if y == 0 then -1 else Wrap(TruncDiv(x, y))
    case Rem => if y == 0 then x else Wrap(TruncMod(x, y))
    case Slt => Bit(x < y)
    case Sgt => Bit(x > y)
    case Xor => XorWord(x, y)
  }

  function EvalRR(op: RR, x: Word): Word {
    match op
    case Mv => x
    case Neg => Wrap(0 - x)
    case Seqz => Bit(x == 0)
    case Snez => Bit(x != 0)
  }

  predicate EvalBranch(op: Branch, x: Word, y: Word) {
    match op
    case Blt => x < y
    case Bgt => x > y
    case Ble => x <= y
    case Bge => x >= y
    case Bne => x != y
    case Beq => x == y
  }

  // ----- the machine -----

  type Event = D.Event

  /** What calls mean is shared with the Dashie machine; `data` holds the addresses of all global
      scalars and array words, the part of memory a callee may see. */
  datatype Context = Context(dash: D.Context, data: set<Word>, clobber: (seq<Event>, Reg) -> Word)

  datatype Status = Running | Returned | Stuck

  /** `mem` maps word addresses to words: the stack, the globals and all arrays. */
  datatype State = State(pc: nat, regs: map<Reg, Word>, mem: map<Word, Word>, trace: seq<Event>, status: Status)

  ghost function Read(s: State, r: Reg): Option<Word> {
    if r == X0 then Some(0) else if r in s.regs then Some(s.regs[r]) else None
  }

  ghost function Halt(s: State, status: Status): State {
    s.(status := status)
  }

  ghost function Next(s: State): State {
    s.(pc := s.pc + 1)
  }

  ghost function Write(s: State, r: Reg, v: Option<Word>): State {
    if v.None? then Halt(s, Stuck)
    else if r == X0 then Next(s)
    else Next(s.(regs := s.regs[r := v.value]))
  }

  ghost function Goto(code: seq<Unit>, s: State, l: int): State {
    match IndexOf(code, Label(l))
    case None => Halt(s, Stuck)
    case Some(q) => s.(pc := q)
  }

  ghost function Address(base: Option<Word>, imm: int): Option<Word> {
    if base.Some? then Some(Wrap(base.value + imm)) else None
  }

  ghost function LoadWord(s: State, a: Option<Word>): Option<Word> {
    if a.Some? && a.value in s.mem then Some(s.mem[a.value]) else None
  }

  ghost function StoreWord(s: State, a: Option<Word>, v: Option<Word>): State {
    if a.None? || a.value !in s.mem || v.None? then Halt(s, Stuck)
    else Next(s.(mem := s.mem[a.value := v.value]))
  }

  /** The last operand of a three-register instruction, or the immediate in its place. */
  ghost function Third(s: State, r: Reg, imm: int): Option<Word> {
    if r == Imm then Some(Wrap(imm)) else Read(s, r)
  }

  ghost function ApplyRRR(op: RRR, x: Option<Word>, y: Option<Word>): Option<Word> {
    if x.Some? && y.Some? then Some(EvalRRR(op, x.value, y.value)) else None
  }

  // ----- calls -----

  /** The machine register that carries argument `i`. */
  function AbiArgument(i: nat): Reg {
    if i < 8 then A(i) else T(i - 8 + 3)
  }

  ghost predicate ArgsReadable(s: State, n: nat) {
    forall i :: 0 <= i < n ==> Read(s, AbiArgument(i)).Some?
  }

  ghost function CallArgs(s: State, n: nat): seq<Word>
    requires ArgsReadable(s, n)
  {
    seq(n, i requires 0 <= i < n => Read(s, AbiArgument(i)).value)
  }

  ghost function Data(c: Context, mem: map<Word, Word>): map<Word, Word> {
    map a | a in mem && a in c.data :: mem[a]
  }

  ghost function CallEvent(c: Context, s: State, name: string): Event
    requires ArgsReadable(s, c.dash.arity(name))
  {
    D.Pinkie.Call(
      name, CallArgs(s, c.dash.arity(name)), D.GlobalsView(c.dash, Data(c, s.mem)), D.ArraysView(c.dash, Data(c, s.mem)))
  }

  ghost function Overwrite(mem: map<Word, Word>, data: map<Word, Word>): map<Word, Word> {
    map a | a in mem :: if a in data then data[a] else mem[a]
  }

  /** `sp` and the callee-saved registers survive a call, `ra` does not. */
  predicate Preserved(r: Reg) {
    r.S? || r.Sp?
  }

  ghost function RegsAfter(c: Context, s: State, trace: seq<Event>): map<Reg, Word> {
    (map r | r in s.regs :: if Preserved(r) then s.regs[r] else c.clobber(trace, r))[A(0) := c.dash.world(trace).ret]
  }

  ghost function ExecCall(c: Context, s: State, name: string): State {
    if !ArgsReadable(s, c.dash.arity(name)) then Halt(s, Stuck)
    else
      var trace := s.trace + [CallEvent(c, s, name)];
      Next(s.(
        regs := RegsAfter(c, s, trace),
        mem := Overwrite(s.mem, D.MemAfter(c.dash, Data(c, s.mem), c.dash.world(trace))),
        trace := trace))
  }

  // ----- steps -----

  ghost function Exec(code: seq<Unit>, c: Context, u: Unit, s: State): State {
    match u
    case Rrr(op, r1, r2, r3, imm) => Write(s, r1, ApplyRRR(op, Read(s, r2), Third(s, r3, imm)))
    case Rri(op, r1, r2, imm) =>
      (match op
       case Addi => Write(s, r1, ApplyRRR(Add, Read(s, r2), Some(Wrap(imm))))
       case Slti => Write(s, r1, ApplyRRR(Slt, Read(s, r2), Some(Wrap(imm))))
       case Lw => Write(s, r1, LoadWord(s, Address(Read(s, r2), imm)))
       case Sw => StoreWord(s, Address(Read(s, r1), imm), Read(s, r2)))
    case Li(r1, imm) => Write(s, r1, Some(Wrap(imm)))
    case Rr(op, r1, r2) => Write(s, r1, if Read(s, r2).Some? then Some(EvalRR(op, Read(s, r2).value)) else None)
    case Br(op, r1, r2, l) =>
      var x, y := Read(s, r1), Read(s, r2);
      if x.None? || y.None? then Halt(s, Stuck)
      else if EvalBranch(op, x.value, y.value) then Goto(code, s, l)
      else Next(s)
    case J(l) => Goto(code, s, l)
    case Label(_) => Next(s)
    case Call(name) => ExecCall(c, s, name)
    case Ret => Halt(s, Returned)
    case La(r1, g) => Write(s, r1, D.GlobalAddress(c.dash, g))
  }

  ghost function Step(code: seq<Unit>, c: Context, s: State): State {
    if s.status != Running then s
    else if s.pc < |code| then Exec(code, c, code[s.pc], s)
    else Halt(s, Stuck)
  }

  ghost function Run(code: seq<Unit>, c: Context, s: State, n: nat): State {
    if n == 0 then s else Step(code, c, Run(code, c, s, n - 1))
  }

  lemma {:induction false} RunAdd(code: seq<Unit>, c: Context, s: State, m: nat, n: nat)
    ensures Run(code, c, s, m + n) == Run(code, c, Run(code, c, s, m), n)
    decreases n
  {
    hide Step;
    if n > 0 {
      RunAdd(code, c, s, m, n - 1);
      assert m + n - 1 == m + (n - 1);
    }
  }

  lemma {:induction false} RunStopped(code: seq<Unit>, c: Context, s: State, m: nat, n: nat)
    requires m <= n && Run(code, c, s, m).status != Running
    ensures Run(code, c, s, n) == Run(code, c, s, m)
    decreases n - m
  {
    hide Exec;
    if m < n {
      RunStopped(code, c, s, m, n - 1);
    }
  }

  lemma {:induction false} NeverStuck(code: seq<Unit>, c: Context, s: State, m: nat, n: nat)
    requires m <= n && Run(code, c, s, n).status != Stuck
    ensures Run(code, c, s, m).status != Stuck
  {
    hide Step;
    if Run(code, c, s, m).status == Stuck {
      RunStopped(code, c, s, m, n);
    }
  }

  lemma OneMore(code: seq<Unit>, c: Context, s: State, n: nat, u: Unit)
    requires Run(code, c, s, n).status == Running
    requires Run(code, c, s, n).pc < |code| && code[Run(code, c, s, n).pc] == u
    ensures Run(code, c, s, n + 1) == Exec(code, c, u, Run(code, c, s, n))
  {
    hide Exec;
  }

  lemma RunNone(code: seq<Unit>, c: Context, s: State)
    ensures Run(code, c, s, 0) == s
  {
  }
}
