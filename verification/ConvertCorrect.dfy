/** Selected instructions simulate the Dashie code on a flat memory that holds the frame below the caller's. */
module ConvertCorrect {
  import opened Words
  import opened Wrappers
  import opened Primitive
  import opened Layout
  import opened Glimmy
  import opened RiscvOutput
  import D = Dashie
  import Frames
  import LC = LegaliseCorrect

  /** What the caller had when it called: its stack pointer, return address and memory. */
  datatype Caller = Caller(sp: Word, ra: Word, mem: map<Word, Word>)

  /** The address of the word at `off` in the frame. */
  ghost function SlotAddress(c: D.Context, off: int): Word {
    Wrap(c.sp + off)
  }

  ghost predicate Inside(c: D.Context, stk: int, a: Word) {
    exists off :: 0 <= off < stk && a == SlotAddress(c, off)
  }

  /** Both machines agree on addresses and calls, and the frame is a region of its own. */
  ghost predicate Linked(c: D.Context, g: Context, stk: int, w: Caller, offs: set<int>) {
    && g.dash == c && c.sp == Wrap(w.sp - stk) && 4 <= stk < 0x8000_0000
    && (forall trace, r :: c.clobber(trace, r) == g.clobber(trace, RegOf(r)))
    && (forall off :: off in offs ==> 0 <= off <= stk - 8 && SlotAddress(c, off) !in g.data)
    && SlotAddress(c, stk - 4) !in g.data
  }

  ghost predicate RegsMatch(s: D.State, t: State) {
    forall r :: r in s.regs && r != D.Zero ==> RegOf(r) in t.regs && t.regs[RegOf(r)] == s.regs[r]
  }

  /** Every slot is in its word, the return address lies above them, and the rest of the stack is the caller's. */
  ghost predicate MemMatch(c: D.Context, g: Context, stk: int, w: Caller, s: D.State, t: State) {
    && g.data <= t.mem.Keys && Data(g, t.mem) == s.mem
    && (forall off :: off in s.frame ==> SlotAddress(c, off) in t.mem && t.mem[SlotAddress(c, off)] == s.frame[off])
    && SlotAddress(c, stk - 4) in t.mem && t.mem[SlotAddress(c, stk - 4)] == w.ra
    && (forall a :: a in w.mem && a !in g.data && !Inside(c, stk, a) ==> a in t.mem && t.mem[a] == w.mem[a])
  }

  ghost predicate Running2(c: D.Context, g: Context, stk: int, w: Caller, offs: set<int>, s: D.State, t: State) {
    && s.status == D.Running && t.status == Running && t.trace == s.trace && s.frame.Keys == offs
    && Sp in t.regs && t.regs[Sp] == c.sp
    && RegsMatch(s, t) && MemMatch(c, g, stk, w, s, t)
  }

  // ----- addresses -----

  lemma WrapApart(x: int, i: int, j: int)
    requires i != j && 0 <= i < 0x1_0000_0000 && 0 <= j < 0x1_0000_0000
    ensures Wrap(x + i) != Wrap(x + j)
  {
    var k := WrapWitness(x + i);
    var l := WrapWitness(x + j);
  }

  lemma SlotsApart(c: D.Context, i: int, j: int)
    requires i != j && 0 <= i < 0x8000_0000 && 0 <= j < 0x8000_0000
    ensures SlotAddress(c, i) != SlotAddress(c, j)
  {
    WrapApart(c.sp, i, j);
  }

  // ----- registers -----

  lemma WriteMatch(
    c: D.Context, g: Context, stk: int, w: Caller, offs: set<int>, s: D.State, t: State, r: D.Reg, v: Word, p: nat, q: nat)
    requires Running2(c, g, stk, w, offs, s, t) && r != D.Zero
    ensures Running2(c, g, stk, w, offs, s.(regs := s.regs[r := v], pc := p), t.(regs := t.regs[RegOf(r) := v], pc := q))
  {
    hide MemMatch;
    MemOnly(c, g, stk, w, s, t, s.(regs := s.regs[r := v], pc := p), t.(regs := t.regs[RegOf(r) := v], pc := q));
  }

  lemma MemOnly(c: D.Context, g: Context, stk: int, w: Caller, s: D.State, t: State, s': D.State, t': State)
    requires MemMatch(c, g, stk, w, s, t) && s'.frame == s.frame && s'.mem == s.mem && t'.mem == t.mem
    ensures MemMatch(c, g, stk, w, s', t')
  {
  }

  lemma MovedMatch(c: D.Context, g: Context, stk: int, w: Caller, offs: set<int>, s: D.State, t: State, p: nat, q: nat)
    requires Running2(c, g, stk, w, offs, s, t)
    ensures Running2(c, g, stk, w, offs, s.(pc := p), t.(pc := q))
  {
    hide MemMatch;
    MemOnly(c, g, stk, w, s, t, s.(pc := p), t.(pc := q));
  }

  lemma Running2Means(c: D.Context, g: Context, stk: int, w: Caller, offs: set<int>, s: D.State, t: State)
    requires Running2(c, g, stk, w, offs, s, t)
    ensures s.status == D.Running && t.status == Running && Read(t, Sp) == Some(c.sp) && RegsMatch(s, t) && t.trace == s.trace
  {
    hide MemMatch, RegsMatch;
  }

  // ----- memory -----

  lemma LoadData(c: D.Context, g: Context, stk: int, w: Caller, offs: set<int>, s: D.State, t: State, a: Word)
    requires Running2(c, g, stk, w, offs, s, t) && a in s.mem
    ensures a in t.mem && t.mem[a] == s.mem[a] && a in g.data
  {
    hide RegsMatch;
    assert a in Data(g, t.mem);
  }

  lemma LoadSlot(c: D.Context, g: Context, stk: int, w: Caller, offs: set<int>, s: D.State, t: State, off: int)
    requires Running2(c, g, stk, w, offs, s, t) && off in s.frame
    ensures SlotAddress(c, off) in t.mem && t.mem[SlotAddress(c, off)] == s.frame[off]
  {
    hide RegsMatch;
  }

  lemma StoreData(
    c: D.Context, g: Context, stk: int, w: Caller, offs: set<int>, s: D.State, t: State, a: Word, v: Word, p: nat, q: nat)
    requires Linked(c, g, stk, w, offs) && Running2(c, g, stk, w, offs, s, t) && a in s.mem
    ensures Running2(c, g, stk, w, offs, s.(mem := s.mem[a := v], pc := p), t.(mem := t.mem[a := v], pc := q))
  {
    LoadData(c, g, stk, w, offs, s, t, a);
    DataWrite(g, t.mem, a, v);
    hide Inside, SlotAddress, Data, RegsMatch;
    RegsOnly(s, t, s.(mem := s.mem[a := v], pc := p), t.(mem := t.mem[a := v], pc := q));
  }

  lemma RegsOnly(s: D.State, t: State, s': D.State, t': State)
    requires RegsMatch(s, t) && s'.regs == s.regs && t'.regs == t.regs
    ensures RegsMatch(s', t')
  {
  }

  lemma DataWrite(g: Context, mem: map<Word, Word>, a: Word, v: Word)
    requires a in mem
    ensures Data(g, mem[a := v]) == if a in g.data then Data(g, mem)[a := v] else Data(g, mem)
  {
  }

  lemma StoreSlot(
    c: D.Context, g: Context, stk: int, w: Caller, offs: set<int>, s: D.State, t: State, off: int, v: Word, p: nat, q: nat)
    requires Linked(c, g, stk, w, offs) && Running2(c, g, stk, w, offs, s, t) && off in s.frame
    ensures SlotAddress(c, off) in t.mem
    ensures Running2(c, g, stk, w, offs,
              s.(frame := s.frame[off := v], pc := p), t.(mem := t.mem[SlotAddress(c, off) := v], pc := q))
  {
    hide RegsMatch;
    var a := SlotAddress(c, off);
    SlotsApart(c, off, stk - 4);
    forall i | i in s.frame && i != off ensures SlotAddress(c, i) != a {
      SlotsApart(c, i, off);
    }
    assert Inside(c, stk, a);
    DataWrite(g, t.mem, a, v);
    hide Inside, SlotAddress, Data;
    RegsOnly(s, t, s.(frame := s.frame[off := v], pc := p), t.(mem := t.mem[a := v], pc := q));
  }

  // ----- units that compute into a register -----

  /** The last instruction for a unit writes what the unit computes. */
  lemma WriteRuns(
    c: D.Context, g: Context, stk: int, w: Caller, offs: set<int>, dcode: seq<D.Unit>, u: D.Unit, s: D.State, t: State, v: Word,
    q: nat)
    requires Running2(c, g, stk, w, offs, s, t) && D.Destination(u).Some? && D.Destination(u) != Some(D.Zero)
    requires D.Computed(c, u, s) == Some(v)
    ensures D.Exec(dcode, c, u, s) == s.(regs := s.regs[D.Destination(u).value := v], pc := s.pc + 1)
    ensures Running2(c, g, stk, w, offs, D.Exec(dcode, c, u, s),
              t.(regs := t.regs[RegOf(D.Destination(u).value) := v], pc := q))
  {
    D.ComputedMeans(dcode, c, u, s);
    hide Running2, D.Computed, D.Exec, RegOf;
    WriteMatch(c, g, stk, w, offs, s, t, D.Destination(u).value, v, s.pc + 1, q);
  }

  lemma NotZero(r: D.Reg)
    requires r != D.Zero
    ensures RegOf(r) != X0 && RegOf(r) != Imm && RegOf(r) != Sp
  {
  }

  lemma SrcMatch(s: D.State, t: State, r: D.Reg)
    requires RegsMatch(s, t)
    ensures D.Read(s, r).Some? ==> Read(t, RegOf(r)) == D.Read(s, r)
    ensures RegOf(r) != Imm
  {
  }

  /** The result of an instruction that ends the code of a unit. */
  ghost predicate Final(code: seq<Unit>, g: Context, x: Unit, t: State, r: Reg, v: Word) {
    Exec(code, g, x, t) == t.(regs := t.regs[r := v], pc := t.pc + 1)
  }

  lemma WriteFinal(code: seq<Unit>, g: Context, x: Unit, t: State, r: Reg, v: Word)
    requires Exec(code, g, x, t) == Write(t, r, Some(v)) && r != X0
    ensures Final(code, g, x, t, r, v)
  {
    hide Exec;
  }

  /** What one instruction writes. */
  lemma InstructionWrites(code: seq<Unit>, g: Context, x: Unit, t: State)
    ensures x.Rr? && Read(t, x.reg2).Some? ==>
              Exec(code, g, x, t) == Write(t, x.reg1, Some(EvalRR(x.rr, Read(t, x.reg2).value)))
    ensures x.Li? ==> Exec(code, g, x, t) == Write(t, x.reg1, Some(Wrap(x.imm)))
    ensures x.La? ==> Exec(code, g, x, t) == Write(t, x.reg1, D.GlobalAddress(g.dash, x.global))
    ensures x.Rri? && x.rri == Addi && Read(t, x.reg2).Some? ==>
              Exec(code, g, x, t) == Write(t, x.reg1, Some(Wrap(Read(t, x.reg2).value + Wrap(x.imm))))
    ensures x.Rri? && x.rri == Lw && Read(t, x.reg2).Some? && Wrap(Read(t, x.reg2).value + x.imm) in t.mem ==>
              Exec(code, g, x, t) == Write(t, x.reg1, Some(t.mem[Wrap(Read(t, x.reg2).value + x.imm)]))
  {
    hide Write, Wrap, Read, EvalRR, D.GlobalAddress;
  }

  lemma ConvertOne(u: D.Unit, stk: int)
    requires Encodable(u)
    ensures u.Ur? ==> Convert(u, stk) == [Rr(UnaryCode(u.uop), RegOf(u.dst), RegOf(u.src))]
    ensures u.Cr? ==> Convert(u, stk) == [Rr(Mv, RegOf(u.dst), RegOf(u.src))]
    ensures u.Ci? ==> Convert(u, stk) == [Li(RegOf(u.dst), u.imm)]
    ensures u.Ar? ==> Convert(u, stk) == [Rri(Lw, RegOf(u.dst), RegOf(u.src), u.incr)]
    ensures u.Aw? ==> Convert(u, stk) == [Rri(Sw, RegOf(u.base), RegOf(u.src), u.incr)]
    ensures u.Wstk? ==> Convert(u, stk) == [Rri(Sw, Sp, RegOf(u.src), u.offset)]
    ensures u.Rstk? ==> Convert(u, stk) == [Rri(Lw, RegOf(u.dst), Sp, u.offset)]
    ensures u.PtrStk? ==> Convert(u, stk) == [Rri(Addi, RegOf(u.dst), Sp, u.offset)]
    ensures u.PtrGlo? ==> Convert(u, stk) == [La(RegOf(u.dst), u.global)]
  {
  }

  /** What a unit computes, and the operands it needs for that. */
  lemma ComputedOne(c: D.Context, u: D.Unit, s: D.State)
    requires D.Destination(u).Some? && D.Computed(c, u, s).Some?
    ensures var v := D.Computed(c, u, s);
            match u
            case Ur(op, dst, src) =>
              D.Destination(u) == Some(dst) && D.Read(s, src).Some? && v == Some(EvalUnary(op, D.Read(s, src).value))
            case Cr(dst, src) => D.Destination(u) == Some(dst) && D.Read(s, src) == v
            case Ci(dst, imm) => D.Destination(u) == Some(dst) && v == Some(imm)
            case Ar(dst, src, incr) =>
              D.Destination(u) == Some(dst) && D.Read(s, src).Some?
              && Wrap(D.Read(s, src).value + incr) in s.mem && v == Some(s.mem[Wrap(D.Read(s, src).value + incr)])
            case Rstk(dst, off) => D.Destination(u) == Some(dst) && off in s.frame && v == Some(s.frame[off])
            case PtrStk(dst, off) => D.Destination(u) == Some(dst) && v == Some(Wrap(c.sp + off))
            case PtrGlo(dst, g) => D.Destination(u) == Some(dst) && v == D.GlobalAddress(c, g)
            case _ => true
  {
    hide Wrap, EvalUnary, D.Read, D.GlobalAddress;
  }

  lemma SlotAddressIs(c: D.Context, off: int)
    ensures SlotAddress(c, off) == Wrap(c.sp + off)
    ensures Wrap(c.sp + Wrap(off)) == Wrap(c.sp + off)
  {
    WrapAdd(off, c.sp);
  }

  lemma MvIs(x: Word)
    ensures EvalRR(Mv, x) == x
  {
  }

  lemma OneInstruction(
    c: D.Context, g: Context, stk: int, w: Caller, offs: set<int>, code: seq<Unit>, u: D.Unit, s: D.State, t: State)
    requires Linked(c, g, stk, w, offs) && Running2(c, g, stk, w, offs, s, t) && Encodable(u)
    requires D.Destination(u).Some? && D.Destination(u) != Some(D.Zero) && !u.Rglo? && !u.Rbr? && !u.Rbi?
    requires D.Computed(c, u, s).Some?
    ensures |Convert(u, stk)| == 1
         && Final(code, g, Convert(u, stk)[0], t, RegOf(D.Destination(u).value), D.Computed(c, u, s).value)
  {
    hide *;
    var v := D.Computed(c, u, s).value;
    NotZero(D.Destination(u).value);
    Running2Means(c, g, stk, w, offs, s, t);
    LinkedMeans(c, g, stk, w, offs);
    ConvertOne(u, stk);
    ComputedOne(c, u, s);
    Destinations(u);
    match u {
      case Ur(op, dst, src) =>
        SrcMatch(s, t, src);
        UnaryCodeMeans(op, D.Read(s, src).value);
      case Cr(dst, src) =>
        SrcMatch(s, t, src);
        MvIs(v);
      case Ar(dst, src, incr) =>
        SrcMatch(s, t, src);
        LoadData(c, g, stk, w, offs, s, t, Wrap(D.Read(s, src).value + incr));
      case Rstk(dst, off) =>
        LoadSlot(c, g, stk, w, offs, s, t, off);
        SlotAddressIs(c, off);
      case PtrStk(dst, off) => SlotAddressIs(c, off);
      case _ =>
    }
    InstructionWrites(code, g, Convert(u, stk)[0], t);
    WriteFinal(code, g, Convert(u, stk)[0], t, RegOf(D.Destination(u).value), v);
  }

  lemma Destinations(u: D.Unit)
    requires D.Destination(u).Some?
    ensures u.Ur? || u.Cr? || u.Ci? || u.Ar? || u.Rstk? || u.PtrStk? || u.PtrGlo? || u.Rbr? || u.Rbi? || u.Rglo?
  {
  }

  lemma LinkedMeans(c: D.Context, g: Context, stk: int, w: Caller, offs: set<int>)
    requires Linked(c, g, stk, w, offs)
    ensures g.dash == c && c.sp == Wrap(w.sp - stk)
  {
  }

  lemma ConvertComputes(u: D.Unit, stk: int)
    requires Encodable(u) && (u.Rbr? || u.Rbi?)
    ensures var code := BinaryCode(u.bop).value;
            Convert(u, stk)
            == Operate(code, RegOf(u.dst), RegOf(u.src1), if u.Rbr? then RegOf(u.src2) else Imm, if u.Rbr? then 0 else u.imm)
    ensures BinaryCode(u.bop).Some?
  {
  }

  lemma OperandsMatch(c: D.Context, u: D.Unit, s: D.State, t: State)
    requires RegsMatch(s, t) && (u.Rbr? || u.Rbi?) && D.Computed(c, u, s).Some?
    ensures D.Read(s, u.src1).Some? && Read(t, RegOf(u.src1)) == D.Read(s, u.src1)
    ensures var y := if u.Rbr? then D.Read(s, u.src2) else Some(u.imm);
            && y.Some? && D.Computed(c, u, s) == Some(EvalBinary(u.bop, D.Read(s, u.src1).value, y.value))
            && Third(t, if u.Rbr? then RegOf(u.src2) else Imm, if u.Rbr? then 0 else u.imm) == y
  {
    SrcMatch(s, t, u.src1);
    if u.Rbr? {
      SrcMatch(s, t, u.src2);
    }
    hide RegsMatch, RegOf, D.Read, Read, EvalBinary;
  }

  lemma RrrFinal(code: seq<Unit>, g: Context, op: RRR, t: State, r1: Reg, r2: Reg, r3: Reg, imm: int, x: Word, y: Word)
    requires r1 != X0 && Read(t, r2) == Some(x) && Third(t, r3, imm) == Some(y)
    ensures Final(code, g, Rrr(op, r1, r2, r3, imm), t, r1, EvalRRR(op, x, y))
  {
    hide EvalRRR;
  }

  lemma RrFinal(code: seq<Unit>, g: Context, op: RR, t: State, r: Reg, x: Word, p: nat)
    requires r != X0
    ensures Exec(code, g, Rr(op, r, r), t.(regs := t.regs[r := x], pc := p))
         == t.(regs := t.regs[r := EvalRR(op, x)], pc := p + 1)
  {
    hide EvalRR;
    assert t.regs[r := x][r := EvalRR(op, x)] == t.regs[r := EvalRR(op, x)];
  }

  /** An operator's instructions compute it. */
  lemma OperateRuns(
    code: seq<Unit>, g: Context, op: BinaryOp, t: State, r1: Reg, r2: Reg, r3: Reg, imm: int, x: Word, y: Word)
    requires BinaryCode(op).Some? && r1 != X0 && Read(t, r2) == Some(x) && Third(t, r3, imm) == Some(y) && t.status == Running
    requires Sits(code, t.pc, Operate(BinaryCode(op).value, r1, r2, r3, imm))
    ensures var n := |Operate(BinaryCode(op).value, r1, r2, r3, imm)|;
            && n > 0 && Run(code, g, t, n) == t.(regs := t.regs[r1 := EvalBinary(op, x, y)], pc := t.pc + n)
  {
    BinaryCodeMeans(op, x, y);
    var b := BinaryCode(op).value;
    var units := Operate(b, r1, r2, r3, imm);
    SitsUnit(code, t.pc, units, 0);
    RrrFinal(code, g, b.first, t, r1, r2, r3, imm, x, y);
    RunNone(code, g, t);
    hide EvalRRR, EvalRR, BinaryCode, EvalBinary, Sits, Read, Third, Run, Exec;
    OneMore(code, g, t, 0, units[0]);
    if b.second.Some? {
      SitsUnit(code, t.pc, units, 1);
      RrFinal(code, g, b.second.value, t, r1, EvalRRR(b.first, x, y), t.pc + 1);
      OneMore(code, g, t, 1, units[1]);
    }
  }

  lemma RgloRuns(
    c: D.Context, g: Context, stk: int, w: Caller, offs: set<int>, code: seq<Unit>, u: D.Unit, s: D.State, t: State, v: Word)
    requires Linked(c, g, stk, w, offs) && Running2(c, g, stk, w, offs, s, t) && Encodable(u)
    requires u.Rglo? && u.dst != D.Zero && D.Computed(c, u, s) == Some(v) && Sits(code, t.pc, Convert(u, stk))
    ensures |Convert(u, stk)| == 2
    ensures Run(code, g, t, 2) == t.(regs := t.regs[RegOf(u.dst) := v], pc := t.pc + 2)
  {
    NotZero(u.dst);
    Running2Means(c, g, stk, w, offs, s, t);
    LinkedMeans(c, g, stk, w, offs);
    var a, r := c.globals[u.global], RegOf(u.dst);
    LoadData(c, g, stk, w, offs, s, t, a);
    SitsUnit(code, t.pc, Convert(u, stk), 0);
    SitsUnit(code, t.pc, Convert(u, stk), 1);
    RunNone(code, g, t);
    hide Running2, RegsMatch, RegOf, Linked, Sits, Run;
    OneMore(code, g, t, 0, La(r, u.global));
    OneMore(code, g, t, 1, Rri(Lw, r, r, 0));
    assert t.regs[r := a][r := v] == t.regs[r := v];
  }

  /** After the instructions of a unit the machines match again. */
  ghost predicate Matched(
    c: D.Context, g: Context, stk: int, w: Caller, offs: set<int>, dcode: seq<D.Unit>, code: seq<Unit>, u: D.Unit, s: D.State,
    t: State)
    requires Encodable(u)
  {
    var n := |Convert(u, stk)|;
    && n > 0 && Run(code, g, t, n).pc == t.pc + n && D.Exec(dcode, c, u, s).pc == s.pc + 1
    && Running2(c, g, stk, w, offs, D.Exec(dcode, c, u, s), Run(code, g, t, n))
  }

  lemma ComputeRuns(
    c: D.Context, g: Context, stk: int, w: Caller, offs: set<int>, dcode: seq<D.Unit>, code: seq<Unit>, u: D.Unit, s: D.State,
    t: State)
    requires Linked(c, g, stk, w, offs) && Running2(c, g, stk, w, offs, s, t) && Encodable(u)
    requires D.Destination(u).Some? && D.Destination(u) != Some(D.Zero) && D.Computed(c, u, s).Some?
    requires Sits(code, t.pc, Convert(u, stk))
    ensures Matched(c, g, stk, w, offs, dcode, code, u, s, t)
  {
    hide *;
    var v, r := D.Computed(c, u, s).value, RegOf(D.Destination(u).value);
    NotZero(D.Destination(u).value);
    Running2Means(c, g, stk, w, offs, s, t);
    var n := |Convert(u, stk)|;
    DestinationIs(u);
    if u.Rbr? || u.Rbi? {
      ConvertComputes(u, stk);
      OperandsMatch(c, u, s, t);
      OperateRuns(code, g, u.bop, t, r, RegOf(u.src1), if u.Rbr? then RegOf(u.src2) else Imm, if u.Rbr? then 0 else u.imm,
        D.Read(s, u.src1).value, if u.Rbr? then D.Read(s, u.src2).value else u.imm);
    } else if u.Rglo? {
      RgloRuns(c, g, stk, w, offs, code, u, s, t, v);
    } else {
      OneInstruction(c, g, stk, w, offs, code, u, s, t);
      FinalMeans(code, g, Convert(u, stk)[0], t, r, v);
      SitsUnit(code, t.pc, Convert(u, stk), 0);
      RunNone(code, g, t);
      OneMore(code, g, t, 0, Convert(u, stk)[0]);
    }
    WriteRuns(c, g, stk, w, offs, dcode, u, s, t, v, t.pc + n);
    MatchedIs(c, g, stk, w, offs, dcode, code, u, s, t);
  }

  lemma DestinationIs(u: D.Unit)
    requires D.Destination(u).Some?
    ensures u.Rbr? || u.Rbi? || u.Rglo? ==> D.Destination(u) == Some(u.dst)
  {
  }

  lemma FinalMeans(code: seq<Unit>, g: Context, x: Unit, t: State, r: Reg, v: Word)
    requires Final(code, g, x, t, r, v)
    ensures Exec(code, g, x, t) == t.(regs := t.regs[r := v], pc := t.pc + 1)
  {
  }

  lemma MatchedIs(
    c: D.Context, g: Context, stk: int, w: Caller, offs: set<int>, dcode: seq<D.Unit>, code: seq<Unit>, u: D.Unit, s: D.State,
    t: State)
    requires Encodable(u)
    requires var n := |Convert(u, stk)|;
             && n > 0 && Run(code, g, t, n).pc == t.pc + n && D.Exec(dcode, c, u, s).pc == s.pc + 1
             && Running2(c, g, stk, w, offs, D.Exec(dcode, c, u, s), Run(code, g, t, n))
    ensures Matched(c, g, stk, w, offs, dcode, code, u, s, t)
  {
  }

  // ----- stores -----

  lemma SwExec(code: seq<Unit>, g: Context, t: State, base: Reg, src: Reg, imm: int, b: Word, v: Word)
    requires Read(t, base) == Some(b) && Read(t, src) == Some(v) && Wrap(b + imm) in t.mem
    ensures Exec(code, g, Rri(Sw, base, src, imm), t) == t.(mem := t.mem[Wrap(b + imm) := v], pc := t.pc + 1)
  {
    hide Wrap, Read;
  }

  /** What a store does when it does not get stuck. */
  lemma StoreMeans(dcode: seq<D.Unit>, c: D.Context, u: D.Unit, s: D.State)
    requires (u.Aw? || u.Wstk?) && D.Exec(dcode, c, u, s).status != D.Stuck
    ensures D.Read(s, u.src).Some?
    ensures u.Aw? ==>
              && D.Read(s, u.base).Some? && Wrap(D.Read(s, u.base).value + u.incr) in s.mem
              && D.Exec(dcode, c, u, s)
                 == s.(mem := s.mem[Wrap(D.Read(s, u.base).value + u.incr) := D.Read(s, u.src).value], pc := s.pc + 1)
    ensures u.Wstk? ==>
              && u.offset in s.frame
              && D.Exec(dcode, c, u, s) == s.(frame := s.frame[u.offset := D.Read(s, u.src).value], pc := s.pc + 1)
  {
    hide Wrap, D.Read;
  }

  lemma StoreRuns(
    c: D.Context, g: Context, stk: int, w: Caller, offs: set<int>, dcode: seq<D.Unit>, code: seq<Unit>, u: D.Unit, s: D.State,
    t: State)
    requires Linked(c, g, stk, w, offs) && Running2(c, g, stk, w, offs, s, t) && Encodable(u)
    requires (u.Aw? || u.Wstk?) && D.Exec(dcode, c, u, s).status != D.Stuck && Sits(code, t.pc, Convert(u, stk))
    ensures Matched(c, g, stk, w, offs, dcode, code, u, s, t)
  {
    hide *;
    Running2Means(c, g, stk, w, offs, s, t);
    StoreMeans(dcode, c, u, s);
    SrcMatch(s, t, u.src);
    var v := D.Read(s, u.src).value;
    ConvertOne(u, stk);
    SitsUnit(code, t.pc, Convert(u, stk), 0);
    RunNone(code, g, t);
    if u.Aw? {
      SrcMatch(s, t, u.base);
      var b := D.Read(s, u.base).value;
      LoadData(c, g, stk, w, offs, s, t, Wrap(b + u.incr));
      SwExec(code, g, t, RegOf(u.base), RegOf(u.src), u.incr, b, v);
      StoreData(c, g, stk, w, offs, s, t, Wrap(b + u.incr), v, s.pc + 1, t.pc + 1);
    } else {
      SlotAddressIs(c, u.offset);
      StoreSlot(c, g, stk, w, offs, s, t, u.offset, v, s.pc + 1, t.pc + 1);
      SwExec(code, g, t, Sp, RegOf(u.src), u.offset, c.sp, v);
    }
    OneMore(code, g, t, 0, Convert(u, stk)[0]);
    MatchedIs(c, g, stk, w, offs, dcode, code, u, s, t);
  }

  // ----- calls -----

  lemma AbiMatch(i: nat)
    ensures RegOf(D.AbiArgument(i)) == AbiArgument(i)
  {
  }

  lemma ArgsMatch(s: D.State, t: State, n: nat)
    requires RegsMatch(s, t) && D.ArgsReadable(s, n)
    ensures ArgsReadable(t, n) && CallArgs(t, n) == D.CallArgs(s, n)
  {
    forall i | 0 <= i < n ensures Read(t, AbiArgument(i)) == D.Read(s, D.AbiArgument(i)) {
      AbiMatch(i);
      SrcMatch(s, t, D.AbiArgument(i));
    }
    hide RegsMatch, AbiArgument, D.AbiArgument, D.Read, Read;
  }

  lemma RegsAfterMatch(c: D.Context, g: Context, stk: int, w: Caller, offs: set<int>, s: D.State, t: State, trace: seq<Event>)
    requires Linked(c, g, stk, w, offs) && RegsMatch(s, t)
    ensures RegsMatch(s.(regs := D.RegsAfter(c, s, trace)), t.(regs := RegsAfter(g, t, trace)))
  {
    hide SlotAddress, Wrap;
  }

  lemma DataAfter(g: Context, mem: map<Word, Word>, e: D.Effect)
    ensures Data(g, Overwrite(mem, D.MemAfter(g.dash, Data(g, mem), e))) == D.MemAfter(g.dash, Data(g, mem), e)
    ensures Overwrite(mem, D.MemAfter(g.dash, Data(g, mem), e)).Keys == mem.Keys
    ensures forall a :: a in mem && a !in g.data ==> Overwrite(mem, D.MemAfter(g.dash, Data(g, mem), e))[a] == mem[a]
  {
    var d := Data(g, mem);
    assert D.MemAfter(g.dash, d, e).Keys == d.Keys;
    hide D.MemAfter;
  }

  lemma MemAfterMatch(
    c: D.Context, g: Context, stk: int, w: Caller, offs: set<int>, s: D.State, t: State, s': D.State, t': State, e: D.Effect)
    requires Linked(c, g, stk, w, offs) && MemMatch(c, g, stk, w, s, t) && s.frame.Keys == offs && s'.frame == s.frame
    requires s'.mem == D.MemAfter(c, s.mem, e) && t'.mem == Overwrite(t.mem, D.MemAfter(c, Data(g, t.mem), e))
    ensures MemMatch(c, g, stk, w, s', t')
  {
    DataAfter(g, t.mem, e);
    hide Data, Overwrite, D.MemAfter, SlotAddress, Inside, Wrap;
  }

  /** What a call makes of the two states. */
  lemma CallStates(c: D.Context, g: Context, s: D.State, t: State, name: string)
    requires g.dash == c && Data(g, t.mem) == s.mem && t.trace == s.trace
    requires D.ArgsReadable(s, c.arity(name)) && ArgsReadable(t, c.arity(name))
    requires CallArgs(t, c.arity(name)) == D.CallArgs(s, c.arity(name))
    ensures var trace := s.trace + [D.CallEvent(c, s, name)];
            && D.ExecCall(c, s, name)
               == s.(regs := D.RegsAfter(c, s, trace), mem := D.MemAfter(c, s.mem, c.world(trace)), trace := trace, pc := s.pc + 1)
            && ExecCall(g, t, name)
               == t.(regs := RegsAfter(g, t, trace), mem := Overwrite(t.mem, D.MemAfter(c, Data(g, t.mem), c.world(trace))),
                     trace := trace, pc := t.pc + 1)
  {
    hide Data, Overwrite, D.MemAfter, RegsAfter, D.RegsAfter, ArgsReadable, D.ArgsReadable, CallArgs, D.CallArgs,
         D.GlobalsView, D.ArraysView;
  }

  lemma SpAfter(g: Context, t: State, trace: seq<Event>)
    requires Sp in t.regs
    ensures Sp in RegsAfter(g, t, trace) && RegsAfter(g, t, trace)[Sp] == t.regs[Sp]
  {
  }

  lemma Running2Is(c: D.Context, g: Context, stk: int, w: Caller, offs: set<int>, s: D.State, t: State)
    ensures Running2(c, g, stk, w, offs, s, t) <==>
              && s.status == D.Running && t.status == Running && t.trace == s.trace && s.frame.Keys == offs
              && Sp in t.regs && t.regs[Sp] == c.sp && RegsMatch(s, t) && MemMatch(c, g, stk, w, s, t)
    ensures MemMatch(c, g, stk, w, s, t) ==> Data(g, t.mem) == s.mem
  {
    hide RegsMatch, Data, Inside, SlotAddress;
  }

  lemma DCallMeans(dcode: seq<D.Unit>, c: D.Context, u: D.Unit, s: D.State)
    requires u.Call? && D.Exec(dcode, c, u, s).status != D.Stuck
    ensures D.ArgsReadable(s, c.arity(u.name)) && D.Exec(dcode, c, u, s) == D.ExecCall(c, s, u.name)
  {
    hide D.ArgsReadable, D.CallEvent, D.RegsAfter, D.MemAfter;
  }

  lemma CallExec(code: seq<Unit>, g: Context, name: string, t: State)
    ensures Exec(code, g, Call(name), t) == ExecCall(g, t, name)
  {
    hide ExecCall;
  }

  lemma ControlCode(u: D.Unit, stk: int)
    requires Encodable(u)
    ensures u.Jc? ==> BranchCode(u.bop).Some? && Convert(u, stk) == [Br(BranchCode(u.bop).value, RegOf(u.src1), RegOf(u.src2), u.id)]
    ensures u.Jmp? ==> Convert(u, stk) == [J(u.id)]
    ensures u.Label? ==> Convert(u, stk) == [Label(u.id)]
    ensures u.Call? ==> Convert(u, stk) == [Call(u.name)]
    ensures u.Ret? ==> Convert(u, stk) == [Rri(Lw, Ra, Sp, stk - 4), Rri(Addi, Sp, Sp, stk), Ret]
  {
    hide RegOf, BranchCode, RegOk;
  }

  lemma CallRuns(
    c: D.Context, g: Context, stk: int, w: Caller, offs: set<int>, dcode: seq<D.Unit>, code: seq<Unit>, u: D.Unit, s: D.State,
    t: State)
    requires Linked(c, g, stk, w, offs) && Running2(c, g, stk, w, offs, s, t) && Encodable(u)
    requires u.Call? && D.Exec(dcode, c, u, s).status != D.Stuck && Sits(code, t.pc, Convert(u, stk))
    ensures Matched(c, g, stk, w, offs, dcode, code, u, s, t)
  {
    hide *;
    DCallMeans(dcode, c, u, s);
    Running2Is(c, g, stk, w, offs, s, t);
    LinkedMeans(c, g, stk, w, offs);
    ArgsMatch(s, t, c.arity(u.name));
    CallStates(c, g, s, t, u.name);
    var trace := s.trace + [D.CallEvent(c, s, u.name)];
    var s', t' := D.Exec(dcode, c, u, s), ExecCall(g, t, u.name);
    RegsAfterMatch(c, g, stk, w, offs, s, t, trace);
    RegsOnly(s.(regs := D.RegsAfter(c, s, trace)), t.(regs := RegsAfter(g, t, trace)), s', t');
    SpAfter(g, t, trace);
    MemAfterMatch(c, g, stk, w, offs, s, t, s', t', c.world(trace));
    Running2Is(c, g, stk, w, offs, s', t');
    ControlCode(u, stk);
    SitsUnit(code, t.pc, Convert(u, stk), 0);
    RunNone(code, g, t);
    CallExec(code, g, u.name, t);
    OneMore(code, g, t, 0, Call(u.name));
    MatchedIs(c, g, stk, w, offs, dcode, code, u, s, t);
  }

  // ----- control -----

  lemma ConvertLabels(u: D.Unit, stk: int, l: int)
    requires Encodable(u)
    ensures u == D.Label(l) ==> Convert(u, stk) == [Label(l)]
    ensures u != D.Label(l) ==> Label(l) !in Convert(u, stk)
    ensures Convert(u, stk) != []
  {
  }

  /** The index at which the instructions of unit `i` start. */
  ghost function PcOf(dcode: seq<D.Unit>, stk: int, i: nat): nat
    requires CodeEncodable(dcode) && i <= |dcode|
  {
    2 + Start(ConvertAll(dcode, stk), i)
  }

  lemma UnitSits(dcode: seq<D.Unit>, stk: int, i: nat)
    requires CodeEncodable(dcode) && i < |dcode|
    ensures Encodable(dcode[i]) && Sits(Selected(dcode, stk), PcOf(dcode, stk, i), Convert(dcode[i], stk))
    ensures PcOf(dcode, stk, i + 1) == PcOf(dcode, stk, i) + |Convert(dcode[i], stk)|
  {
    assert dcode[i] in dcode;
    BlockSits(Prologue(stk), ConvertAll(dcode, stk), [], i);
    hide Encodable, Convert, Flatten, Start, Sits;
    assert Prologue(stk) + Flatten(ConvertAll(dcode, stk)) + [] == Selected(dcode, stk);
  }

  lemma SelectedIs(dcode: seq<D.Unit>, stk: int, l: int)
    requires CodeEncodable(dcode)
    ensures Selected(dcode, stk) == Prologue(stk) + Flatten(ConvertAll(dcode, stk))
    ensures |Prologue(stk)| == 2 && Label(l) !in Prologue(stk)
    ensures forall i :: 0 <= i <= |dcode| ==> PcOf(dcode, stk, i) == 2 + Start(ConvertAll(dcode, stk), i)
  {
    hide CodeEncodable, Flatten, Start;
  }

  lemma BlockLabels(dcode: seq<D.Unit>, stk: int, l: int, i: nat)
    requires CodeEncodable(dcode) && i < |dcode|
    ensures dcode[i] == D.Label(l) ==> ConvertAll(dcode, stk)[i] == [Label(l)]
    ensures dcode[i] != D.Label(l) ==> Label(l) !in ConvertAll(dcode, stk)[i]
  {
    assert dcode[i] in dcode;
    ConvertLabels(dcode[i], stk, l);
    hide Convert, Encodable;
  }

  lemma LabelPlace(dcode: seq<D.Unit>, stk: int, l: int)
    requires CodeEncodable(dcode) && IndexOf(dcode, D.Label(l)).Some?
    ensures IndexOf(dcode, D.Label(l)).value < |dcode|
    ensures IndexOf(Selected(dcode, stk), Label(l)) == Some(PcOf(dcode, stk, IndexOf(dcode, D.Label(l)).value))
  {
    hide *;
    var blocks := ConvertAll(dcode, stk);
    forall i | 0 <= i < |dcode|
      ensures dcode[i] == D.Label(l) ==> |blocks[i]| > 0 && blocks[i][0] == Label(l)
      ensures dcode[i] != D.Label(l) ==> Label(l) !in blocks[i]
    {
      BlockLabels(dcode, stk, l, i);
    }
    LabelImage(dcode, blocks, D.Label(l), Label(l));
    SelectedIs(dcode, stk, l);
    IndexOfPrefixed(Prologue(stk), Flatten(blocks), Label(l));
  }

  /** At a unit boundary. */
  ghost predicate Sim(
    c: D.Context, g: Context, stk: int, w: Caller, offs: set<int>, dcode: seq<D.Unit>, s: D.State, t: State)
    requires CodeEncodable(dcode)
  {
    s.pc <= |dcode| && t.pc == PcOf(dcode, stk, s.pc) && Running2(c, g, stk, w, offs, s, t)
  }

  lemma SimIs(c: D.Context, g: Context, stk: int, w: Caller, offs: set<int>, dcode: seq<D.Unit>, s: D.State, t: State)
    requires CodeEncodable(dcode)
    ensures Sim(c, g, stk, w, offs, dcode, s, t) <==>
              s.pc <= |dcode| && t.pc == PcOf(dcode, stk, s.pc) && Running2(c, g, stk, w, offs, s, t)
  {
    hide Running2, PcOf;
  }

  lemma MatchedMeans(
    c: D.Context, g: Context, stk: int, w: Caller, offs: set<int>, dcode: seq<D.Unit>, code: seq<Unit>, u: D.Unit, s: D.State,
    t: State)
    requires Encodable(u) && Matched(c, g, stk, w, offs, dcode, code, u, s, t)
    ensures var n := |Convert(u, stk)|;
             && n > 0 && Run(code, g, t, n).pc == t.pc + n && D.Exec(dcode, c, u, s).pc == s.pc + 1
             && Running2(c, g, stk, w, offs, D.Exec(dcode, c, u, s), Run(code, g, t, n))
  {
    hide Running2, Run, D.Exec, Convert;
  }

  /** Whether a jump unit jumps, when it does not get stuck. */
  lemma DJumpMeans(dcode: seq<D.Unit>, c: D.Context, u: D.Unit, s: D.State)
    requires (u.Jmp? || u.Jc?) && s.status == D.Running && D.Exec(dcode, c, u, s).status != D.Stuck
    ensures u.Jc? ==> D.Read(s, u.src1).Some? && D.Read(s, u.src2).Some?
    ensures var taken := u.Jmp? || EvalBinary(u.bop, D.Read(s, u.src1).value, D.Read(s, u.src2).value) != 0;
            && (taken ==> IndexOf(dcode, D.Label(u.id)).Some?)
            && D.Exec(dcode, c, u, s) == s.(pc := if taken then IndexOf(dcode, D.Label(u.id)).value else s.pc + 1)
  {
    hide D.Read, EvalBinary, IndexOf;
  }

  lemma JumpExec(code: seq<Unit>, g: Context, t: State, x: Unit, a: Word, b: Word)
    requires x.J? || (x.Br? && Read(t, x.reg1) == Some(a) && Read(t, x.reg2) == Some(b))
    requires x.J? || EvalBranch(x.branch, a, b) ==> IndexOf(code, Label(x.id)).Some?
    ensures Exec(code, g, x, t)
         == t.(pc := if x.J? || EvalBranch(x.branch, a, b) then IndexOf(code, Label(x.id)).value else t.pc + 1)
  {
    hide Read, EvalBranch, IndexOf;
  }

  lemma LabelExec(dcode: seq<D.Unit>, code: seq<Unit>, c: D.Context, g: Context, l: int, s: D.State, t: State)
    ensures D.Exec(dcode, c, D.Label(l), s) == s.(pc := s.pc + 1) && Exec(code, g, Label(l), t) == t.(pc := t.pc + 1)
  {
  }

  lemma JumpRuns(c: D.Context, g: Context, stk: int, w: Caller, offs: set<int>, dcode: seq<D.Unit>, s: D.State, t: State)
    requires Linked(c, g, stk, w, offs) && CodeEncodable(dcode) && Sim(c, g, stk, w, offs, dcode, s, t) && s.pc < |dcode|
    requires var u := dcode[s.pc]; (u.Jmp? || u.Jc? || u.Label?) && D.Exec(dcode, c, u, s).status != D.Stuck
    ensures Sim(c, g, stk, w, offs, dcode, D.Exec(dcode, c, dcode[s.pc], s), Run(Selected(dcode, stk), g, t, 1))
  {
    hide *;
    var u, code := dcode[s.pc], Selected(dcode, stk);
    SimIs(c, g, stk, w, offs, dcode, s, t);
    Running2Means(c, g, stk, w, offs, s, t);
    UnitSits(dcode, stk, s.pc);
    ControlCode(u, stk);
    var x := Convert(u, stk)[0];
    SitsUnit(code, t.pc, Convert(u, stk), 0);
    RunNone(code, g, t);
    OneMore(code, g, t, 0, x);
    var s', t' := D.Exec(dcode, c, u, s), Run(code, g, t, 1);
    if u.Label? {
      LabelExec(dcode, code, c, g, u.id, s, t);
    } else {
      DJumpMeans(dcode, c, u, s);
      if IndexOf(dcode, D.Label(u.id)).Some? {
        LabelPlace(dcode, stk, u.id);
      }
      if u.Jc? {
        var a, b := D.Read(s, u.src1).value, D.Read(s, u.src2).value;
        SrcMatch(s, t, u.src1);
        SrcMatch(s, t, u.src2);
        BranchCodeMeans(u.bop, a, b);
        JumpExec(code, g, t, x, a, b);
      } else {
        JumpExec(code, g, t, x, 0, 0);
      }
    }
    MovedMatch(c, g, stk, w, offs, s, t, s'.pc, t'.pc);
    SimIs(c, g, stk, w, offs, dcode, s', t');
  }

  // ----- leaving -----

  /** Back at the caller: its stack pointer and return address are restored, every register holds
      what the Dashie code left in it, and memory outside the frame is the caller's or shared data. */
  ghost predicate Finished(c: D.Context, g: Context, stk: int, w: Caller, s: D.State, t: State) {
    && s.status == D.Returned && t.status == Returned && t.trace == s.trace
    && Sp in t.regs && t.regs[Sp] == w.sp && Ra in t.regs && t.regs[Ra] == w.ra
    && RegsMatch(s, t) && MemMatch(c, g, stk, w, s, t)
  }

  lemma LeaveRegs(s: D.State, t: State, ra: Word, sp: Word)
    requires RegsMatch(s, t)
    ensures RegsMatch(s.(status := D.Returned), t.(regs := t.regs[Ra := ra][Sp := sp], status := Returned, pc := t.pc + 2))
  {
  }

  lemma LeaveSteps(code: seq<Unit>, g: Context, stk: int, t: State, sp: Word, ra: Word)
    requires Read(t, Sp) == Some(sp) && Wrap(sp + (stk - 4)) in t.mem && t.mem[Wrap(sp + (stk - 4))] == ra
    ensures var t1 := t.(regs := t.regs[Ra := ra], pc := t.pc + 1);
            var t2 := t.(regs := t.regs[Ra := ra][Sp := Wrap(sp + Wrap(stk))], pc := t.pc + 2);
            && Exec(code, g, Rri(Lw, Ra, Sp, stk - 4), t) == t1
            && Exec(code, g, Rri(Addi, Sp, Sp, stk), t1) == t2
            && Exec(code, g, Ret, t2) == t2.(status := Returned)
  {
    hide Wrap;
  }

  lemma SpRestored(c: D.Context, g: Context, stk: int, w: Caller, offs: set<int>)
    requires Linked(c, g, stk, w, offs)
    ensures Wrap(c.sp + Wrap(stk)) == w.sp
  {
    WrapAdd(stk, c.sp);
    WrapAdd(w.sp - stk, stk);
  }

  lemma RaSaved(c: D.Context, g: Context, stk: int, w: Caller, s: D.State, t: State)
    requires MemMatch(c, g, stk, w, s, t)
    ensures Wrap(c.sp + (stk - 4)) in t.mem && t.mem[Wrap(c.sp + (stk - 4))] == w.ra
  {
    hide Inside, Data;
  }

  lemma RetMeans(dcode: seq<D.Unit>, c: D.Context, s: D.State)
    ensures D.Exec(dcode, c, D.Ret, s) == s.(status := D.Returned)
  {
  }

  lemma FinishedIs(c: D.Context, g: Context, stk: int, w: Caller, s: D.State, t: State)
    ensures Finished(c, g, stk, w, s, t) <==>
              && s.status == D.Returned && t.status == Returned && t.trace == s.trace
              && Sp in t.regs && t.regs[Sp] == w.sp && Ra in t.regs && t.regs[Ra] == w.ra
              && RegsMatch(s, t) && MemMatch(c, g, stk, w, s, t)
  {
    hide RegsMatch, MemMatch;
  }

  lemma LeaveRuns(c: D.Context, g: Context, stk: int, w: Caller, offs: set<int>, dcode: seq<D.Unit>, s: D.State, t: State)
    requires Linked(c, g, stk, w, offs) && CodeEncodable(dcode) && Sim(c, g, stk, w, offs, dcode, s, t) && s.pc < |dcode|
    requires dcode[s.pc].Ret?
    ensures Finished(c, g, stk, w, D.Exec(dcode, c, dcode[s.pc], s), Run(Selected(dcode, stk), g, t, 3))
  {
    hide *;
    var u, code := dcode[s.pc], Selected(dcode, stk);
    SimIs(c, g, stk, w, offs, dcode, s, t);
    Running2Means(c, g, stk, w, offs, s, t);
    Running2Is(c, g, stk, w, offs, s, t);
    UnitSits(dcode, stk, s.pc);
    ControlCode(u, stk);
    RaSaved(c, g, stk, w, s, t);
    LeaveSteps(code, g, stk, t, c.sp, w.ra);
    SpRestored(c, g, stk, w, offs);
    RetMeans(dcode, c, s);
    SitsUnit(code, t.pc, Convert(u, stk), 0);
    SitsUnit(code, t.pc, Convert(u, stk), 1);
    SitsUnit(code, t.pc, Convert(u, stk), 2);
    RunNone(code, g, t);
    OneMore(code, g, t, 0, Rri(Lw, Ra, Sp, stk - 4));
    OneMore(code, g, t, 1, Rri(Addi, Sp, Sp, stk));
    OneMore(code, g, t, 2, Ret);
    var s', t' := D.Exec(dcode, c, u, s), Run(code, g, t, 3);
    LeaveRegs(s, t, w.ra, w.sp);
    MemOnly(c, g, stk, w, s, t, s', t');
    FinishedIs(c, g, stk, w, s', t');
  }

  // ----- entering -----

  /** At the entry of a function: the frame is there with whatever it holds. */
  ghost predicate Entered(c: D.Context, g: Context, stk: int, w: Caller, offs: set<int>, s: D.State, t: State) {
    && s.status == D.Running && s.pc == 0 && t.status == Running && t.pc == 0 && t.trace == s.trace
    && Sp in t.regs && t.regs[Sp] == w.sp && Ra in t.regs && t.regs[Ra] == w.ra && t.mem == w.mem
    && RegsMatch(s, t) && s.frame.Keys == offs
    && g.data <= t.mem.Keys && Data(g, t.mem) == s.mem
    && (forall off :: off in s.frame ==> SlotAddress(c, off) in t.mem && t.mem[SlotAddress(c, off)] == s.frame[off])
    && SlotAddress(c, stk - 4) in t.mem
  }

  lemma EnterMem(c: D.Context, g: Context, stk: int, w: Caller, offs: set<int>, s: D.State, t: State, t': State)
    requires Linked(c, g, stk, w, offs) && Entered(c, g, stk, w, offs, s, t)
    requires t'.mem == t.mem[SlotAddress(c, stk - 4) := w.ra]
    ensures MemMatch(c, g, stk, w, s, t')
  {
    var a := SlotAddress(c, stk - 4);
    forall off | off in s.frame ensures SlotAddress(c, off) != a {
      SlotsApart(c, off, stk - 4);
    }
    assert Inside(c, stk, a);
    DataWrite(g, t.mem, a, w.ra);
    hide Inside, SlotAddress, Data, RegsMatch;
  }

  lemma EnterSteps(code: seq<Unit>, g: Context, stk: int, t: State, sp: Word, ra: Word)
    requires Read(t, Sp) == Some(sp) && Read(t, Ra) == Some(ra)
    requires Wrap(Wrap(sp + Wrap(-stk)) + (stk - 4)) in t.mem
    ensures var t1 := t.(regs := t.regs[Sp := Wrap(sp + Wrap(-stk))], pc := t.pc + 1);
            && Exec(code, g, Rri(Addi, Sp, Sp, -stk), t) == t1
            && Exec(code, g, Rri(Sw, Sp, Ra, stk - 4), t1)
               == t1.(mem := t1.mem[Wrap(Wrap(sp + Wrap(-stk)) + (stk - 4)) := ra], pc := t.pc + 2)
  {
    hide Wrap;
  }

  lemma SpReserved(c: D.Context, g: Context, stk: int, w: Caller, offs: set<int>)
    requires Linked(c, g, stk, w, offs)
    ensures Wrap(w.sp + Wrap(-stk)) == c.sp
  {
    WrapAdd(-stk, w.sp);
  }

  lemma EnteredMeans(c: D.Context, g: Context, stk: int, w: Caller, offs: set<int>, s: D.State, t: State)
    requires Entered(c, g, stk, w, offs, s, t)
    ensures s.status == D.Running && s.pc == 0 && t.status == Running && t.pc == 0 && t.trace == s.trace && s.frame.Keys == offs
    ensures Read(t, Sp) == Some(w.sp) && Read(t, Ra) == Some(w.ra) && RegsMatch(s, t)
    ensures SlotAddress(c, stk - 4) in t.mem
  {
    hide RegsMatch, Data, SlotAddress;
  }

  lemma SpWritten(s: D.State, t: State, v: Word)
    requires RegsMatch(s, t)
    ensures RegsMatch(s, t.(regs := t.regs[Sp := v]))
  {
  }

  lemma PrologueSits(dcode: seq<D.Unit>, stk: int)
    requires CodeEncodable(dcode)
    ensures |Selected(dcode, stk)| >= 2
    ensures Selected(dcode, stk)[0] == Rri(Addi, Sp, Sp, -stk) && Selected(dcode, stk)[1] == Rri(Sw, Sp, Ra, stk - 4)
    ensures PcOf(dcode, stk, 0) == 2
  {
  }

  lemma EnterRuns(c: D.Context, g: Context, stk: int, w: Caller, offs: set<int>, dcode: seq<D.Unit>, s: D.State, t: State)
    requires Linked(c, g, stk, w, offs) && CodeEncodable(dcode) && Entered(c, g, stk, w, offs, s, t)
    ensures Sim(c, g, stk, w, offs, dcode, s, Run(Selected(dcode, stk), g, t, 2))
  {
    hide *;
    var code := Selected(dcode, stk);
    EnteredMeans(c, g, stk, w, offs, s, t);
    LinkedMeans(c, g, stk, w, offs);
    SpReserved(c, g, stk, w, offs);
    SlotAddressIs(c, stk - 4);
    EnterSteps(code, g, stk, t, w.sp, w.ra);
    PrologueSits(dcode, stk);
    RunNone(code, g, t);
    OneMore(code, g, t, 0, Rri(Addi, Sp, Sp, -stk));
    OneMore(code, g, t, 1, Rri(Sw, Sp, Ra, stk - 4));
    var t' := Run(code, g, t, 2);
    SpWritten(s, t, c.sp);
    RegsOnly(s, t.(regs := t.regs[Sp := c.sp]), s, t');
    EnterMem(c, g, stk, w, offs, s, t, t');
    Running2Is(c, g, stk, w, offs, s, t');
    SimIs(c, g, stk, w, offs, dcode, s, t');
  }

  // ----- every run -----

  /** The zero register is never a destination and the scratch register is never named. */
  predicate UnitPlain(u: D.Unit) {
    D.Destination(u) != Some(D.Zero)
    && match u
       case Rbr(_, dst, src1, src2) => dst != D.Temp(0) && src1 != D.Temp(0) && src2 != D.Temp(0)
       case Rbi(_, dst, src1, _) => dst != D.Temp(0) && src1 != D.Temp(0)
       case Ur(_, dst, src) => dst != D.Temp(0) && src != D.Temp(0)
       case Cr(dst, src) => dst != D.Temp(0) && src != D.Temp(0)
       case Ci(dst, _) => dst != D.Temp(0)
       case Ar(dst, src, _) => dst != D.Temp(0) && src != D.Temp(0)
       case Aw(base, _, src) => base != D.Temp(0) && src != D.Temp(0)
       case Jc(_, _, src1, src2) => src1 != D.Temp(0) && src2 != D.Temp(0)
       case Wstk(src, _) => src != D.Temp(0)
       case Rstk(dst, _) => dst != D.Temp(0)
       case Rglo(dst, _) => dst != D.Temp(0)
       case PtrStk(dst, _) => dst != D.Temp(0)
       case PtrGlo(dst, _) => dst != D.Temp(0)
       case _ => true
  }

  predicate CodePlain(dcode: seq<D.Unit>) {
    CodeEncodable(dcode) && forall u :: u in dcode ==> UnitPlain(u)
  }

  lemma PlainUnit(dcode: seq<D.Unit>, i: nat)
    requires CodePlain(dcode) && i < |dcode|
    ensures CodeEncodable(dcode) && D.Destination(dcode[i]) != Some(D.Zero)
  {
    assert dcode[i] in dcode;
    hide Encodable;
  }

  lemma PlainEncodable(dcode: seq<D.Unit>)
    requires CodePlain(dcode)
    ensures CodeEncodable(dcode)
  {
  }

  lemma UnitKinds(u: D.Unit)
    ensures D.Destination(u).Some? || u.Aw? || u.Wstk? || u.Call? || u.Jmp? || u.Jc? || u.Label? || u.Ret?
  {
  }

  lemma ComputedSome(dcode: seq<D.Unit>, c: D.Context, u: D.Unit, s: D.State)
    requires D.Destination(u).Some? && D.Exec(dcode, c, u, s).status != D.Stuck
    ensures D.Computed(c, u, s).Some?
  {
    D.ComputedMeans(dcode, c, u, s);
    hide D.Computed, D.Exec;
  }

  lemma DStepIs(dcode: seq<D.Unit>, c: D.Context, s: D.State)
    ensures s.status != D.Running ==> D.Step(dcode, c, s) == s
    ensures s.status == D.Running && s.pc < |dcode| ==> D.Step(dcode, c, s) == D.Exec(dcode, c, dcode[s.pc], s)
    ensures s.status == D.Running && s.pc >= |dcode| ==> D.Step(dcode, c, s).status == D.Stuck
  {
    hide D.Exec;
  }

  lemma DRunIs(dcode: seq<D.Unit>, c: D.Context, s: D.State, n: nat)
    ensures n == 0 ==> D.Run(dcode, c, s, n) == s
    ensures n > 0 ==> D.Run(dcode, c, s, n) == D.Step(dcode, c, D.Run(dcode, c, s, n - 1))
  {
    hide D.Step;
  }

  /** One unit of a running state. */
  lemma StepRuns(c: D.Context, g: Context, stk: int, w: Caller, offs: set<int>, dcode: seq<D.Unit>, s: D.State, t: State)
    returns (k: nat)
    requires Linked(c, g, stk, w, offs) && CodePlain(dcode) && s.status == D.Running && D.Step(dcode, c, s).status != D.Stuck
    requires CodeEncodable(dcode) && Sim(c, g, stk, w, offs, dcode, s, t)
    ensures k > 0
    ensures var s', t' := D.Step(dcode, c, s), Run(Selected(dcode, stk), g, t, k);
            Sim(c, g, stk, w, offs, dcode, s', t') || Finished(c, g, stk, w, s', t')
  {
    hide *;
    DStepIs(dcode, c, s);
    SimIs(c, g, stk, w, offs, dcode, s, t);
    var u, code := dcode[s.pc], Selected(dcode, stk);
    PlainUnit(dcode, s.pc);
    UnitSits(dcode, stk, s.pc);
    UnitKinds(u);
    if u.Ret? {
      k := 3;
      LeaveRuns(c, g, stk, w, offs, dcode, s, t);
    } else if u.Jmp? || u.Jc? || u.Label? {
      k := 1;
      JumpRuns(c, g, stk, w, offs, dcode, s, t);
    } else {
      k := |Convert(u, stk)|;
      if u.Call? {
        CallRuns(c, g, stk, w, offs, dcode, code, u, s, t);
      } else if u.Aw? || u.Wstk? {
        StoreRuns(c, g, stk, w, offs, dcode, code, u, s, t);
      } else {
        ComputedSome(dcode, c, u, s);
        ComputeRuns(c, g, stk, w, offs, dcode, code, u, s, t);
      }
      MatchedMeans(c, g, stk, w, offs, dcode, code, u, s, t);
      SimIs(c, g, stk, w, offs, dcode, D.Step(dcode, c, s), Run(code, g, t, k));
    }
  }

  lemma FinishedStatus(c: D.Context, g: Context, stk: int, w: Caller, s: D.State, t: State)
    requires Finished(c, g, stk, w, s, t)
    ensures s.status == D.Returned && t.status == Returned
  {
    hide RegsMatch, MemMatch;
  }

  /** Every run of the Dashie code is followed by the selected instructions. */
  lemma {:induction false} ConvertCorrect(
    c: D.Context, g: Context, stk: int, w: Caller, offs: set<int>, dcode: seq<D.Unit>, s: D.State, t: State, n: nat)
    returns (m: nat)
    requires Linked(c, g, stk, w, offs) && CodePlain(dcode) && Entered(c, g, stk, w, offs, s, t)
    requires D.Run(dcode, c, s, n).status != D.Stuck
    ensures CodeEncodable(dcode)
    ensures var s', t' := D.Run(dcode, c, s, n), Run(Selected(dcode, stk), g, t, m);
            if s'.status == D.Running then Sim(c, g, stk, w, offs, dcode, s', t') else Finished(c, g, stk, w, s', t')
    ensures D.Run(dcode, c, s, n).status == D.Running ==> m >= n
  {
    hide *;
    PlainEncodable(dcode);
    var code := Selected(dcode, stk);
    DRunIs(dcode, c, s, n);
    if n == 0 {
      m := 2;
      EnteredMeans(c, g, stk, w, offs, s, t);
      EnterRuns(c, g, stk, w, offs, dcode, s, t);
    } else {
      D.NeverStuck(dcode, c, s, n - 1, n);
      m := ConvertCorrect(c, g, stk, w, offs, dcode, s, t, n - 1);
      var s', t' := D.Run(dcode, c, s, n - 1), Run(code, g, t, m);
      DStepIs(dcode, c, s');
      if s'.status == D.Running {
        var k := StepRuns(c, g, stk, w, offs, dcode, s', t');
        RunAdd(code, g, t, m, k);
        m := m + k;
        var s1, t1 := D.Run(dcode, c, s, n), Run(code, g, t, m);
        SimIs(c, g, stk, w, offs, dcode, s1, t1);
        Running2Is(c, g, stk, w, offs, s1, t1);
        FinishedIs(c, g, stk, w, s1, t1);
      }
    }
  }

  // ----- with immediates made to fit -----

  /** As `Finished`, except for the scratch register, which Dashie code never names. */
  ghost predicate Left(c: D.Context, g: Context, stk: int, w: Caller, s: D.State, t: State) {
    && s.status == D.Returned && t.status == Returned && t.trace == s.trace
    && Sp in t.regs && t.regs[Sp] == w.sp && Ra in t.regs && t.regs[Ra] == w.ra
    && (forall r :: r in s.regs && r != D.Zero && r != D.Temp(0) ==> RegOf(r) in t.regs && t.regs[RegOf(r)] == s.regs[r])
    && MemMatch(c, g, stk, w, s, t)
  }

  lemma LeftIs(c: D.Context, g: Context, stk: int, w: Caller, s: D.State, t: State, t': State)
    requires Finished(c, g, stk, w, s, t) && LC.Near(t, t')
    ensures Left(c, g, stk, w, s, t')
  {
    hide MemMatch;
    MemOnly(c, g, stk, w, s, t, s, t');
  }

  lemma ConvertNoScratch(u: D.Unit, stk: int)
    requires Encodable(u) && UnitPlain(u)
    ensures forall x :: x in Convert(u, stk) ==> LC.NoScratch(x)
  {
  }

  lemma PrologueOk(stk: int)
    ensures |Prologue(stk)| == 2 && forall x :: x in Prologue(stk) ==> Plain(x) && LC.NoScratch(x)
  {
  }

  lemma ConvertedOk(dcode: seq<D.Unit>, stk: int, i: nat)
    requires CodePlain(dcode) && i < |dcode|
    ensures CodeEncodable(dcode) && forall x :: x in ConvertAll(dcode, stk)[i] ==> Plain(x) && LC.NoScratch(x)
  {
    assert dcode[i] in dcode;
    ConvertPlain(dcode[i], stk);
    ConvertNoScratch(dcode[i], stk);
    hide Convert, Encodable, UnitPlain, Plain, LC.NoScratch;
  }

  lemma SelectedUnit(dcode: seq<D.Unit>, stk: int, q: nat)
    requires CodePlain(dcode) && CodeEncodable(dcode) && q < |Selected(dcode, stk)|
    ensures Plain(Selected(dcode, stk)[q]) && LC.NoScratch(Selected(dcode, stk)[q])
  {
    hide *;
    SelectedIs(dcode, stk, 0);
    PrologueOk(stk);
    if q < 2 {
      assert Selected(dcode, stk)[q] in Prologue(stk);
    } else {
      var i, j := Locate(ConvertAll(dcode, stk), q - 2);
      ConvertedOk(dcode, stk, i);
      assert Selected(dcode, stk)[q] in ConvertAll(dcode, stk)[i];
    }
  }

  lemma SelectedOk(dcode: seq<D.Unit>, stk: int)
    requires CodePlain(dcode)
    ensures CodeEncodable(dcode) && LC.CodeOk(Selected(dcode, stk))
  {
    PlainEncodable(dcode);
    hide Selected, CodePlain, CodeEncodable, Plain, LC.NoScratch;
    var code := Selected(dcode, stk);
    forall x | x in code ensures Plain(x) && LC.NoScratch(x) {
      var q :| 0 <= q < |code| && code[q] == x;
      SelectedUnit(dcode, stk, q);
    }
  }

  lemma EnteredPc(c: D.Context, g: Context, stk: int, w: Caller, offs: set<int>, s: D.State, t: State)
    requires Entered(c, g, stk, w, offs, s, t)
    ensures t.pc == 0
  {
  }

  lemma NearStatus(s: State, t: State)
    requires LC.Near(s, t)
    ensures t.status == s.status
  {
  }

  lemma SimStatus(c: D.Context, g: Context, stk: int, w: Caller, offs: set<int>, dcode: seq<D.Unit>, s: D.State, t: State)
    requires CodeEncodable(dcode) && Sim(c, g, stk, w, offs, dcode, s, t)
    ensures t.status == Running
  {
  }

  /** The converted function simulates the Dashie function on flat memory: when that returns, it
      returns to the caller's return address with the caller's stack pointer, the same calls made,
      every register but the scratch register as the Dashie code left it, and memory equal to the
      Dashie memory, the frame apart; and it keeps running while the Dashie code does. */
  lemma RiscvCorrect(
    c: D.Context, g: Context, w: Caller, offs: set<int>, f: D.Function, s: D.State, t: State, n: nat)
    returns (m: nat)
    requires CodePlain(f.code)
    requires Linked(c, g, Frames.StackSize(f.frame), w, offs) && Entered(c, g, Frames.StackSize(f.frame), w, offs, s, t)
    requires D.Run(f.code, c, s, n).status != D.Stuck
    ensures CodeEncodable(f.code)
    ensures var s', t' := D.Run(f.code, c, s, n), Run(ConvertFunc(f).code, g, t, m);
            if s'.status == D.Running then t'.status == Running && m >= n
            else Left(c, g, Frames.StackSize(f.frame), w, s', t')
  {
    hide *;
    PlainEncodable(f.code);
    var stk := Frames.StackSize(f.frame);
    var code, s' := Selected(f.code, stk), D.Run(f.code, c, s, n);
    ConvertFuncCode(f);
    var k := ConvertCorrect(c, g, stk, w, offs, f.code, s, t, n);
    SelectedOk(f.code, stk);
    EnteredPc(c, g, stk, w, offs, s, t);
    var t1 := Run(code, g, t, k);
    if s'.status == D.Running {
      SimStatus(c, g, stk, w, offs, f.code, s', t1);
    } else {
      FinishedStatus(c, g, stk, w, s', t1);
    }
    m := LC.LegaliseRuns(code, g, t, k);
    NearStatus(t1, Run(Legalise(code), g, t, m));
    if s'.status != D.Running {
      LeftIs(c, g, stk, w, s', t1, Run(Legalise(code), g, t, m));
    }
  }

  lemma ConvertFuncCode(f: D.Function)
    requires CodeEncodable(f.code)
    ensures ConvertFunc(f).code == Legalise(Selected(f.code, Frames.StackSize(f.frame)))
  {
    hide Legalise, Selected;
  }
}
