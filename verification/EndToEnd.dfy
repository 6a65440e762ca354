/** The whole compiler: RISC-V code does what the source function means. */
module EndToEnd {
  import opened Words
  import opened Wrappers
  import opened Primitive
  import opened Layout
  import P = Pinkie
  import Ast
  import E = Embedding
  import GE = GenEeyore
  import GX = GenExprCorrect
  import GS = GenStmtCorrect
  import GF = GenFunctionCorrect
  import RO = ReadingOrder
  import opened GenStatic
  import GP = GenProgram
  import O = Optimize
  import OS = OptimizeStatic
  import Frames
  import B = Backend
  import BC = BackendCorrect
  import BS = BackendStatic
  import D = Dashie
  import Peephole
  import PC = PeepholeCorrect
  import G = Glimmy
  import R = RiscvOutput
  import CC = ConvertCorrect
  import CS = CompileStatic

  type Store = GX.Store

  // ----- what the compiler emits -----

  ghost predicate Compiles(p: GP.Program, scs: seq<Scope>, k: nat) {
    CS.FuncFits(p, scs, k) && O.OptimizeProg(GP.Generate(p)).Some?
  }

  /** Function `k` after optimisation on the Pinkie level. */
  ghost function PinkieFunc(p: GP.Program, k: nat): P.Func {
    var prog := O.OptimizeProg(GP.Generate(p));
    if prog.Some? && k < |prog.value.funcs| then prog.value.funcs[k] else P.Func("", 0, [], [])
  }

  /** The register code of a function. */
  ghost function RegisterFunc(env: B.Env, f: P.Func): D.Function
    requires B.ParamsKnown(env, f.arity) && B.CodeOk(env, f.code)
  {
    D.Function(f.name, f.arity, Frames.FrameOf(f), B.FunctionCode(env, f.arity, f.code))
  }

  ghost function ShortFunc(f: D.Function): D.Function {
    f.(code := Peephole.Optimized(f.code))
  }

  // ----- machine states at entry and exit -----

  /** The contexts of the three machines, what the caller had, and its callee-saved registers. */
  datatype Setting = Setting(c: P.Context, d: D.Context, g: G.Context, w: CC.Caller, saves: seq<Word>)

  ghost function FrameOffsets(f: P.Func): set<int> {
    (set i | 0 <= i < Frames.CalleeSavedHeuristic(f) :: 4 * i)
    + (set o | o in Frames.SlotsOf(f) && Frames.SlotsOf(f)[o].len == 0 :: Frames.SlotsOf(f)[o].offset)
  }

  ghost function StackOf(f: P.Func): int {
    Frames.StackSize(Frames.FrameOf(f))
  }

  /** Where shared data lies in the function's frame, there is a local array. */
  ghost predicate DataInArrays(f: P.Func, x: Setting) {
    forall off :: 0 <= off < StackOf(f) && CC.SlotAddress(x.d, off) in x.g.data ==>
      exists o :: o in Frames.SlotsOf(f) && Frames.SlotsOf(f)[o].len != 0
                  && Frames.SlotsOf(f)[o].offset <= off < Frames.SlotsOf(f)[o].offset + Frames.SlotsOf(f)[o].len
  }

  /** The settings agree with each other and with the function's frame. */
  ghost predicate SettingOk(env: B.Env, f: P.Func, x: Setting) {
    && BC.Linked(x.c, x.d, env)
    && x.g.dash == x.d && x.d.sp == Wrap(x.w.sp - StackOf(f)) && StackOf(f) < 0x8000_0000
    && (forall trace, r :: x.d.clobber(trace, r) == x.g.clobber(trace, R.RegOf(r)))
    && DataInArrays(f, x)
    && (forall o :: o in x.d.cells ==> x.d.cells[o] in x.g.data)
    && |x.saves| == 12
  }

  /** The registers and the memory of a machine hold a store of the source program. */
  ghost predicate HoldsStore(x: Setting, st: Store, r: G.State) {
    && r.trace == st.trace
    && D.ArraysView(x.d, G.Data(x.g, r.mem)) == st.mem
    && (forall o :: o in x.c.globals ==>
          o in st.vars && o in x.d.cells && x.d.cells[o] in r.mem && r.mem[x.d.cells[o]] == st.vars[o])
  }

  /** At the entry of the compiled function: parameters in the argument registers, globals and arrays in
      memory, a caller to return to, and room for the frame. */
  ghost predicate AtEntry(f: P.Func, x: Setting, st: Store, r: G.State) {
    && r.pc == 0 && r.status == G.Running && r.mem == x.w.mem && |x.saves| == 12
    && HoldsStore(x, st, r)
    && (forall o :: o in st.vars ==> o in x.c.globals || (o.Param? && 0 <= o.id < f.arity))
    && (forall i :: 0 <= i < f.arity ==>
          P.Param(i) in st.vars && G.AbiArgument(i) in r.regs && r.regs[G.AbiArgument(i)] == st.vars[P.Param(i)])
    && (forall i :: 0 <= i < 12 ==> G.S(i) in r.regs && r.regs[G.S(i)] == x.saves[i])
    && G.Sp in r.regs && r.regs[G.Sp] == x.w.sp && G.Ra in r.regs && r.regs[G.Ra] == x.w.ra
    && x.g.data <= r.mem.Keys
    && (forall off :: off in FrameOffsets(f) ==> CC.SlotAddress(x.d, off) in r.mem)
    && CC.SlotAddress(x.d, StackOf(f) - 4) in r.mem
  }

  /** Back at the caller: the value returned, the store in place, stack pointer, return address and
      callee-saved registers restored, and the caller's memory outside frame and data untouched. */
  ghost predicate AtReturn(f: P.Func, x: Setting, v: Option<Word>, st: Store, r: G.State) {
    && r.status == G.Returned && |x.saves| == 12
    && HoldsStore(x, st, r)
    && (v.Some? ==> G.A(0) in r.regs && r.regs[G.A(0)] == v.value)
    && (forall i :: 0 <= i < 12 ==> G.S(i) in r.regs && r.regs[G.S(i)] == x.saves[i])
    && G.Sp in r.regs && r.regs[G.Sp] == x.w.sp && G.Ra in r.regs && r.regs[G.Ra] == x.w.ra
    && (forall a :: a in x.w.mem && a !in x.g.data && !CC.Inside(x.d, StackOf(f), a) ==>
          a in r.mem && r.mem[a] == x.w.mem[a])
  }

  // ----- the register machine in between -----

  function DashieReg(q: G.Reg): D.Reg {
    match q
    case A(i) => D.Arg(i)
    case T(i) => D.Temp(i)
    case S(i) => D.Save(i)
    case _ => D.Zero
  }

  /** The register machine's view of a machine state. */
  ghost function AsDashie(f: P.Func, x: Setting, r: G.State): D.State {
    var regs := map q | q in r.regs && (q.A? || q.T? || q.S?) :: DashieReg(q) := r.regs[q];
    D.State(
      0, regs,
      map off | off in FrameOffsets(f) :: if CC.SlotAddress(x.d, off) in r.mem then r.mem[CC.SlotAddress(x.d, off)] else 0,
      G.Data(x.g, r.mem), r.trace, D.Running)
  }

  lemma DashieRegs(f: P.Func, x: Setting, r: G.State)
    ensures var s := AsDashie(f, x, r);
            && CC.RegsMatch(s, r) && s.frame.Keys == FrameOffsets(f)
            && (forall i :: G.A(i) in r.regs ==> D.Arg(i) in s.regs && s.regs[D.Arg(i)] == r.regs[G.A(i)])
            && (forall i :: G.T(i) in r.regs ==> D.Temp(i) in s.regs && s.regs[D.Temp(i)] == r.regs[G.T(i)])
            && (forall i :: G.S(i) in r.regs ==> D.Save(i) in s.regs && s.regs[D.Save(i)] == r.regs[G.S(i)])
  {
    hide FrameOffsets, CC.SlotAddress, G.Data;
    var s := AsDashie(f, x, r);
    forall i | G.A(i) in r.regs ensures D.Arg(i) in s.regs && s.regs[D.Arg(i)] == r.regs[G.A(i)] {
      assert DashieReg(G.A(i)) == D.Arg(i);
    }
    forall i | G.T(i) in r.regs ensures D.Temp(i) in s.regs && s.regs[D.Temp(i)] == r.regs[G.T(i)] {
      assert DashieReg(G.T(i)) == D.Temp(i);
    }
    forall i | G.S(i) in r.regs ensures D.Save(i) in s.regs && s.regs[D.Save(i)] == r.regs[G.S(i)] {
      assert DashieReg(G.S(i)) == D.Save(i);
    }
  }

  // ----- the frame is apart from the data -----

  lemma StackAbove(f: P.Func)
    requires Frames.SizesOk(f.decl)
    ensures 0 <= 4 * Frames.CalleeSavedHeuristic(f) <= Frames.FrameOf(f) <= StackOf(f) - 4
  {
    Frames.LocalsSized(f);
    Frames.EndGrows(4 * Frames.CalleeSavedHeuristic(f), Frames.Locals(f), 0);
    assert Frames.Locals(f)[..0] == [];
    Frames.StackSizeSound(Frames.FrameOf(f));
    hide Frames.CalleeSavedHeuristic, Frames.Locals;
  }

  /** Neither a saved register nor a scalar nor the return address lies in shared data. */
  lemma FrameApart(f: P.Func, x: Setting, off: int)
    requires Frames.SizesOk(f.decl) && DataInArrays(f, x)
    requires off in FrameOffsets(f) || off == StackOf(f) - 4
    ensures 0 <= off <= StackOf(f) - 4 && (off in FrameOffsets(f) ==> off <= StackOf(f) - 8)
    ensures CC.SlotAddress(x.d, off) !in x.g.data
  {
    hide Frames.SlotsOf, Frames.FrameOf, Frames.CalleeSavedHeuristic, CC.SlotAddress, StackOf;
    StackAbove(f);
    var slots := Frames.SlotsOf(f);
    var n := Frames.CalleeSavedHeuristic(f);
    if off in FrameOffsets(f) && !(exists i :: 0 <= i < n && off == 4 * i) {
      var o :| o in slots && slots[o].len == 0 && slots[o].offset == off;
      Frames.SlotInFrame(f, o);
    }
    if CC.SlotAddress(x.d, off) in x.g.data && 0 <= off < StackOf(f) {
      var q :| q in slots && slots[q].len != 0 && slots[q].offset <= off < slots[q].offset + slots[q].len;
      Frames.SlotInFrame(f, q);
      if off in FrameOffsets(f) && !(exists i :: 0 <= i < n && off == 4 * i) {
        var o :| o in slots && slots[o].len == 0 && slots[o].offset == off;
        Frames.SlotsDisjoint(f, o, q);
      }
    }
  }

  lemma MachineLinked(env: B.Env, f: P.Func, x: Setting)
    requires SettingOk(env, f, x) && Frames.SizesOk(f.decl)
    ensures CC.Linked(x.d, x.g, StackOf(f), x.w, FrameOffsets(f))
  {
    hide BC.Linked, DataInArrays, FrameOffsets, StackOf, CC.SlotAddress;
    StackAbove(f);
    forall off | off in FrameOffsets(f) || off == StackOf(f) - 4
      ensures 0 <= off && (off in FrameOffsets(f) ==> off <= StackOf(f) - 8) && CC.SlotAddress(x.d, off) !in x.g.data
    {
      FrameApart(f, x, off);
    }
  }

  // ----- entry -----

  lemma MachineEntered(f: P.Func, x: Setting, st: Store, r: G.State)
    requires AtEntry(f, x, st, r)
    ensures CC.Entered(x.d, x.g, StackOf(f), x.w, FrameOffsets(f), AsDashie(f, x, r), r)
  {
    DashieRegs(f, x, r);
    hide FrameOffsets, StackOf, CC.SlotAddress, G.Data, G.AbiArgument, D.ArraysView, CC.RegsMatch, HoldsStore;
  }

  lemma ArgInRegs(f: P.Func, x: Setting, r: G.State, i: nat, v: Word)
    requires G.AbiArgument(i) in r.regs && r.regs[G.AbiArgument(i)] == v
    ensures D.Read(AsDashie(f, x, r), D.AbiArgument(i)) == Some(v)
  {
    DashieRegs(f, x, r);
    hide AsDashie, CC.RegsMatch;
  }

  lemma DataAt(g: G.Context, mem: map<Word, Word>, a: Word)
    ensures a in mem && a in g.data ==> a in G.Data(g, mem) && G.Data(g, mem)[a] == mem[a]
    ensures a in G.Data(g, mem) ==> a in mem && a in g.data
  {
  }

  lemma FrameRoom(env: B.Env, f: P.Func, x: Setting, r: G.State)
    requires env.locals == Frames.SlotsOf(f) && env.nSaved == Frames.CalleeSavedHeuristic(f)
    ensures forall o :: o in env.locals && env.locals[o].len == 0 ==> env.locals[o].offset in FrameOffsets(f)
    ensures forall i :: 0 <= i < env.nSaved ==> 4 * i in FrameOffsets(f)
  {
    hide Frames.SlotsOf, Frames.CalleeSavedHeuristic;
  }

  lemma EntryMeans(f: P.Func, x: Setting, st: Store, r: G.State)
    requires AtEntry(f, x, st, r)
    ensures r.trace == st.trace && D.ArraysView(x.d, G.Data(x.g, r.mem)) == st.mem && x.g.data <= r.mem.Keys
    ensures forall o :: o in x.c.globals ==>
              o in st.vars && o in x.d.cells && x.d.cells[o] in r.mem && r.mem[x.d.cells[o]] == st.vars[o]
    ensures forall o :: o in st.vars ==> o in x.c.globals || (o.Param? && 0 <= o.id < f.arity)
    ensures forall i :: 0 <= i < f.arity ==>
              P.Param(i) in st.vars && G.AbiArgument(i) in r.regs && r.regs[G.AbiArgument(i)] == st.vars[P.Param(i)]
    ensures |x.saves| == 12 && forall i :: 0 <= i < 12 ==> G.S(i) in r.regs && r.regs[G.S(i)] == x.saves[i]
  {
    hide FrameOffsets, StackOf, CC.SlotAddress, D.ArraysView, G.Data, G.AbiArgument;
  }

  lemma RegisterState(f: P.Func, x: Setting, r: G.State)
    ensures var t := AsDashie(f, x, r); t.mem == G.Data(x.g, r.mem) && t.trace == r.trace && t.status == D.Running && t.pc == 0
  {
    hide FrameOffsets, CC.SlotAddress, G.Data;
  }

  lemma RegisterAllocated(env: B.Env, f: P.Func, x: Setting, st: Store, r: G.State)
    requires SettingOk(env, f, x) && AtEntry(f, x, st, r)
    requires env.locals == Frames.SlotsOf(f) && env.nSaved == Frames.CalleeSavedHeuristic(f)
    ensures BC.Allocated(env, x.d, AsDashie(f, x, r))
    ensures forall i :: 0 <= i < env.nSaved ==> 4 * i in AsDashie(f, x, r).frame
  {
    DashieRegs(f, x, r);
    FrameRoom(env, f, x, r);
    RegisterState(f, x, r);
    EntryMeans(f, x, st, r);
    hide FrameOffsets, StackOf, CC.SlotAddress, AsDashie, D.ArraysView, CC.RegsMatch, DataInArrays, G.Data, BC.Linked,
         Frames.SlotsOf, Frames.CalleeSavedHeuristic, AtEntry;
    forall o | o in x.d.cells ensures x.d.cells[o] in AsDashie(f, x, r).mem {
      DataAt(x.g, r.mem, x.d.cells[o]);
    }
  }

  lemma BothEntered(env: B.Env, arity: nat, c: P.Context, d: D.Context, saves: seq<Word>, s: P.State, t: D.State)
    requires s.status == P.Running && s.pc == 0 && s.args == []
    requires t.status == D.Running && t.pc == 0 && t.trace == s.trace && D.ArraysView(d, t.mem) == s.mem
    requires forall o :: o in c.globals ==> o in s.env && o in d.cells && d.cells[o] in t.mem && t.mem[d.cells[o]] == s.env[o]
    requires forall o :: o in s.env ==> o in c.globals || (o.Param? && 0 <= o.id < arity)
    requires forall i :: 0 <= i < arity ==> P.Param(i) in s.env && D.Read(t, D.AbiArgument(i)) == Some(s.env[P.Param(i)])
    requires |saves| == 12 && forall i :: 0 <= i < 12 ==> D.Save(i) in t.regs && t.regs[D.Save(i)] == saves[i]
    requires BC.Allocated(env, d, t) && forall i :: 0 <= i < env.nSaved ==> 4 * i in t.frame
    ensures BC.Entered(env, arity, c, d, saves, s, t)
  {
    hide BC.Allocated, D.Read, D.AbiArgument, D.ArraysView;
  }

  lemma SettingMeans(env: B.Env, f: P.Func, x: Setting)
    requires SettingOk(env, f, x)
    ensures BC.Linked(x.c, x.d, env) && forall o :: o in x.d.cells ==> x.d.cells[o] in x.g.data
  {
    hide BC.Linked, DataInArrays, StackOf;
  }

  lemma RegisterEntered(env: B.Env, f: P.Func, x: Setting, st: Store, r: G.State)
    requires SettingOk(env, f, x) && AtEntry(f, x, st, r)
    requires env.locals == Frames.SlotsOf(f) && env.nSaved == Frames.CalleeSavedHeuristic(f)
    ensures BC.Entered(env, f.arity, x.c, x.d, x.saves, Ast.AsState(st, []), AsDashie(f, x, r))
  {
    hide *;
    var s, t := Ast.AsState(st, []), AsDashie(f, x, r);
    SettingMeans(env, f, x);
    EntryMeans(f, x, st, r);
    DashieRegs(f, x, r);
    RegisterState(f, x, r);
    RegisterAllocated(env, f, x, st, r);
    StoreState(st);
    forall i | 0 <= i < f.arity ensures D.Read(t, D.AbiArgument(i)) == Some(st.vars[P.Param(i)]) {
      ArgInRegs(f, x, r, i, st.vars[P.Param(i)]);
    }
    forall o | o in x.c.globals ensures x.d.cells[o] in t.mem && t.mem[x.d.cells[o]] == st.vars[o] {
      DataAt(x.g, r.mem, x.d.cells[o]);
    }
    BothEntered(env, f.arity, x.c, x.d, x.saves, s, t);
  }

  lemma StoreState(st: Store)
    ensures Ast.AsState(st, []) == P.State(0, st.vars, st.mem, [], st.trace, P.Running)
  {
  }

  // ----- exit -----

  lemma ObservedVar(s: P.State, s': P.State, o: P.Operand)
    requires P.Observe(s) == P.Observe(s') && !o.Temp? && o in s'.env
    ensures o in s.env && s.env[o] == s'.env[o]
  {
    var vars := P.Observe(s).vars;
    assert o in P.Observe(s').vars;
  }

  lemma ObservedParts(s: P.State, s': P.State)
    requires P.Observe(s) == P.Observe(s')
    ensures s.status == s'.status && s.trace == s'.trace && s.mem == s'.mem
  {
  }

  lemma StoppedParts(code: seq<P.Unit>, c: P.Context, s: P.State, n: nat, v: Option<Word>, st: Store)
    requires GS.Stopped(code, c, s, n, v, st)
    ensures var s' := P.Run(code, c, s, n);
            && s'.status == P.Returned(v) && s'.mem == st.mem && s'.trace == st.trace
            && forall o :: o in s'.env && !o.Temp? ==> o in st.vars && s'.env[o] == st.vars[o]
  {
    hide P.Run;
  }

  lemma AlikeParts(code: seq<D.Unit>, s: D.State, t: D.State)
    requires PC.Alike(code, s, t)
    ensures t.regs == s.regs && t.mem == s.mem && t.trace == s.trace && t.status == s.status
  {
    hide Peephole.UsedStack, Peephole.Tracked;
  }

  lemma FinishedParts(c: P.Context, d: D.Context, saves: seq<Word>, s: P.State, t: D.State)
    requires BC.Finished(c, d, saves, s, t)
    ensures s.status.Returned? && t.status == D.Returned && t.trace == s.trace && D.ArraysView(d, t.mem) == s.mem
    ensures s.status.val.Some? ==> D.Arg(0) in t.regs && t.regs[D.Arg(0)] == s.status.val.value
    ensures forall o :: o in c.globals ==> o in s.env && o in d.cells && d.cells[o] in t.mem && t.mem[d.cells[o]] == s.env[o]
    ensures |saves| == 12 && forall i :: 0 <= i < 12 ==> D.Save(i) in t.regs && t.regs[D.Save(i)] == saves[i]
  {
    hide D.ArraysView;
  }

  lemma LeftParts(d: D.Context, g: G.Context, stk: int, w: CC.Caller, t: D.State, r: G.State)
    requires CC.Left(d, g, stk, w, t, r)
    ensures r.status == G.Returned && r.trace == t.trace && G.Data(g, r.mem) == t.mem
    ensures G.Sp in r.regs && r.regs[G.Sp] == w.sp && G.Ra in r.regs && r.regs[G.Ra] == w.ra
    ensures D.Arg(0) in t.regs ==> G.A(0) in r.regs && r.regs[G.A(0)] == t.regs[D.Arg(0)]
    ensures forall i :: D.Save(i) in t.regs ==> G.S(i) in r.regs && r.regs[G.S(i)] == t.regs[D.Save(i)]
    ensures forall a :: a in w.mem && a !in g.data && !CC.Inside(d, stk, a) ==> a in r.mem && r.mem[a] == w.mem[a]
  {
    hide CC.Inside, G.Data, CC.SlotAddress;
    forall i | D.Save(i) in t.regs ensures G.S(i) in r.regs && r.regs[G.S(i)] == t.regs[D.Save(i)] {
      assert R.RegOf(D.Save(i)) == G.S(i);
    }
    assert R.RegOf(D.Arg(0)) == G.A(0);
  }

  lemma ReturnIs(f: P.Func, x: Setting, v: Option<Word>, st: Store, r: G.State)
    requires r.status == G.Returned && |x.saves| == 12 && r.trace == st.trace && D.ArraysView(x.d, G.Data(x.g, r.mem)) == st.mem
    requires forall o :: o in x.c.globals ==>
               o in st.vars && o in x.d.cells && x.d.cells[o] in r.mem && r.mem[x.d.cells[o]] == st.vars[o]
    requires v.Some? ==> G.A(0) in r.regs && r.regs[G.A(0)] == v.value
    requires forall i :: 0 <= i < 12 ==> G.S(i) in r.regs && r.regs[G.S(i)] == x.saves[i]
    requires G.Sp in r.regs && r.regs[G.Sp] == x.w.sp && G.Ra in r.regs && r.regs[G.Ra] == x.w.ra
    requires forall a :: a in x.w.mem && a !in x.g.data && !CC.Inside(x.d, StackOf(f), a) ==> a in r.mem && r.mem[a] == x.w.mem[a]
    ensures AtReturn(f, x, v, st, r)
  {
    hide CC.Inside, G.Data, D.ArraysView, StackOf;
  }

  lemma GlobalNotTemp(c: P.Context)
    requires P.ContextOk(c)
    ensures forall o :: o in c.globals ==> !o.Temp?
  {
  }

  /** From the end of the Pinkie run to the return of the machine code. */
  lemma Returns(
    f: P.Func, x: Setting, v: Option<Word>, st: Store, s: P.State, s': P.State, dcode: seq<D.Unit>, t: D.State, t': D.State,
    r: G.State)
    requires P.ContextOk(x.c) && s.status == P.Returned(v) && s.mem == st.mem && s.trace == st.trace
    requires forall o :: o in s.env && !o.Temp? ==> o in st.vars && s.env[o] == st.vars[o]
    requires P.Observe(s') == P.Observe(s) && BC.Finished(x.c, x.d, x.saves, s', t) && PC.Alike(dcode, t, t')
    requires CC.Left(x.d, x.g, StackOf(f), x.w, t', r)
    ensures AtReturn(f, x, v, st, r)
  {
    hide *;
    ObservedParts(s', s);
    FinishedParts(x.c, x.d, x.saves, s', t);
    AlikeParts(dcode, t, t');
    LeftParts(x.d, x.g, StackOf(f), x.w, t', r);
    GlobalNotTemp(x.c);
    forall o | o in x.c.globals
      ensures o in st.vars && o in x.d.cells && x.d.cells[o] in r.mem && r.mem[x.d.cells[o]] == st.vars[o]
    {
      ObservedVar(s, s', o);
      DataAt(x.g, r.mem, x.d.cells[o]);
    }
    ReturnIs(f, x, v, st, r);
  }

  // ----- the code -----

  /** Everything the simulations need of the code of function `k`. */
  ghost predicate CodeReady(p: GP.Program, scs: seq<Scope>, k: nat, env: B.Env, f: P.Func) {
    && BC.FuncReady(env, f.arity, f.code)
    && env.locals == Frames.SlotsOf(f) && env.nSaved == Frames.CalleeSavedHeuristic(f)
    && Frames.SizesOk(f.decl) && f.arity <= 12
    && E.DistinctLabels(f.code) && (forall u :: u in f.code ==> BS.OperatorsOk(u))
  }

  lemma CompiledCode(p: GP.Program, scs: seq<Scope>, k: nat)
    requires Compiles(p, scs, k)
    ensures |O.OptimizeProg(GP.Generate(p)).value.funcs| == |p.funcs| + 1 && k <= |p.funcs|
    ensures CodeReady(p, scs, k, CS.EnvAt(p, k), PinkieFunc(p, k))
  {
    hide *;
    CompilesMeans(p, scs, k);
    CS.FitsMeans(p, scs, k);
    CS.CompiledReady(p, scs, k);
    CS.EnvParts(p, k);
    PinkieFuncIs(p, k);
    CodeReadyIs(p, scs, k, CS.EnvAt(p, k), PinkieFunc(p, k));
  }

  lemma CompilesMeans(p: GP.Program, scs: seq<Scope>, k: nat)
    requires Compiles(p, scs, k)
    ensures CS.FuncFits(p, scs, k) && O.OptimizeProg(GP.Generate(p)).Some?
  {
    hide CS.FuncFits, O.OptimizeProg, GP.Generate;
  }

  lemma PinkieFuncIs(p: GP.Program, k: nat)
    requires O.OptimizeProg(GP.Generate(p)).Some? && k < |O.OptimizeProg(GP.Generate(p)).value.funcs|
    ensures PinkieFunc(p, k) == O.OptimizeProg(GP.Generate(p)).value.funcs[k]
  {
    hide O.OptimizeProg, GP.Generate;
  }

  lemma CodeReadyIs(p: GP.Program, scs: seq<Scope>, k: nat, env: B.Env, f: P.Func)
    ensures CodeReady(p, scs, k, env, f) <==>
              && BC.FuncReady(env, f.arity, f.code)
              && env.locals == Frames.SlotsOf(f) && env.nSaved == Frames.CalleeSavedHeuristic(f)
              && Frames.SizesOk(f.decl) && f.arity <= 12
              && E.DistinctLabels(f.code) && (forall u :: u in f.code ==> BS.OperatorsOk(u))
  {
    hide BC.FuncReady, Frames.SlotsOf, Frames.CalleeSavedHeuristic, Frames.SizesOk, E.DistinctLabels, BS.OperatorsOk;
  }

  lemma RegisterFuncIs(env: B.Env, f: P.Func)
    requires B.ParamsKnown(env, f.arity) && B.CodeOk(env, f.code)
    ensures RegisterFunc(env, f).code == B.FunctionCode(env, f.arity, f.code) && RegisterFunc(env, f).frame == Frames.FrameOf(f)
    ensures ShortFunc(RegisterFunc(env, f)).code == Peephole.Optimized(B.FunctionCode(env, f.arity, f.code))
    ensures ShortFunc(RegisterFunc(env, f)).frame == Frames.FrameOf(f)
  {
    hide B.FunctionCode, Frames.FrameOf, Peephole.Optimized, B.ParamsKnown, B.CodeOk;
  }

  /** The register code and its shortened form are fit for the next stages. */
  lemma RegisterCodeFits(p: GP.Program, scs: seq<Scope>, k: nat, env: B.Env, f: P.Func)
    requires CodeReady(p, scs, k, env, f)
    ensures B.ParamsKnown(env, f.arity) && B.CodeOk(env, f.code)
    ensures var code := RegisterFunc(env, f).code;
            && PC.ZeroFree(code) && PC.DistinctLabels(code) && CC.CodePlain(ShortFunc(RegisterFunc(env, f)).code)
  {
    hide *;
    CodeReadyIs(p, scs, k, env, f);
    BC.ReadyFunc(env, f.arity, f.code);
    RegisterFuncIs(env, f);
    BS.CodeFine(env, f.arity, f.code);
    BS.FunctionLabels(env, f.arity, f.code);
    BS.FinePlain(RegisterFunc(env, f).code);
    BS.OptimizedFine(RegisterFunc(env, f).code);
    BS.FinePlain(ShortFunc(RegisterFunc(env, f)).code);
  }

  lemma StackIs(env: B.Env, f: P.Func)
    requires B.ParamsKnown(env, f.arity) && B.CodeOk(env, f.code)
    ensures Frames.StackSize(ShortFunc(RegisterFunc(env, f)).frame) == StackOf(f)
  {
    RegisterFuncIs(env, f);
    hide B.ParamsKnown, B.CodeOk, RegisterFunc, ShortFunc, Frames.FrameOf, Frames.StackSize;
  }

  /** From Pinkie code to machine code. */
  lemma BackRuns(p: GP.Program, scs: seq<Scope>, k: nat, env: B.Env, f: P.Func, x: Setting, st: Store, r: G.State, n: nat)
    returns (m: nat, t: D.State, t': D.State)
    requires CodeReady(p, scs, k, env, f) && SettingOk(env, f, x) && AtEntry(f, x, st, r)
    requires P.Run(f.code, x.c, Ast.AsState(st, []), n).status.Returned?
    ensures B.ParamsKnown(env, f.arity) && B.CodeOk(env, f.code)
    ensures R.CodeEncodable(ShortFunc(RegisterFunc(env, f)).code)
    ensures BC.Finished(x.c, x.d, x.saves, P.Run(f.code, x.c, Ast.AsState(st, []), n), t)
    ensures PC.Alike(RegisterFunc(env, f).code, t, t')
    ensures CC.Left(x.d, x.g, StackOf(f), x.w, t', G.Run(R.ConvertFunc(ShortFunc(RegisterFunc(env, f))).code, x.g, r, m))
  {
    hide *;
    CodeReadyIs(p, scs, k, env, f);
    RegisterCodeFits(p, scs, k, env, f);
    RegisterFuncIs(env, f);
    StackIs(env, f);
    var s, t0 := Ast.AsState(st, []), AsDashie(f, x, r);
    var d3, d4 := RegisterFunc(env, f), ShortFunc(RegisterFunc(env, f));
    SettingMeans(env, f, x);
    RegisterEntered(env, f, x, st, r);
    var k3 := BC.BackendCorrect(env, f.arity, f.code, x.c, x.d, x.saves, s, t0, n);
    t := D.Run(d3.code, x.d, t0, k3);
    FinishedParts(x.c, x.d, x.saves, P.Run(f.code, x.c, s, n), t);
    RegisterState(f, x, r);
    var k4 := PC.PeepholeCorrect(d3.code, x.d, t0, k3);
    t' := D.Run(d4.code, x.d, t0, k4);
    MachineLinked(env, f, x);
    MachineEntered(f, x, st, r);
    m := CC.RiscvCorrect(x.d, x.g, x.w, FrameOffsets(f), d4, t0, r, k4);
  }

  // ----- the front end -----

  lemma SourceFunc(p: GP.Program, scs: seq<Scope>, k: nat)
    requires GP.ProgramScoped(p, scs) && k <= |p.funcs|
    ensures |GP.Generate(p).funcs| == |p.funcs| + 1
    ensures var b := GP.CountersAt(p, k); GP.Generate(p).funcs[k].code == GE.GenFunction(GP.SourceOf(p, k), b.0, b.1).code
    ensures E.DistinctLabels(GP.Generate(p).funcs[k].code)
    ensures forall u :: u in GP.Generate(p).funcs[k].code ==> O.EeyoreShape(u)
  {
    hide *;
    GP.GenerateLength(p);
    GP.GeneratedWellFormed(p, scs, k);
    ScopesCount(p, scs);
    CS.WellFormedMeans(scs[k], GP.Generate(p).funcs[k], GP.CountersAt(p, k), GP.CountersAt(p, k + 1));
    var a, b := GP.CountersAt(p, k), GP.CountersAt(p, k + 1);
    CS.TidyFacts(scs[k], GP.Generate(p).funcs[k].code, {}, a.1, b.1, a.0, b.0);
    CS.FramedMeans(GP.Generate(p).funcs[k].code);
    GeneratedAt(p, k);
  }

  lemma ScopesCount(p: GP.Program, scs: seq<Scope>)
    requires GP.ProgramScoped(p, scs)
    ensures |scs| == |p.funcs| + 1
  {
    hide ExprScoped, StmtScoped, Named;
  }

  lemma GeneratedAt(p: GP.Program, k: nat)
    requires k <= |p.funcs|
    ensures |GP.Generate(p).funcs| == |p.funcs| + 1
    ensures var b := GP.CountersAt(p, k); GP.Generate(p).funcs[k].code == GE.GenFunction(GP.SourceOf(p, k), b.0, b.1).code
  {
    hide GP.GenFuncs, GP.GenGlobals, GE.GenFunction, GP.Initializer;
    var g := GP.GenGlobals(p.globals);
    GP.GenerateLength(p);
    if k == 0 {
      GP.InitializerIs(p);
    } else {
      GP.GenFuncsAt(p.funcs, g.temps, g.labels, k - 1);
    }
  }

  lemma JumpsOnLiterals(code: seq<P.Unit>)
    requires forall u :: u in code ==> O.EeyoreShape(u)
    ensures P.JumpsCompareLiterals(code)
  {
  }

  /** What the source function needs: it is well typed, and its store is one of named variables. */
  ghost predicate SourceOk(p: GP.Program, k: nat, x: Setting, st: Store)
    requires k <= |p.funcs|
  {
    GF.FunctionOk(x.c, GP.SourceOf(p, k)) && GF.StoreOk(st)
  }

  lemma SourceMeans(p: GP.Program, k: nat, x: Setting, st: Store)
    requires k <= |p.funcs| && SourceOk(p, k, x, st)
    ensures GF.FunctionOk(x.c, GP.SourceOf(p, k)) && GF.StoreOk(st) && P.ContextOk(x.c)
  {
    hide Ast.StmtOk;
  }

  lemma FinishesMeans(code: seq<P.Unit>, c: P.Context, s: P.State, n: nat, o: Ast.Outcome, fuel: nat)
    requires GF.Finishes(code, c, s, n, o, fuel)
    ensures o.Done? ==> o.exit.Ret? && GS.Stopped(code, c, s, n, o.exit.val, o.st)
    ensures o.OutOfFuel? ==> n >= fuel && P.Run(code, c, s, n).status == P.Running
  {
    hide GS.Stopped, P.Run;
  }

  /** The optimised Pinkie code of a source function returns what the function means. */
  lemma FrontRuns(p: GP.Program, scs: seq<Scope>, k: nat, x: Setting, st: Store, fuel: nat)
    returns (s: P.State, n: nat)
    requires Compiles(p, scs, k) && k <= |p.funcs| && SourceOk(p, k, x, st)
    requires GF.Meaning(x.c, GP.SourceOf(p, k), st, fuel).Done?
    ensures |O.OptimizeProg(GP.Generate(p)).value.funcs| == |p.funcs| + 1
    ensures var o := GF.Meaning(x.c, GP.SourceOf(p, k), st, fuel);
            && o.exit.Ret? && s.status == P.Returned(o.exit.val) && s.mem == o.st.mem && s.trace == o.st.trace
            && (forall q :: q in s.env && !q.Temp? ==> q in o.st.vars && s.env[q] == o.st.vars[q])
    ensures P.Observe(P.Run(PinkieFunc(p, k).code, x.c, Ast.AsState(st, []), n)) == P.Observe(s)
  {
    hide *;
    CompilesMeans(p, scs, k);
    CS.FitsMeans(p, scs, k);
    SourceMeans(p, k, x, st);
    SourceFunc(p, scs, k);
    var b, o := GP.CountersAt(p, k), GF.Meaning(x.c, GP.SourceOf(p, k), st, fuel);
    var code, s0 := GP.Generate(p).funcs[k].code, Ast.AsState(st, []);
    var n1 := GF.FunctionCorrect(x.c, GP.SourceOf(p, k), b.0, b.1, st, fuel);
    FinishesMeans(code, x.c, s0, n1, o, fuel);
    StoppedParts(code, x.c, s0, n1, o.exit.val, o.st);
    s := P.Run(code, x.c, s0, n1);
    CompiledCode(p, scs, k);
    var rn := O.OptimizedFunc(GP.Generate(p), k);
    PinkieFuncIs(p, k);
    JumpsOnLiterals(code);
    GF.EntryRepresents(st);
    n := O.OptimizeCorrect(rn, code, x.c, s0, n1);
  }

  /** The stages fit together for function `k`. */
  ghost predicate Encoded(p: GP.Program, k: nat) {
    && O.OptimizeProg(GP.Generate(p)).Some? && k < |O.OptimizeProg(GP.Generate(p)).value.funcs|
    && B.ParamsKnown(CS.EnvAt(p, k), PinkieFunc(p, k).arity) && B.CodeOk(CS.EnvAt(p, k), PinkieFunc(p, k).code)
    && R.CodeEncodable(ShortFunc(RegisterFunc(CS.EnvAt(p, k), PinkieFunc(p, k))).code)
  }

  /** The machine code of function `k`. */
  ghost function MachineCode(p: GP.Program, k: nat): seq<G.Unit> {
    if Encoded(p, k) then R.ConvertFunc(ShortFunc(RegisterFunc(CS.EnvAt(p, k), PinkieFunc(p, k)))).code else []
  }

  /** Function `k` is about to be called: the program compiles, the function is well
      typed, and the machine holds the store. */
  ghost predicate Called(p: GP.Program, scs: seq<Scope>, k: nat, x: Setting, st: Store, r: G.State) {
    && k <= |p.funcs| && Compiles(p, scs, k) && GF.FunctionOk(x.c, GP.SourceOf(p, k)) && GF.StoreOk(st)
    && k < |O.OptimizeProg(GP.Generate(p)).value.funcs|
    && SettingOk(CS.EnvAt(p, k), PinkieFunc(p, k), x) && AtEntry(PinkieFunc(p, k), x, st, r)
  }

  lemma CalledMeans(p: GP.Program, scs: seq<Scope>, k: nat, x: Setting, st: Store, r: G.State)
    requires Called(p, scs, k, x, st, r)
    ensures k <= |p.funcs| && Compiles(p, scs, k) && SourceOk(p, k, x, st)
    ensures O.OptimizeProg(GP.Generate(p)).Some? && k < |O.OptimizeProg(GP.Generate(p)).value.funcs|
    ensures SettingOk(CS.EnvAt(p, k), PinkieFunc(p, k), x) && AtEntry(PinkieFunc(p, k), x, st, r)
  {
    hide GP.Generate, O.OptimizeProg, CS.FuncFits, SettingOk, AtEntry, CS.EnvAt, PinkieFunc, GF.FunctionOk, GF.StoreOk;
  }

  lemma EncodedIs(p: GP.Program, scs: seq<Scope>, k: nat)
    requires Compiles(p, scs, k)
    ensures k <= |p.funcs| && Encoded(p, k)
  {
    CompiledCode(p, scs, k);
    RegisterCodeFits(p, scs, k, CS.EnvAt(p, k), PinkieFunc(p, k));
    CC.PlainEncodable(ShortFunc(RegisterFunc(CS.EnvAt(p, k), PinkieFunc(p, k))).code);
    hide GP.Generate, O.OptimizeProg, CS.FuncFits, CS.EnvAt, PinkieFunc, ShortFunc, RegisterFunc, CC.CodePlain, R.CodeEncodable,
         B.ParamsKnown, B.CodeOk, CodeReady, PC.ZeroFree, PC.DistinctLabels;
  }

  lemma EncodedMeans(p: GP.Program, k: nat)
    requires Encoded(p, k)
    ensures O.OptimizeProg(GP.Generate(p)).Some? && k < |O.OptimizeProg(GP.Generate(p)).value.funcs|
    ensures B.ParamsKnown(CS.EnvAt(p, k), PinkieFunc(p, k).arity) && B.CodeOk(CS.EnvAt(p, k), PinkieFunc(p, k).code)
    ensures R.CodeEncodable(ShortFunc(RegisterFunc(CS.EnvAt(p, k), PinkieFunc(p, k))).code)
    ensures MachineCode(p, k) == R.ConvertFunc(ShortFunc(RegisterFunc(CS.EnvAt(p, k), PinkieFunc(p, k)))).code
  {
    hide R.ConvertFunc, ShortFunc, RegisterFunc, CS.EnvAt, PinkieFunc, O.OptimizeProg, GP.Generate, B.ParamsKnown, B.CodeOk,
         R.CodeEncodable;
  }

  /** The compiler is correct: when a source function, called with a store, means to return a value and
      a store, its RISC-V code, started with that store in registers and memory, returns to its caller
      with that value and that store, having made the same calls. The meaning is that of the code's own
      order of reading, and that from left to right for every call that meets no harmful operation. */
  lemma CompilerCorrect(
    p: GP.Program, scs: seq<Scope>, k: nat, x: Setting, st: Store, r: G.State, fuel: nat, ord: Ast.Reading)
    returns (m: nat)
    requires k <= |p.funcs| && Called(p, scs, k, x, st, r) && GF.Meaning(x.c, GP.SourceOf(p, k), st, fuel, ord).Done?
    requires ord.AtOnce? ==> RO.HarmlessCall(x.c, GP.SourceOf(p, k), st, fuel)
    ensures Encoded(p, k)
    ensures var o := GF.Meaning(x.c, GP.SourceOf(p, k), st, fuel, ord);
            o.exit.Ret? && AtReturn(PinkieFunc(p, k), x, o.exit.val, o.st, G.Run(MachineCode(p, k), x.g, r, m))
  {
    hide *;
    CalledMeans(p, scs, k, x, st, r);
    if ord.AtOnce? {
      RO.MeaningsAgree(x.c, GP.SourceOf(p, k), st, fuel);
    }
    var env, f, o := CS.EnvAt(p, k), PinkieFunc(p, k), GF.Meaning(x.c, GP.SourceOf(p, k), st, fuel, ord);
    var s, n := FrontRuns(p, scs, k, x, st, fuel);
    var s' := P.Run(f.code, x.c, Ast.AsState(st, []), n);
    ObservedParts(s', s);
    SourceMeans(p, k, x, st);
    CompiledCode(p, scs, k);
    EncodedIs(p, scs, k);
    EncodedMeans(p, k);
    var t, t';
    m, t, t' := BackRuns(p, scs, k, env, f, x, st, r, n);
    Returns(f, x, o.exit.val, o.st, s, s', RegisterFunc(env, f).code, t, t', G.Run(MachineCode(p, k), x.g, r, m));
  }

  // ----- functions that do not return -----

  /** A function that uses up any fuel keeps the generated code running. */
  lemma FrontDiverges(p: GP.Program, scs: seq<Scope>, k: nat, x: Setting, st: Store, n: nat)
    requires Compiles(p, scs, k) && k <= |p.funcs| && SourceOk(p, k, x, st)
    requires forall fuel :: GF.Meaning(x.c, GP.SourceOf(p, k), st, fuel).OutOfFuel?
    ensures |GP.Generate(p).funcs| == |p.funcs| + 1
    ensures P.Run(GP.Generate(p).funcs[k].code, x.c, Ast.AsState(st, []), n).status == P.Running
  {
    hide *;
    CompilesMeans(p, scs, k);
    CS.FitsMeans(p, scs, k);
    SourceMeans(p, k, x, st);
    SourceFunc(p, scs, k);
    var b, o := GP.CountersAt(p, k), GF.Meaning(x.c, GP.SourceOf(p, k), st, n);
    var code, s0 := GP.Generate(p).funcs[k].code, Ast.AsState(st, []);
    assert o.OutOfFuel?;
    var n1 := GF.FunctionCorrect(x.c, GP.SourceOf(p, k), b.0, b.1, st, n);
    FinishesMeans(code, x.c, s0, n1, o, n);
    if P.Run(code, x.c, s0, n).status != P.Running {
      P.RunStopped(code, x.c, s0, n, n1);
    }
  }

  lemma OptimizedDiverges(p: GP.Program, scs: seq<Scope>, k: nat, x: Setting, st: Store, n: nat)
    requires Compiles(p, scs, k) && k <= |p.funcs| && SourceOk(p, k, x, st)
    requires forall fuel :: GF.Meaning(x.c, GP.SourceOf(p, k), st, fuel).OutOfFuel?
    ensures |O.OptimizeProg(GP.Generate(p)).value.funcs| == |p.funcs| + 1
    ensures P.Run(PinkieFunc(p, k).code, x.c, Ast.AsState(st, []), n).status == P.Running
  {
    hide *;
    CompilesMeans(p, scs, k);
    CS.FitsMeans(p, scs, k);
    SourceMeans(p, k, x, st);
    SourceFunc(p, scs, k);
    CompiledCode(p, scs, k);
    var code, s0 := GP.Generate(p).funcs[k].code, Ast.AsState(st, []);
    var rn := O.OptimizedFunc(GP.Generate(p), k);
    PinkieFuncIs(p, k);
    JumpsOnLiterals(code);
    GF.EntryRepresents(st);
    var j := O.OptimizeReflects(rn, code, x.c, s0, n);
    FrontDiverges(p, scs, k, x, st, j);
    ObservedParts(P.Run(PinkieFunc(p, k).code, x.c, s0, n), P.Run(code, x.c, s0, j));
  }

  lemma SimRunning(env: B.Env, f: P.Func, x: Setting, s: P.State, t: D.State)
    requires B.ParamsKnown(env, f.arity) && B.CodeOk(env, f.code)
    requires BC.Sim(env, f.arity, f.code, x.c, x.d, x.saves, s, t)
    ensures t.status == D.Running
  {
    BC.SimRuns(env, f.arity, f.code, x.c, x.d, x.saves, s, t);
    BC.AgreesRuns(env, x.c, x.d, x.saves, s, t);
    hide *;
  }

  /** The register code runs on while the Pinkie code does. */
  lemma RegisterDiverges(p: GP.Program, scs: seq<Scope>, k: nat, env: B.Env, f: P.Func, x: Setting, st: Store, r: G.State, n: nat)
    requires CodeReady(p, scs, k, env, f) && SettingOk(env, f, x) && AtEntry(f, x, st, r)
    requires forall j :: P.Run(f.code, x.c, Ast.AsState(st, []), j).status == P.Running
    ensures B.ParamsKnown(env, f.arity) && B.CodeOk(env, f.code)
    ensures D.Run(RegisterFunc(env, f).code, x.d, AsDashie(f, x, r), n).status == D.Running
  {
    hide *;
    CodeReadyIs(p, scs, k, env, f);
    RegisterCodeFits(p, scs, k, env, f);
    RegisterFuncIs(env, f);
    var s, t0, dcode := Ast.AsState(st, []), AsDashie(f, x, r), RegisterFunc(env, f).code;
    SettingMeans(env, f, x);
    RegisterEntered(env, f, x, st, r);
    assert P.Run(f.code, x.c, s, n).status == P.Running;
    var k3 := BC.BackendCorrect(env, f.arity, f.code, x.c, x.d, x.saves, s, t0, n);
    SimRunning(env, f, x, P.Run(f.code, x.c, s, n), D.Run(dcode, x.d, t0, k3));
    if D.Run(dcode, x.d, t0, n).status != D.Running {
      D.RunStopped(dcode, x.d, t0, n, k3);
    }
  }

  /** And so does the machine code. */
  lemma MachineDiverges(p: GP.Program, scs: seq<Scope>, k: nat, env: B.Env, f: P.Func, x: Setting, st: Store, r: G.State, n: nat)
    requires CodeReady(p, scs, k, env, f) && SettingOk(env, f, x) && AtEntry(f, x, st, r)
    requires forall j :: P.Run(f.code, x.c, Ast.AsState(st, []), j).status == P.Running
    ensures B.ParamsKnown(env, f.arity) && B.CodeOk(env, f.code)
    ensures R.CodeEncodable(ShortFunc(RegisterFunc(env, f)).code)
    ensures G.Run(R.ConvertFunc(ShortFunc(RegisterFunc(env, f))).code, x.g, r, n).status == G.Running
  {
    hide *;
    CodeReadyIs(p, scs, k, env, f);
    RegisterCodeFits(p, scs, k, env, f);
    RegisterFuncIs(env, f);
    StackIs(env, f);
    RegisterState(f, x, r);
    var t0, d3, d4 := AsDashie(f, x, r), RegisterFunc(env, f), ShortFunc(RegisterFunc(env, f));
    forall j: nat ensures D.Run(d3.code, x.d, t0, j).status != D.Stuck {
      RegisterDiverges(p, scs, k, env, f, x, st, r, j);
    }
    var j := PC.PeepholeReflects(d3.code, x.d, t0, n);
    RegisterDiverges(p, scs, k, env, f, x, st, r, j);
    MachineLinked(env, f, x);
    MachineEntered(f, x, st, r);
    CC.PlainEncodable(d4.code);
    var m := CC.RiscvCorrect(x.d, x.g, x.w, FrameOffsets(f), d4, t0, r, n);
    if G.Run(R.ConvertFunc(d4).code, x.g, r, n).status != G.Running {
      G.RunStopped(R.ConvertFunc(d4).code, x.g, r, n, m);
    }
  }

  /** A function that never finishes has code that never stops. */
  lemma CompilerDiverges(
    p: GP.Program, scs: seq<Scope>, k: nat, x: Setting, st: Store, r: G.State, n: nat, ord: Ast.Reading)
    requires k <= |p.funcs| && Called(p, scs, k, x, st, r)
    requires forall fuel :: GF.Meaning(x.c, GP.SourceOf(p, k), st, fuel, ord).OutOfFuel?
    requires ord.AtOnce? ==> forall fuel :: RO.HarmlessCall(x.c, GP.SourceOf(p, k), st, fuel)
    ensures Encoded(p, k) && G.Run(MachineCode(p, k), x.g, r, n).status == G.Running
  {
    hide *;
    CalledMeans(p, scs, k, x, st, r);
    CompiledCode(p, scs, k);
    EncodedIs(p, scs, k);
    EncodedMeans(p, k);
    var code, s0 := PinkieFunc(p, k).code, Ast.AsState(st, []);
    forall fuel: nat ensures GF.Meaning(x.c, GP.SourceOf(p, k), st, fuel).OutOfFuel? {
      assert GF.Meaning(x.c, GP.SourceOf(p, k), st, fuel, ord).OutOfFuel?;
      if ord.AtOnce? {
        RO.MeaningsAgree(x.c, GP.SourceOf(p, k), st, fuel);
      }
    }
    forall j: nat ensures P.Run(code, x.c, s0, j).status == P.Running {
      OptimizedDiverges(p, scs, k, x, st, j);
    }
    MachineDiverges(p, scs, k, CS.EnvAt(p, k), PinkieFunc(p, k), x, st, r, n);
  }
}
