/** Every call of every compiled function can be started: machines at its entry exist, with room for all the
    arrays that the source declares. */
module Starting {
  import opened Words
  import opened Wrappers
  import P = Pinkie
  import Ast
  import GE = GenEeyore
  import GF = GenFunctionCorrect
  import opened GenStatic
  import GP = GenProgram
  import O = Optimize
  import Frames
  import B = Backend
  import BC = BackendCorrect
  import D = Dashie
  import G = Glimmy
  import R = RiscvOutput
  import CC = ConvertCorrect
  import CS = CompileStatic
  import Declared
  import opened EndToEnd

  // ----- the caller's arrangements -----

  /** Where the globals are: each has an address, and no two scalars share one. */
  ghost predicate Placed(env: B.Env, place: map<int, Word>) {
    && (forall o :: o in env.globals ==> env.globals[o].id in place)
    && (forall o, q ::
          (o in env.globals && q in env.globals && env.globals[o].length == 0 && env.globals[q].length == 0
           && place[env.globals[o].id] == place[env.globals[q].id])
          ==> o == q)
  }

  ghost function Cells(env: B.Env, place: map<int, Word>): map<P.Operand, Word>
    requires Placed(env, place)
  {
    map o | o in env.globals && env.globals[o].length == 0 :: place[env.globals[o].id]
  }

  ghost function OwnerOf(cells: map<P.Operand, Word>, a: Word): (o: P.Operand)
    requires a in cells.Values
    ensures o in cells && cells[o] == a
  {
    var o :| o in cells && cells[o] == a;
    o
  }

  ghost function Owners(cells: map<P.Operand, Word>): map<Word, P.Operand> {
    map a | a in cells.Values :: OwnerOf(cells, a)
  }

  /** Global arrays are where they are placed, local ones at their offset in the frame. */
  ghost function Arrays(env: B.Env, place: map<int, Word>, sp: Word): map<P.Operand, Word>
    requires Placed(env, place)
  {
    map o | o in env.globals.Keys + env.locals.Keys
            && (if o in env.globals then env.globals[o].length != 0 else env.locals[o].len != 0)
      :: if o in env.globals then place[env.globals[o].id] else Wrap(sp + env.locals[o].offset)
  }

  /** How the caller has arranged things: the addresses of the globals, all words of shared data, its stack
      pointer, return address and callee-saved registers, and what callees do. */
  datatype Caller = Caller(
    place: map<int, Word>, data: set<Word>, sp: Word, ra: Word, saves: seq<Word>,
    arity: string -> nat, world: seq<P.Event> -> P.Effect, clobber: (seq<P.Event>, D.Reg) -> Word)

  ghost function SourceContext(env: B.Env, f: P.Func, w: Caller): P.Context
    requires Placed(env, w.place)
  {
    P.Context(Arrays(env, w.place, Wrap(w.sp - StackOf(f))), Cells(env, w.place).Keys, w.arity, w.world)
  }

  ghost function RegisterContext(env: B.Env, f: P.Func, w: Caller): D.Context
    requires Placed(env, w.place)
  {
    var cells := Cells(env, w.place);
    D.Context(Wrap(w.sp - StackOf(f)), w.place, cells, Owners(cells), w.arity, w.world, w.clobber)
  }

  ghost function MachineContext(d: D.Context, data: set<Word>): G.Context {
    G.Context(d, data, (trace: seq<P.Event>, q: G.Reg) => d.clobber(trace, DashieReg(q)))
  }

  /** The shared data: it holds the cells, and lies in the frame only where local arrays do. */
  ghost predicate DataFits(env: B.Env, f: P.Func, w: Caller)
    requires Placed(env, w.place)
  {
    && Cells(env, w.place).Values <= w.data
    && forall off :: 0 <= off < StackOf(f) && CC.SlotAddress(RegisterContext(env, f, w), off) in w.data ==>
         exists o :: o in Frames.SlotsOf(f) && Frames.SlotsOf(f)[o].len != 0
                     && Frames.SlotsOf(f)[o].offset <= off < Frames.SlotsOf(f)[o].offset + Frames.SlotsOf(f)[o].len
  }

  /** A store of the globals, the parameters and every array word there is. */
  ghost predicate StoreFits(env: B.Env, f: P.Func, w: Caller, st: Store)
    requires Placed(env, w.place)
  {
    && st.mem.Keys == w.data - Cells(env, w.place).Values
    && (forall o :: o in st.vars <==> o in Cells(env, w.place) || (o.Param? && 0 <= o.id < f.arity))
  }

  ghost function FrameWords(d: D.Context, stk: nat): set<Word> {
    if stk == 0 then {} else FrameWords(d, stk - 1) + {CC.SlotAddress(d, stk - 1)}
  }

  lemma {:induction false} FrameWordsAre(d: D.Context, stk: nat, off: nat)
    requires off < stk
    ensures CC.SlotAddress(d, off) in FrameWords(d, stk)
  {
    hide CC.SlotAddress;
    if off < stk - 1 {
      FrameWordsAre(d, stk - 1, off);
    }
  }

  ghost function ArgumentRegs(args: seq<Word>): map<G.Reg, Word> {
    if args == [] then map[] else ArgumentRegs(args[..|args| - 1])[G.AbiArgument(|args| - 1) := args[|args| - 1]]
  }

  lemma {:induction false} ArgumentRegsAre(args: seq<Word>, i: nat)
    requires i < |args|
    ensures G.AbiArgument(i) in ArgumentRegs(args) && ArgumentRegs(args)[G.AbiArgument(i)] == args[i]
  {
    if i < |args| - 1 {
      ArgumentRegsAre(args[..|args| - 1], i);
    }
  }

  ghost function SaveRegs(saves: seq<Word>): map<G.Reg, Word> {
    if saves == [] then map[] else SaveRegs(saves[..|saves| - 1])[G.S(|saves| - 1) := saves[|saves| - 1]]
  }

  lemma {:induction false} SaveRegsAre(saves: seq<Word>, i: nat)
    requires i < |saves|
    ensures G.S(i) in SaveRegs(saves) && SaveRegs(saves)[G.S(i)] == saves[i]
  {
    if i < |saves| - 1 {
      SaveRegsAre(saves[..|saves| - 1], i);
    }
  }

  lemma {:induction false} SaveRegsOnly(saves: seq<Word>)
    ensures forall q :: q in SaveRegs(saves) ==> q.S?
  {
    if saves != [] {
      SaveRegsOnly(saves[..|saves| - 1]);
    }
  }

  ghost function EntryRegs(arity: nat, w: Caller, st: Store): map<G.Reg, Word>
    requires forall i :: 0 <= i < arity ==> P.Param(i) in st.vars
  {
    ArgumentRegs(seq(arity, i requires 0 <= i < arity => st.vars[P.Param(i)])) + SaveRegs(w.saves)
    + map[G.Sp := w.sp, G.Ra := w.ra]
  }

  lemma EntryRegsAre(arity: nat, w: Caller, st: Store)
    requires |w.saves| == 12 && forall i :: 0 <= i < arity ==> P.Param(i) in st.vars
    ensures var regs := EntryRegs(arity, w, st);
            && (forall i :: 0 <= i < arity ==> G.AbiArgument(i) in regs && regs[G.AbiArgument(i)] == st.vars[P.Param(i)])
            && (forall i :: 0 <= i < 12 ==> G.S(i) in regs && regs[G.S(i)] == w.saves[i])
            && G.Sp in regs && regs[G.Sp] == w.sp && G.Ra in regs && regs[G.Ra] == w.ra
  {
    var args := seq(arity, i requires 0 <= i < arity => st.vars[P.Param(i)]);
    SaveRegsOnly(w.saves);
    var regs := EntryRegs(arity, w, st);
    forall i: nat | i < arity ensures G.AbiArgument(i) in regs && regs[G.AbiArgument(i)] == st.vars[P.Param(i)] {
      ArgumentRegsAre(args, i);
      assert G.AbiArgument(i).A? || G.AbiArgument(i).T?;
    }
    forall i: nat | i < 12 ensures G.S(i) in regs && regs[G.S(i)] == w.saves[i] {
      SaveRegsAre(w.saves, i);
    }
    hide ArgumentRegs, SaveRegs;
  }

  /** Memory that holds the store, and a frame's worth of words besides. */
  ghost function EntryMemory(cells: map<P.Operand, Word>, data: set<Word>, frame: set<Word>, st: Store): map<Word, Word> {
    map a | a in data + frame ::
      if a in cells.Values && OwnerOf(cells, a) in st.vars then st.vars[OwnerOf(cells, a)]
      else if a in st.mem then st.mem[a]
      else 0
  }

  lemma CellsOwned(cells: map<P.Operand, Word>)
    requires forall o, q :: o in cells && q in cells && cells[o] == cells[q] ==> o == q
    ensures var owner := Owners(cells);
            && (forall o :: o in cells ==> cells[o] in owner && owner[cells[o]] == o)
            && (forall a :: a in owner ==> owner[a] in cells && cells[owner[a]] == a)
  {
    forall o | o in cells ensures cells[o] in Owners(cells) && Owners(cells)[cells[o]] == o {
      assert cells[o] in cells.Values;
    }
  }

  lemma ContextsLinked(env: B.Env, f: P.Func, w: Caller)
    requires Placed(env, w.place) && P.ContextOk(SourceContext(env, f, w))
    ensures BC.Linked(SourceContext(env, f, w), RegisterContext(env, f, w), env)
  {
    hide StackOf, Wrap, Owners;
    CellsApart(env, w.place);
    CellsOwned(Cells(env, w.place));
  }

  ghost function EntrySetting(env: B.Env, f: P.Func, w: Caller, st: Store): Setting
    requires Placed(env, w.place)
  {
    var d := RegisterContext(env, f, w);
    var mem := EntryMemory(d.cells, w.data, FrameWords(d, if StackOf(f) > 0 then StackOf(f) else 0), st);
    Setting(SourceContext(env, f, w), d, MachineContext(d, w.data), CC.Caller(w.sp, w.ra, mem), w.saves)
  }

  ghost function EntryMachine(env: B.Env, f: P.Func, w: Caller, st: Store): G.State
    requires Placed(env, w.place) && StoreFits(env, f, w, st)
  {
    G.State(0, EntryRegs(f.arity, w, st), EntrySetting(env, f, w, st).w.mem, st.trace, G.Running)
  }

  lemma SettingFits(env: B.Env, f: P.Func, w: Caller, st: Store)
    requires Placed(env, w.place) && P.ContextOk(SourceContext(env, f, w)) && DataFits(env, f, w)
    requires StackOf(f) < 0x8000_0000 && |w.saves| == 12
    ensures SettingOk(env, f, EntrySetting(env, f, w, st))
  {
    ContextsLinked(env, f, w);
    var x := EntrySetting(env, f, w, st);
    forall o | o in x.d.cells ensures x.d.cells[o] in x.g.data {
      assert x.d.cells[o] in Cells(env, w.place).Values;
    }
    forall trace, r ensures x.d.clobber(trace, r) == x.g.clobber(trace, R.RegOf(r)) {
      RegBack(r);
    }
    hide StackOf, Wrap, BC.Linked, FrameWords, EntryMemory, CC.SlotAddress, R.RegOf, DashieReg, SourceContext;
  }

  lemma RegBack(r: D.Reg)
    ensures DashieReg(R.RegOf(r)) == r
  {
  }

  lemma EntryMemoryIs(cells: map<P.Operand, Word>, data: set<Word>, frame: set<Word>, st: Store)
    requires st.mem.Keys == data - cells.Values && cells.Values <= data
    requires (forall o :: o in cells ==> o in st.vars) && forall o, q :: o in cells && q in cells && cells[o] == cells[q] ==> o == q
    ensures var mem := EntryMemory(cells, data, frame, st);
            && (forall o :: o in cells ==> cells[o] in mem && mem[cells[o]] == st.vars[o])
            && (forall a :: a in mem && a in data && a !in cells.Values <==> a in st.mem)
            && (forall a :: a in st.mem ==> mem[a] == st.mem[a])
  {
    forall o | o in cells ensures cells[o] in EntryMemory(cells, data, frame, st) && EntryMemory(cells, data, frame, st)[cells[o]] == st.vars[o] {
      assert cells[o] in cells.Values;
      assert OwnerOf(cells, cells[o]) == o;
    }
  }

  lemma CellsApart(env: B.Env, place: map<int, Word>)
    requires Placed(env, place)
    ensures forall o, q :: o in Cells(env, place) && q in Cells(env, place) && Cells(env, place)[o] == Cells(env, place)[q] ==> o == q
  {
  }

  lemma EntryParts(env: B.Env, f: P.Func, w: Caller, st: Store)
    requires Placed(env, w.place)
    ensures var x, cells := EntrySetting(env, f, w, st), Cells(env, w.place);
            && x.d.cells == cells && x.d.owner.Keys == cells.Values && x.c.globals == cells.Keys && x.g.data == w.data
            && exists frame :: x.w.mem == EntryMemory(cells, w.data, frame, st)
  {
    hide StackOf, Wrap, FrameWords, EntryMemory, Arrays, Cells, Placed, OwnerOf;
    var x := EntrySetting(env, f, w, st);
    assert x.w.mem == EntryMemory(Cells(env, w.place), w.data, FrameWords(x.d, if StackOf(f) > 0 then StackOf(f) else 0), st);
  }

  lemma StoreMeans(env: B.Env, f: P.Func, w: Caller, st: Store)
    requires Placed(env, w.place) && StoreFits(env, f, w, st) && DataFits(env, f, w)
    ensures st.mem.Keys == w.data - Cells(env, w.place).Values && Cells(env, w.place).Values <= w.data
    ensures forall o :: o in Cells(env, w.place) ==> o in st.vars
  {
    hide Cells, Placed, StackOf, CC.SlotAddress, RegisterContext, Frames.SlotsOf;
  }

  /** Memory holds a store if its data consists of the cells with the globals and the words of the arrays. */
  lemma HoldsFrom(x: Setting, st: Store, r: G.State)
    requires r.trace == st.trace && x.c.globals == x.d.cells.Keys && x.d.owner.Keys == x.d.cells.Values
    requires forall o :: o in x.d.cells ==> o in st.vars && x.d.cells[o] in r.mem && r.mem[x.d.cells[o]] == st.vars[o]
    requires forall a :: a in r.mem && a in x.g.data && a !in x.d.cells.Values <==> a in st.mem
    requires forall a :: a in st.mem ==> r.mem[a] == st.mem[a]
    ensures HoldsStore(x, st, r)
  {
    var view := D.ArraysView(x.d, G.Data(x.g, r.mem));
    assert forall a :: a in view <==> a in st.mem;
    assert view == st.mem;
  }

  lemma MemoryHolds(env: B.Env, f: P.Func, w: Caller, st: Store, r: G.State)
    requires Placed(env, w.place) && StoreFits(env, f, w, st) && DataFits(env, f, w)
    requires r.mem == EntrySetting(env, f, w, st).w.mem && r.trace == st.trace
    ensures HoldsStore(EntrySetting(env, f, w, st), st, r)
  {
    hide *;
    var x, cells := EntrySetting(env, f, w, st), Cells(env, w.place);
    CellsApart(env, w.place);
    EntryParts(env, f, w, st);
    StoreMeans(env, f, w, st);
    var frame :| x.w.mem == EntryMemory(cells, w.data, frame, st);
    EntryMemoryIs(cells, w.data, frame, st);
    HoldsFrom(x, st, r);
  }

  lemma MachineFits(env: B.Env, f: P.Func, w: Caller, st: Store)
    requires Placed(env, w.place) && StoreFits(env, f, w, st) && DataFits(env, f, w)
    requires f.arity <= 12 && |w.saves| == 12 && Frames.SizesOk(f.decl)
    ensures AtEntry(f, EntrySetting(env, f, w, st), st, EntryMachine(env, f, w, st))
  {
    hide StackOf, CC.SlotAddress, FrameOffsets, FrameWords, EntryRegs, G.AbiArgument, HoldsStore, Frames.SizesOk, Wrap, Owners,
         DataFits, Cells, Arrays;
    StackAbove(f);
    EntryRegsAre(f.arity, w, st);
    var x, r := EntrySetting(env, f, w, st), EntryMachine(env, f, w, st);
    forall off | off in FrameOffsets(f) ensures CC.SlotAddress(x.d, off) in r.mem {
      OffsetInFrame(f, off);
      FrameWordsAre(x.d, StackOf(f), off);
    }
    FrameWordsAre(x.d, StackOf(f), StackOf(f) - 4);
    MemoryHolds(env, f, w, st, r);
  }

  // ----- room for the arrays -----

  /** The bytes of an array: those of its global or of its slot. */
  ghost function Bytes(env: B.Env, o: P.Operand): int {
    if o in env.globals then env.globals[o].length else if o in env.locals then env.locals[o].len else 0
  }

  /** The word of element `i` of what is at `base`. */
  ghost function ElementAt(base: Word, i: int): Word {
    Wrap(base + 4 * i)
  }

  /** All words of all arrays. */
  ghost function ArrayWords(env: B.Env, arrays: map<P.Operand, Word>): set<Word> {
    set o, i | o in arrays && 0 <= i < Bytes(env, o) / 4 :: ElementAt(arrays[o], i)
  }

  ghost function AllWords(env: B.Env, f: P.Func, w: Caller): set<Word>
    requires Placed(env, w.place)
  {
    Cells(env, w.place).Values + ArrayWords(env, SourceContext(env, f, w).arrays)
  }

  /** The globals are outside the frame, and scalars outside the arrays. */
  ghost predicate Apart(env: B.Env, f: P.Func, w: Caller)
    requires Placed(env, w.place)
  {
    && (forall o, i, off ::
          (o in env.globals && (i == 0 || 0 <= i < env.globals[o].length / 4) && 0 <= off < StackOf(f))
          ==> ElementAt(w.place[env.globals[o].id], i) != CC.SlotAddress(RegisterContext(env, f, w), off))
    && (forall o, q, i ::
          (o in Cells(env, w.place) && q in env.globals && 0 <= i < env.globals[q].length / 4)
          ==> ElementAt(w.place[env.globals[q].id], i) != Cells(env, w.place)[o])
  }

  lemma SameOffset(sp: Word, a: int, b: int)
    requires 0 <= a < 0x1_0000_0000 && 0 <= b < 0x1_0000_0000 && Wrap(sp + a) == Wrap(sp + b)
    ensures a == b
  {
    var j := WrapWitness(sp + a);
    var k := WrapWitness(sp + b);
    assert a - b == (j - k) * 0x1_0000_0000;
  }

  lemma ElementInFrame(sp: Word, offset: int, i: int)
    ensures ElementAt(Wrap(sp + offset), i) == Wrap(sp + (offset + 4 * i))
  {
    WrapAdd(sp + offset, 4 * i);
  }

  /** A word of a local array is at its offset in the frame, inside the array's slot. */
  lemma LocalWord(env: B.Env, f: P.Func, w: Caller, o: P.Operand, i: int)
    requires Placed(env, w.place) && env.locals == Frames.SlotsOf(f) && Frames.SizesOk(f.decl)
    requires o in SourceContext(env, f, w).arrays && o !in env.globals && 0 <= i < Bytes(env, o) / 4
    ensures o in env.locals && 0 <= env.locals[o].offset <= env.locals[o].offset + 4 * i < env.locals[o].offset + env.locals[o].len
    ensures env.locals[o].offset + env.locals[o].len <= StackOf(f) - 4
    ensures ElementAt(SourceContext(env, f, w).arrays[o], i)
         == CC.SlotAddress(RegisterContext(env, f, w), env.locals[o].offset + 4 * i)
  {
    hide Frames.SlotsOf, Frames.FrameOf, StackOf, Frames.CalleeSavedHeuristic, Wrap, Placed, Cells, Owners;
    Frames.SlotInFrame(f, o);
    StackAbove(f);
    ElementInFrame(Wrap(w.sp - StackOf(f)), env.locals[o].offset, i);
  }

  lemma ArraysAre(env: B.Env, f: P.Func, w: Caller, o: P.Operand)
    requires Placed(env, w.place)
    ensures o in SourceContext(env, f, w).arrays <==>
              if o in env.globals then env.globals[o].length != 0 else o in env.locals && env.locals[o].len != 0
    ensures o in SourceContext(env, f, w).arrays && o in env.globals ==>
              SourceContext(env, f, w).arrays[o] == w.place[env.globals[o].id]
  {
    hide Wrap, StackOf, Cells;
  }

  lemma CellsAre(env: B.Env, place: map<int, Word>, o: P.Operand)
    requires Placed(env, place)
    ensures o in Cells(env, place) <==> o in env.globals && env.globals[o].length == 0
    ensures o in Cells(env, place) ==> env.globals[o].id in place && Cells(env, place)[o] == place[env.globals[o].id]
  {
  }

  /** A word that the shared data has in the frame is one of a local array. */
  lemma FrameDataLocal(env: B.Env, f: P.Func, w: Caller, off: int) returns (o: P.Operand)
    requires Placed(env, w.place) && Apart(env, f, w) && env.locals == Frames.SlotsOf(f) && Frames.SizesOk(f.decl)
    requires 0 <= off < StackOf(f) < 0x8000_0000
    requires CC.SlotAddress(RegisterContext(env, f, w), off) in AllWords(env, f, w)
    ensures o in env.locals && env.locals[o].len != 0 && env.locals[o].offset <= off < env.locals[o].offset + env.locals[o].len
  {
    hide Frames.SlotsOf, StackOf, Placed, Cells, ElementAt, SourceContext, Wrap;
    var a := CC.SlotAddress(RegisterContext(env, f, w), off);
    var cells, arrays := Cells(env, w.place), SourceContext(env, f, w).arrays;
    if a in cells.Values {
      var q :| q in cells && cells[q] == a;
      CellsAre(env, w.place, q);
      ElementZero(w.place[env.globals[q].id]);
    }
    var q, i :| q in arrays && 0 <= i < Bytes(env, q) / 4 && ElementAt(arrays[q], i) == a;
    ArraysAre(env, f, w, q);
    if q !in env.globals {
      LocalWord(env, f, w, q, i);
      SameOffset(Wrap(w.sp - StackOf(f)), off, env.locals[q].offset + 4 * i);
    }
    o := q;
  }

  lemma ElementZero(base: Word)
    ensures ElementAt(base, 0) == base
  {
  }

  /** When all words of all arrays are shared data, the data fits, and no array loses a word to a scalar. */
  lemma RoomFits(env: B.Env, f: P.Func, w: Caller)
    requires Placed(env, w.place) && Apart(env, f, w) && env.locals == Frames.SlotsOf(f) && Frames.SizesOk(f.decl)
    requires 0 <= StackOf(f) < 0x8000_0000 && w.data == AllWords(env, f, w)
    ensures DataFits(env, f, w)
    ensures var arrays := SourceContext(env, f, w).arrays;
            forall o, i :: o in arrays && 0 <= i < Bytes(env, o) / 4 ==>
              ElementAt(arrays[o], i) in w.data && ElementAt(arrays[o], i) !in Cells(env, w.place).Values
  {
    hide Frames.SlotsOf, StackOf, Placed, Cells, ElementAt, SourceContext, Bytes, CC.SlotAddress, RegisterContext;
    forall off | 0 <= off < StackOf(f) && CC.SlotAddress(RegisterContext(env, f, w), off) in w.data
      ensures exists o :: o in env.locals && env.locals[o].len != 0
                          && env.locals[o].offset <= off < env.locals[o].offset + env.locals[o].len
    {
      var o := FrameDataLocal(env, f, w, off);
    }
    var arrays := SourceContext(env, f, w).arrays;
    forall o, i | o in arrays && 0 <= i < Bytes(env, o) / 4 ensures ElementAt(arrays[o], i) !in Cells(env, w.place).Values {
      NoCell(env, f, w, o, i);
    }
  }

  lemma NoCell(env: B.Env, f: P.Func, w: Caller, o: P.Operand, i: int)
    requires Placed(env, w.place) && Apart(env, f, w) && env.locals == Frames.SlotsOf(f) && Frames.SizesOk(f.decl)
    requires 0 <= StackOf(f) < 0x8000_0000 && o in SourceContext(env, f, w).arrays && 0 <= i < Bytes(env, o) / 4
    ensures ElementAt(SourceContext(env, f, w).arrays[o], i) !in Cells(env, w.place).Values
  {
    hide Frames.SlotsOf, StackOf, Placed, Cells, ElementAt, SourceContext, Wrap, CC.SlotAddress, RegisterContext;
    var a, cells := ElementAt(SourceContext(env, f, w).arrays[o], i), Cells(env, w.place);
    ArraysAre(env, f, w, o);
    forall q | q in cells ensures cells[q] != a {
      CellsAre(env, w.place, q);
      ElementZero(w.place[env.globals[q].id]);
      if o !in env.globals {
        LocalWord(env, f, w, o, i);
      }
    }
  }

  /** An array that the source declares, with one length. */
  ghost predicate DeclaredArray(p: GP.Program, k: nat, op: P.Operand, length: int)
    requires k <= |p.funcs|
  {
    length > 0
    && if Declared.IsGlobal(p, op) then forall d :: d in p.globals && d.op == op ==> d.length == length
       else k > 0 && Declared.Declares(GP.SourceOf(p, k).body, op, length) && Declared.OneLength(GP.SourceOf(p, k).body, op, length)
  }

  /** It is an array at run time, with four bytes for every element. */
  lemma DeclaredBytes(p: GP.Program, scs: seq<Scope>, k: nat, w: Caller, op: P.Operand, length: int)
    requires Compiles(p, scs, k) && k <= |p.funcs| && DeclaredArray(p, k, op, length)
    requires k < |O.OptimizeProg(GP.Generate(p)).value.funcs| && Placed(CS.EnvAt(p, k), w.place)
    ensures op in SourceContext(CS.EnvAt(p, k), PinkieFunc(p, k), w).arrays && Bytes(CS.EnvAt(p, k), op) == 4 * length
  {
    hide *;
    CompilesMeans(p, scs, k);
    CS.EnvParts(p, k);
    PinkieFuncIs(p, k);
    ArraysAre(CS.EnvAt(p, k), PinkieFunc(p, k), w, op);
    Declared.GlobalKind(p, op);
    DeclaredIs(p, k, op, length);
    if op in CS.Table(p) {
      var d :| d in p.globals && d.op == op && Declared.SizedFor(CS.Table(p)[op].length, d.length);
      SizeIs(CS.Table(p)[op].length, length);
    } else {
      Declared.SlotHolds(p, scs, k, op, length);
    }
    BytesAre(CS.EnvAt(p, k), op);
  }

  lemma DeclaredIs(p: GP.Program, k: nat, op: P.Operand, length: int)
    requires k <= |p.funcs|
    ensures DeclaredArray(p, k, op, length) <==>
              length > 0
              && if Declared.IsGlobal(p, op) then forall d :: d in p.globals && d.op == op ==> d.length == length
                 else k > 0 && Declared.Declares(GP.SourceOf(p, k).body, op, length)
                      && Declared.OneLength(GP.SourceOf(p, k).body, op, length)
  {
    hide Declared.Declares, Declared.OneLength, GP.SourceOf;
  }

  lemma SizeIs(len: int, length: int)
    requires Declared.SizedFor(len, length) && length > 0
    ensures len == 4 * length
  {
  }

  lemma BytesAre(env: B.Env, o: P.Operand)
    ensures o in env.globals ==> Bytes(env, o) == env.globals[o].length
    ensures o !in env.globals && o in env.locals ==> Bytes(env, o) == env.locals[o].len
  {
  }

  /** Every call of every compiled function can be started: for any addresses of the globals, any shared
      data outside the scalars of the frame and any store there is a machine that is about to run it. When
      the shared data is all words of all arrays, as it can be, its memory has a word for every element of
      every array that the source declares. */
  lemma EntryExists(p: GP.Program, scs: seq<Scope>, k: nat, w: Caller, st: Store) returns (x: Setting, r: G.State)
    requires Compiles(p, scs, k) && k <= |p.funcs| && StackOf(PinkieFunc(p, k)) < 0x8000_0000
    requires k < |O.OptimizeProg(GP.Generate(p)).value.funcs| && Placed(CS.EnvAt(p, k), w.place) && |w.saves| == 12
    requires DataFits(CS.EnvAt(p, k), PinkieFunc(p, k), w) && StoreFits(CS.EnvAt(p, k), PinkieFunc(p, k), w, st)
    requires GF.FunctionOk(SourceContext(CS.EnvAt(p, k), PinkieFunc(p, k), w), GP.SourceOf(p, k))
    ensures Called(p, scs, k, x, st, r)
    ensures x.c == SourceContext(CS.EnvAt(p, k), PinkieFunc(p, k), w) && x.g.data == w.data && x.saves == w.saves
    ensures x.w.sp == w.sp && x.w.ra == w.ra
    ensures Apart(CS.EnvAt(p, k), PinkieFunc(p, k), w) && w.data == AllWords(CS.EnvAt(p, k), PinkieFunc(p, k), w) ==>
              HoldsArrays(p, k, x.c.arrays, st)
  {
    hide *;
    CompilesMeans(p, scs, k);
    CompiledCode(p, scs, k);
    var env, f := CS.EnvAt(p, k), PinkieFunc(p, k);
    CodeReadyIs(p, scs, k, env, f);
    x := EntrySetting(env, f, w, st);
    SettingIs(env, f, w, st);
    FunctionMeans(x.c, GP.SourceOf(p, k));
    SettingFits(env, f, w, st);
    MachineFits(env, f, w, st);
    r := EntryMachine(env, f, w, st);
    StoreNamed(env, f, w, st);
    CalledIs(p, scs, k, x, st, r);
    if Apart(env, f, w) && w.data == AllWords(env, f, w) {
      AllStored(p, scs, k, w, st);
    }
  }

  /** The store has a word for every element of every array that the source declares. */
  ghost predicate HoldsArrays(p: GP.Program, k: nat, arrays: map<P.Operand, Word>, st: Store)
    requires k <= |p.funcs|
  {
    forall op, length :: DeclaredArray(p, k, op, length) ==>
      op in arrays && forall i :: 0 <= i < length ==> ElementAt(arrays[op], i) in st.mem
  }

  lemma AllStored(p: GP.Program, scs: seq<Scope>, k: nat, w: Caller, st: Store)
    requires Compiles(p, scs, k) && k <= |p.funcs| && StackOf(PinkieFunc(p, k)) < 0x8000_0000
    requires k < |O.OptimizeProg(GP.Generate(p)).value.funcs| && Placed(CS.EnvAt(p, k), w.place)
    requires var env, f := CS.EnvAt(p, k), PinkieFunc(p, k);
             StoreFits(env, f, w, st) && Apart(env, f, w) && w.data == AllWords(env, f, w)
    ensures HoldsArrays(p, k, SourceContext(CS.EnvAt(p, k), PinkieFunc(p, k), w).arrays, st)
  {
    hide *;
    CompilesMeans(p, scs, k);
    CompiledCode(p, scs, k);
    var env, f := CS.EnvAt(p, k), PinkieFunc(p, k);
    CodeReadyIs(p, scs, k, env, f);
    StackAbove(f);
    var arrays := SourceContext(env, f, w).arrays;
    forall op, length | DeclaredArray(p, k, op, length)
      ensures op in arrays && forall i :: 0 <= i < length ==> ElementAt(arrays[op], i) in st.mem
    {
      DeclaredBytes(p, scs, k, w, op, length);
      forall i | 0 <= i < length ensures ElementAt(arrays[op], i) in st.mem {
        ElementStored(env, f, w, st, op, i);
      }
    }
    HoldsArraysIs(p, k, arrays, st);
  }

  lemma HoldsArraysIs(p: GP.Program, k: nat, arrays: map<P.Operand, Word>, st: Store)
    requires k <= |p.funcs|
    requires forall op, length :: DeclaredArray(p, k, op, length) ==>
               op in arrays && forall i :: 0 <= i < length ==> ElementAt(arrays[op], i) in st.mem
    ensures HoldsArrays(p, k, arrays, st)
  {
    hide DeclaredArray, ElementAt;
  }

  lemma ElementStored(env: B.Env, f: P.Func, w: Caller, st: Store, op: P.Operand, i: int)
    requires Placed(env, w.place) && Apart(env, f, w) && env.locals == Frames.SlotsOf(f) && Frames.SizesOk(f.decl)
    requires 0 <= StackOf(f) < 0x8000_0000 && w.data == AllWords(env, f, w) && StoreFits(env, f, w, st)
    requires op in SourceContext(env, f, w).arrays && 0 <= i && 4 * i < Bytes(env, op) && Bytes(env, op) % 4 == 0
    ensures ElementAt(SourceContext(env, f, w).arrays[op], i) in st.mem
  {
    hide Frames.SlotsOf, StackOf, Placed, Cells, ElementAt, SourceContext, Bytes, Apart, AllWords, RegisterContext, DataFits;
    RoomFits(env, f, w);
  }

  lemma SettingIs(env: B.Env, f: P.Func, w: Caller, st: Store)
    requires Placed(env, w.place)
    ensures var x := EntrySetting(env, f, w, st);
            x.c == SourceContext(env, f, w) && x.g.data == w.data && x.saves == w.saves && x.w.sp == w.sp && x.w.ra == w.ra
  {
    hide StackOf, Wrap, FrameWords, SourceContext, EntryMemory, RegisterContext;
  }

  lemma FunctionMeans(c: P.Context, f: GE.Function)
    requires GF.FunctionOk(c, f)
    ensures P.ContextOk(c)
  {
    hide Ast.StmtOk;
  }

  lemma StoreNamed(env: B.Env, f: P.Func, w: Caller, st: Store)
    requires Placed(env, w.place) && StoreFits(env, f, w, st) && P.ContextOk(SourceContext(env, f, w))
    ensures GF.StoreOk(st)
  {
    hide Arrays, Wrap, StackOf;
    forall o | o in st.vars ensures !o.Temp? {
      assert o.Param? || o in SourceContext(env, f, w).globals;
    }
  }

  lemma CalledIs(p: GP.Program, scs: seq<Scope>, k: nat, x: Setting, st: Store, r: G.State)
    requires k <= |p.funcs| && Compiles(p, scs, k) && GF.FunctionOk(x.c, GP.SourceOf(p, k)) && GF.StoreOk(st)
    requires k < |O.OptimizeProg(GP.Generate(p)).value.funcs|
    requires SettingOk(CS.EnvAt(p, k), PinkieFunc(p, k), x) && AtEntry(PinkieFunc(p, k), x, st, r)
    ensures Called(p, scs, k, x, st, r)
  {
    hide GP.Generate, O.OptimizeProg, CS.FuncFits, SettingOk, AtEntry, CS.EnvAt, PinkieFunc, GF.FunctionOk, GF.StoreOk;
  }

  lemma OffsetInFrame(f: P.Func, off: int)
    requires Frames.SizesOk(f.decl) && off in FrameOffsets(f)
    ensures 0 <= off < StackOf(f)
  {
    StackAbove(f);
    hide Frames.SlotsOf, Frames.FrameOf, Frames.CalleeSavedHeuristic, StackOf;
    if !(exists i :: 0 <= i < Frames.CalleeSavedHeuristic(f) && off == 4 * i) {
      var o :| o in Frames.SlotsOf(f) && Frames.SlotsOf(f)[o].len == 0 && Frames.SlotsOf(f)[o].offset == off;
      Frames.SlotInFrame(f, o);
    }
  }
}
