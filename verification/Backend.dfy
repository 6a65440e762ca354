/** Code generation from Pinkie to Dashie: every operand lives in memory, registers only within a unit. */
module Backend {
  import opened Words
  import opened Wrappers
  import opened Primitive
  import opened Layout
  import opened Dashie
  import P = Pinkie
  import Frames
  import SemanticTypes

  type Operand = P.Operand

  /** Where operands live, which registers may be used, and the label of the epilogue. */
  datatype Env = Env(
    globals: map<Operand, Global>, locals: map<Operand, Frames.Slot>, pool: seq<Reg>, nSaved: nat, epilogue: int)

  predicate Known(env: Env, o: Operand) {
    o.Lit? || o in env.globals || o in env.locals
  }

  /** A scalar that code may store into. */
  predicate Storable(env: Env, o: Operand) {
    !o.Lit?
    && (if o in env.globals then env.globals[o].length == 0 else o in env.locals && env.locals[o].len == 0)
  }

  // ----- registers -----

  function Saves(n: nat): (r: seq<Reg>)
    ensures |r| == n && forall i :: 0 <= i < n ==> r[i] == Save(i)
  {
    seq(n, i => Save(i))
  }

  /** The scratch registers of a function that saves `n` callee-saved registers. */
  function Pool(n: nat): (r: seq<Reg>)
    ensures |r| == 6 + n
    ensures forall i :: 0 <= i < 6 ==> r[i] == Temp(i + 1)
    ensures forall i :: 6 <= i < |r| ==> r[i] == Save(i - 6)
  {
    [Temp(1), Temp(2), Temp(3), Temp(4), Temp(5), Temp(6)] + Saves(n)
  }

  /** The rotating counter after one more request. */
  function NextIndex(cnt: nat, size: nat): nat {
    if cnt + 1 >= size then 0 else cnt + 1
  }

  /** The counter after `n` requests. */
  function Rotated(cnt: nat, size: nat, n: nat): nat {
    if n == 0 then cnt else NextIndex(Rotated(cnt, size, n - 1), size)
  }

  /** Requests go round all registers in turn. */
  lemma {:induction false} PoolRotates(cnt: nat, size: nat, n: nat)
    requires cnt < size
    ensures Rotated(cnt, size, n) == (cnt + n) % size
  {
    if n > 0 {
      PoolRotates(cnt, size, n - 1);
      var m := cnt + n - 1;
      if m % size + 1 < size {
        RemainderNext(m, size);
      } else {
        RemainderWraps(m, size);
      }
    }
  }

  lemma RemainderNext(m: nat, size: nat)
    requires size > 0 && m % size + 1 < size
    ensures (m + 1) % size == m % size + 1
  {
    RemainderOnly(m + 1, size, m / size, m % size + 1);
  }

  lemma RemainderWraps(m: nat, size: nat)
    requires size > 0 && m % size + 1 == size
    ensures (m + 1) % size == 0
  {
    assert m == (m / size) * size + m % size;
    assert (m / size + 1) * size == (m / size) * size + size;
    RemainderOnly(m + 1, size, m / size + 1, 0);
  }

  lemma RemainderOnly(m: nat, size: nat, q: nat, r: nat)
    requires size > 0 && r < size && m == q * size + r
    ensures m % size == r
  {
    assert m == (m / size) * size + m % size;
    SemanticTypes.RowUnique(q, m / size, size, r, m % size);
  }

  function RegAt(env: Env, cnt: nat): Reg {
    if cnt < |env.pool| then env.pool[cnt] else Zero
  }

  function Next1(env: Env, cnt: nat): nat { NextIndex(cnt, |env.pool|) }

  function Next2(env: Env, cnt: nat): nat { NextIndex(Next1(env, cnt), |env.pool|) }

  function Next3(env: Env, cnt: nat): nat { NextIndex(Next2(env, cnt), |env.pool|) }

  // ----- loads and stores -----

  function LoadUnit(env: Env, r: Reg, o: Operand): Unit
    requires Known(env, o)
  {
    if o.Lit? then (if o.word == 0 then Cr(r, Zero) else Ci(r, o.word))
    else if o in env.globals then
      (if env.globals[o].length == 0 then Rglo(r, env.globals[o].id) else PtrGlo(r, env.globals[o].id))
    else if env.locals[o].len == 0 then Rstk(r, env.locals[o].offset)
    else PtrStk(r, env.locals[o].offset)
  }

  function StoreUnits(env: Env, t: Reg, r: Reg, o: Operand): seq<Unit>
    requires Storable(env, o)
  {
    if o in env.globals then [PtrGlo(t, env.globals[o].id), Aw(t, 0, r)]
    else [Wstk(r, env.locals[o].offset)]
  }

  // ----- units -----

  /** What code generation demands of a unit: known operands, scalar destinations, the shapes the
      optimiser leaves, and no more arguments than there are registers for. */
  predicate UnitOk(env: Env, paramC: nat, u: P.Unit) {
    && (forall o :: o in P.ROps(u) ==> Known(env, o))
    && match u
       case Unary(_, dst, src) => Storable(env, dst) && !src.Lit?
       case Binary(_, dst, _, _) => Storable(env, dst)
       case Copy(dst, _) => Storable(env, dst)
       case ArrayRead(dst, _, _) => Storable(env, dst)
       case ArrayWrite(base, _, _) => Known(env, base)
       case CallI(_, dst) => Storable(env, dst)
       case JumpIf(_, _, _, src2) => src2 == P.Lit(0)
       case Arg(_) => paramC < 12
       case Nop => false
       case _ => true
  }

  /** The code for one unit. */
  function UnitCode(env: Env, cnt: nat, paramC: nat, u: P.Unit): seq<Unit>
    requires UnitOk(env, paramC, u)
  {
    var tmp0, tmp1, t := RegAt(env, Next1(env, cnt)), RegAt(env, Next2(env, cnt)), RegAt(env, Next3(env, cnt));
    match u
    case Unary(op, dst, src) =>
      assert src in P.ROps(u);
      [LoadUnit(env, tmp0, src), Ur(op, tmp0, tmp0)] + StoreUnits(env, t, tmp0, dst)
    case Binary(op, dst, src1, src2) =>
      assert src1 in P.ROps(u) && src2 in P.ROps(u);
      if src2.Lit? then
        [LoadUnit(env, tmp0, src1), Rbi(op, tmp0, tmp0, src2.word)] + StoreUnits(env, t, tmp0, dst)
      else
        [LoadUnit(env, tmp0, src1), LoadUnit(env, tmp1, src2), Rbr(op, tmp0, tmp0, tmp1)]
        + StoreUnits(env, t, tmp0, dst)
    case Copy(dst, src) =>
      assert src in P.ROps(u);
      [LoadUnit(env, tmp0, src)] + StoreUnits(env, t, tmp0, dst)
    case ArrayWrite(base, src, incr) =>
      assert src in P.ROps(u) && incr in P.ROps(u);
      if incr.Lit? then
        [LoadUnit(env, tmp0, base), LoadUnit(env, tmp1, src), Aw(tmp0, incr.word, tmp1)]
      else
        [LoadUnit(env, tmp0, base), LoadUnit(env, tmp1, incr), Rbr(Plus, tmp0, tmp0, tmp1),
         LoadUnit(env, tmp1, src), Aw(tmp0, 0, tmp1)]
    case ArrayRead(dst, base, incr) =>
      assert base in P.ROps(u) && incr in P.ROps(u);
      if incr.Lit? then
        [LoadUnit(env, tmp1, base), Ar(tmp0, tmp1, incr.word)] + StoreUnits(env, t, tmp0, dst)
      else
        [LoadUnit(env, tmp1, base), LoadUnit(env, tmp0, incr), Rbr(Plus, tmp1, tmp1, tmp0), Ar(tmp0, tmp1, 0)]
        + StoreUnits(env, t, tmp0, dst)
    case Label(l) => [Label(l)]
    case Jump(l) => [Jmp(l)]
    case JumpIf(op, l, src1, _) =>
      assert src1 in P.ROps(u);
      [LoadUnit(env, tmp0, src1), Jc(op, l, tmp0, Zero)]
    case Arg(val) =>
      assert val in P.ROps(u);
      [LoadUnit(env, AbiArgument(paramC), val)]
    case CallI(name, dst) => [Call(name)] + StoreUnits(env, t, Arg(0), dst)
    case CallV(name) => [Call(name)]
    case RetI(val) =>
      assert val in P.ROps(u);
      [LoadUnit(env, Arg(0), val), Jmp(env.epilogue)]
    case RetV => [Jmp(env.epilogue)]
    case Nop => []
  }

  predicate Stores(u: P.Unit) {
    u.Unary? || u.Binary? || u.Copy? || u.ArrayRead? || u.CallI?
  }

  /** The register counter after a unit: a store takes one register more. */
  function CntAfter(env: Env, cnt: nat, u: P.Unit): nat {
    if Stores(u) then Next3(env, cnt) else Next2(env, cnt)
  }

  function ParamAfter(paramC: nat, u: P.Unit): nat {
    if u.Arg? then paramC + 1 else if u.CallI? || u.CallV? then 0 else paramC
  }

  /** The counters before unit `i`. */
  function CntAt(env: Env, code: seq<P.Unit>, i: nat): nat
    requires i <= |code|
  {
    if i == 0 then 0 else CntAfter(env, CntAt(env, code, i - 1), code[i - 1])
  }

  function ParamAt(code: seq<P.Unit>, i: nat): nat
    requires i <= |code|
  {
    if i == 0 then 0 else ParamAfter(ParamAt(code, i - 1), code[i - 1])
  }

  predicate CodeOk(env: Env, code: seq<P.Unit>) {
    forall i :: 0 <= i < |code| ==> UnitOk(env, ParamAt(code, i), code[i])
  }

  function BodyBlocks(env: Env, code: seq<P.Unit>): (r: seq<seq<Unit>>)
    requires CodeOk(env, code)
    ensures |r| == |code|
    ensures forall i :: 0 <= i < |r| ==> r[i] == UnitCode(env, CntAt(env, code, i), ParamAt(code, i), code[i])
  {
    seq(|code|, i requires 0 <= i < |code| => UnitCode(env, CntAt(env, code, i), ParamAt(code, i), code[i]))
  }

  ghost function BodyPrefix(env: Env, code: seq<P.Unit>, i: nat): seq<Unit>
    requires CodeOk(env, code) && i <= |code|
  {
    Flatten(BodyBlocks(env, code)[..i])
  }

  lemma BodyEnds(env: Env, code: seq<P.Unit>)
    requires CodeOk(env, code)
    ensures BodyPrefix(env, code, 0) == [] && CntAt(env, code, 0) == 0 && ParamAt(code, 0) == 0
    ensures BodyPrefix(env, code, |code|) == Flatten(BodyBlocks(env, code))
  {
    hide UnitCode, UnitOk;
    assert BodyBlocks(env, code)[..|code|] == BodyBlocks(env, code);
  }

  lemma BodyNext(env: Env, code: seq<P.Unit>, i: nat)
    requires CodeOk(env, code) && i < |code|
    ensures UnitOk(env, ParamAt(code, i), code[i])
    ensures BodyPrefix(env, code, i + 1)
         == BodyPrefix(env, code, i) + UnitCode(env, CntAt(env, code, i), ParamAt(code, i), code[i])
    ensures CntAt(env, code, i + 1) == CntAfter(env, CntAt(env, code, i), code[i])
    ensures ParamAt(code, i + 1) == ParamAfter(ParamAt(code, i), code[i])
  {
    hide UnitCode, UnitOk, CntAfter, ParamAfter;
    var blocks := BodyBlocks(env, code);
    assert blocks[..i + 1][..i] == blocks[..i];
  }

  // ----- prologue and epilogue -----

  predicate ParamsKnown(env: Env, arity: nat) {
    forall i :: 0 <= i < arity ==> P.Param(i) in env.locals
  }

  function SaveParams(env: Env, arity: nat): (r: seq<Unit>)
    requires ParamsKnown(env, arity)
    ensures |r| == arity
    ensures forall i :: 0 <= i < arity ==> r[i] == Wstk(AbiArgument(i), env.locals[P.Param(i)].offset)
  {
    seq(arity, i requires 0 <= i < arity => Wstk(AbiArgument(i), env.locals[P.Param(i)].offset))
  }

  function SaveRegs(n: nat): (r: seq<Unit>)
    ensures |r| == n && forall i :: 0 <= i < n ==> r[i] == Wstk(Save(i), 4 * i)
  {
    seq(n, i => Wstk(Save(i), 4 * i))
  }

  function RestoreRegs(n: nat): (r: seq<Unit>)
    ensures |r| == n && forall i :: 0 <= i < n ==> r[i] == Rstk(Save(i), 4 * i)
  {
    seq(n, i => Rstk(Save(i), 4 * i))
  }

  function Prologue(env: Env, arity: nat): seq<Unit>
    requires ParamsKnown(env, arity)
  {
    SaveParams(env, arity) + SaveRegs(env.nSaved)
  }

  function Epilogue(env: Env): seq<Unit> {
    [Label(env.epilogue)] + RestoreRegs(env.nSaved) + [Ret]
  }

  function FunctionCode(env: Env, arity: nat, code: seq<P.Unit>): seq<Unit>
    requires ParamsKnown(env, arity) && CodeOk(env, code)
  {
    Prologue(env, arity) + Flatten(BodyBlocks(env, code)) + Epilogue(env)
  }

  // ----- functions -----

  function EnvOf(globals: map<Operand, Global>, f: P.Func, epilogue: int): Env {
    var n := Frames.CalleeSavedHeuristic(f);
    Env(globals, Frames.SlotsOf(f), Pool(n), n, epilogue)
  }

  lemma ParamsAreKnown(globals: map<Operand, Global>, f: P.Func, epilogue: int)
    ensures ParamsKnown(EnvOf(globals, f, epilogue), f.arity)
  {
    Frames.LocalsExact(f);
    forall i | 0 <= i < f.arity ensures P.Param(i) in Frames.SlotsOf(f) {
      var l := Frames.Locals(f);
      assert Frames.Named(l, P.Param(i));
      var k :| 0 <= k < |l| && l[k].name == P.Param(i);
      Frames.NamedHasSlot(4 * Frames.CalleeSavedHeuristic(f), l, k);
    }
  }

  predicate FuncOk(globals: map<Operand, Global>, f: P.Func, epilogue: int) {
    f.arity <= 12 && CodeOk(EnvOf(globals, f, epilogue), f.code)
  }

  function CompileFunc(globals: map<Operand, Global>, f: P.Func, epilogue: int): Function
    requires FuncOk(globals, f, epilogue)
  {
    ParamsAreKnown(globals, f, epilogue);
    Function(f.name, f.arity, Frames.FrameOf(f), FunctionCode(EnvOf(globals, f, epilogue), f.arity, f.code))
  }

  // ----- code stays inside its frame -----

  /** Inside a frame of that size: a word stored or loaded, or a local array whose address is taken. */
  ghost predicate Bounded(env: Env, frame: int, u: Unit) {
    && (u.Wstk? || u.Rstk? ==> 0 <= u.offset && u.offset + 4 <= frame)
    && (u.PtrStk? ==> exists o :: o in env.locals && env.locals[o].len > 0 && 0 <= u.offset == env.locals[o].offset
                                 && u.offset + env.locals[o].len <= frame)
  }

  ghost predicate AllBounded(env: Env, frame: int, code: seq<Unit>) {
    forall u :: u in code ==> Bounded(env, frame, u)
  }

  ghost predicate EnvFits(env: Env, frame: int) {
    && 4 * env.nSaved <= frame
    && forall o :: o in env.locals ==>
      env.locals[o].len >= 0 && env.locals[o].len % 4 == 0
      && 0 <= env.locals[o].offset && env.locals[o].offset + Frames.Extent(env.locals[o]) <= frame
  }

  lemma LoadBounded(env: Env, frame: int, r: Reg, o: Operand)
    requires EnvFits(env, frame) && Known(env, o)
    ensures Bounded(env, frame, LoadUnit(env, r, o))
  {
  }

  lemma StoreBounded(env: Env, frame: int, t: Reg, r: Reg, o: Operand)
    requires EnvFits(env, frame) && Storable(env, o)
    ensures AllBounded(env, frame, StoreUnits(env, t, r, o))
  {
  }

  lemma OtherBounded(env: Env, frame: int)
    ensures forall u: Unit :: !u.Wstk? && !u.Rstk? && !u.PtrStk? ==> Bounded(env, frame, u)
  {
  }

  lemma LoadsBounded(env: Env, frame: int)
    requires EnvFits(env, frame)
    ensures forall r, o :: Known(env, o) ==> Bounded(env, frame, LoadUnit(env, r, o))
    ensures forall t, r, o :: Storable(env, o) ==> AllBounded(env, frame, StoreUnits(env, t, r, o))
  {
    hide LoadUnit, StoreUnits, Known, Storable, Bounded, AllBounded, EnvFits;
    forall r, o | Known(env, o) ensures Bounded(env, frame, LoadUnit(env, r, o)) {
      LoadBounded(env, frame, r, o);
    }
    forall t, r, o | Storable(env, o) ensures AllBounded(env, frame, StoreUnits(env, t, r, o)) {
      StoreBounded(env, frame, t, r, o);
    }
  }

  lemma UnitBounded(env: Env, frame: int, cnt: nat, paramC: nat, u: P.Unit)
    requires EnvFits(env, frame) && UnitOk(env, paramC, u)
    ensures AllBounded(env, frame, UnitCode(env, cnt, paramC, u))
  {
    LoadsBounded(env, frame);
    OtherBounded(env, frame);
    hide LoadUnit, StoreUnits, Known, Storable, Bounded, EnvFits, RegAt, Next1, Next2, Next3, AbiArgument;
  }

  lemma BodyBounded(env: Env, frame: int, code: seq<P.Unit>)
    requires EnvFits(env, frame) && CodeOk(env, code)
    ensures AllBounded(env, frame, Flatten(BodyBlocks(env, code)))
  {
    hide UnitCode, UnitOk, Bounded, EnvFits, CntAt, ParamAt, Flatten;
    var blocks := BodyBlocks(env, code);
    forall u | u in Flatten(blocks) ensures Bounded(env, frame, u) {
      var q :| 0 <= q < |Flatten(blocks)| && Flatten(blocks)[q] == u;
      var i, j := Locate(blocks, q);
      UnitBounded(env, frame, CntAt(env, code, i), ParamAt(code, i), code[i]);
    }
  }

  lemma EndsBounded(env: Env, frame: int, arity: nat)
    requires EnvFits(env, frame) && ParamsKnown(env, arity)
    ensures AllBounded(env, frame, Prologue(env, arity)) && AllBounded(env, frame, Epilogue(env))
  {
    forall u | u in Prologue(env, arity) ensures Bounded(env, frame, u) {
      if u in SaveParams(env, arity) {
        var i :| 0 <= i < arity && SaveParams(env, arity)[i] == u;
      } else {
        var i :| 0 <= i < env.nSaved && SaveRegs(env.nSaved)[i] == u;
      }
    }
    forall u | u in Epilogue(env) ensures Bounded(env, frame, u) {
      if u in RestoreRegs(env.nSaved) {
        var i :| 0 <= i < env.nSaved && RestoreRegs(env.nSaved)[i] == u;
      }
    }
  }

  lemma EnvFrame(globals: map<Operand, Global>, f: P.Func, epilogue: int)
    requires Frames.SizesOk(f.decl)
    ensures EnvFits(EnvOf(globals, f, epilogue), Frames.FrameOf(f))
  {
    hide Frames.SlotsOf, Frames.FrameOf, Frames.CalleeSavedHeuristic;
    forall o | o in Frames.SlotsOf(f)
      ensures var s := Frames.SlotsOf(f)[o];
              s.len >= 0 && s.len % 4 == 0 && 0 <= s.offset && s.offset + Frames.Extent(s) <= Frames.FrameOf(f)
    {
      Frames.SlotInFrame(f, o);
    }
    SavedFit(f);
  }

  lemma SavedFit(f: P.Func)
    requires Frames.SizesOk(f.decl)
    ensures 4 * Frames.CalleeSavedHeuristic(f) <= Frames.FrameOf(f)
  {
    Frames.LocalsSized(f);
    Frames.EndGrows(4 * Frames.CalleeSavedHeuristic(f), Frames.Locals(f), 0);
    assert Frames.Locals(f)[..0] == [];
    hide Frames.CalleeSavedHeuristic, Frames.Locals;
  }

  /** The frame of a compiled function holds every slot that its code stores, loads or takes the address of. */
  ghost predicate FrameHolds(f: P.Func, g: Function) {
    forall u :: u in g.code ==>
      && (u.Wstk? || u.Rstk? ==> 0 <= u.offset && u.offset + 4 <= g.frame)
      && (u.PtrStk? ==> exists o :: o in Frames.SlotsOf(f) && Frames.SlotsOf(f)[o].len > 0 && 0 <= u.offset == Frames.SlotsOf(f)[o].offset
                                   && u.offset + Frames.SlotsOf(f)[o].len <= g.frame)
  }

  lemma FuncIs(globals: map<Operand, Global>, f: P.Func, epilogue: int)
    requires FuncOk(globals, f, epilogue)
    ensures var env, g := EnvOf(globals, f, epilogue), CompileFunc(globals, f, epilogue);
            && ParamsKnown(env, f.arity) && CodeOk(env, f.code) && f.arity <= 12
            && g.code == FunctionCode(env, f.arity, f.code) && g.frame == Frames.FrameOf(f)
            && g.name == f.name && g.arity == f.arity
            && env.locals == Frames.SlotsOf(f) && env.nSaved == Frames.CalleeSavedHeuristic(f)
  {
    ParamsAreKnown(globals, f, epilogue);
    hide CodeOk, FunctionCode, Frames.FrameOf, Frames.SlotsOf, Frames.CalleeSavedHeuristic, Pool, ParamsKnown;
  }

  lemma PartsBounded(env: Env, frame: int, arity: nat, code: seq<P.Unit>)
    requires ParamsKnown(env, arity) && CodeOk(env, code) && AllBounded(env, frame, Flatten(BodyBlocks(env, code)))
    requires AllBounded(env, frame, Prologue(env, arity)) && AllBounded(env, frame, Epilogue(env))
    ensures AllBounded(env, frame, FunctionCode(env, arity, code))
  {
    hide Bounded, Prologue, Epilogue, BodyBlocks, CodeOk, ParamsKnown, Flatten;
  }

  lemma HoldsIs(f: P.Func, g: Function, env: Env)
    requires env.locals == Frames.SlotsOf(f) && AllBounded(env, g.frame, g.code)
    ensures FrameHolds(f, g)
  {
    hide Frames.SlotsOf;
    forall u | u in g.code ensures Bounded(env, g.frame, u) {
    }
  }

  lemma FunctionBounded(globals: map<Operand, Global>, f: P.Func, epilogue: int)
    requires Frames.SizesOk(f.decl) && FuncOk(globals, f, epilogue)
    ensures FrameHolds(f, CompileFunc(globals, f, epilogue))
  {
    hide *;
    var env := EnvOf(globals, f, epilogue);
    FuncIs(globals, f, epilogue);
    EnvFrame(globals, f, epilogue);
    BodyBounded(env, Frames.FrameOf(f), f.code);
    EndsBounded(env, Frames.FrameOf(f), f.arity);
    PartsBounded(env, Frames.FrameOf(f), f.arity, f.code);
    HoldsIs(f, CompileFunc(globals, f, epilogue), env);
  }

  // ----- programs -----

  /** Globals are numbered in the order of their declarations; the first declaration of a name counts. */
  function GlobalTable(src: seq<P.Symb>): map<Operand, Global> {
    if src == [] then map[]
    else
      var before, last := GlobalTable(src[..|src| - 1]), src[|src| - 1];
      if last.name in before then before else before[last.name := Global(|src| - 1, last.len)]
  }

  function GlobalList(src: seq<P.Symb>): (r: seq<Global>)
    ensures |r| == |src| && forall i :: 0 <= i < |r| ==> r[i] == Global(i, src[i].len)
  {
    seq(|src|, i requires 0 <= i < |src| => Global(i, src[i].len))
  }

  predicate ProgOk(src: P.Prog) {
    forall i :: 0 <= i < |src.funcs| ==> FuncOk(GlobalTable(src.globals), src.funcs[i], src.labelCount + i)
  }

  lemma ProgFunc(src: P.Prog, i: nat)
    requires ProgOk(src) && i < |src.funcs|
    ensures FuncOk(GlobalTable(src.globals), src.funcs[i], src.labelCount + i)
  {
    hide FuncOk, GlobalTable;
  }

  /** The first `n` functions compiled. */
  function CompileFuncs(src: P.Prog, n: nat): seq<Function>
    requires ProgOk(src) && n <= |src.funcs|
  {
    hide *;
    if n == 0 then []
    else
      ProgFunc(src, n - 1);
      CompileFuncs(src, n - 1) + [CompileFunc(GlobalTable(src.globals), src.funcs[n - 1], src.labelCount + (n - 1))]
  }

  lemma {:induction false} CompiledAt(src: P.Prog, n: nat, k: nat)
    requires ProgOk(src) && k < n <= |src.funcs|
    ensures FuncOk(GlobalTable(src.globals), src.funcs[k], src.labelCount + k)
    ensures |CompileFuncs(src, n)| == n
    ensures CompileFuncs(src, n)[k] == CompileFunc(GlobalTable(src.globals), src.funcs[k], src.labelCount + k)
  {
    hide FuncOk, GlobalTable, CompileFunc, ProgOk;
    ProgFunc(src, k);
    CompiledCount(src, n);
    CompiledCount(src, n - 1);
    if k < n - 1 {
      CompiledAt(src, n - 1, k);
    }
  }

  lemma {:induction false} CompiledCount(src: P.Prog, n: nat)
    requires ProgOk(src) && n <= |src.funcs|
    ensures |CompileFuncs(src, n)| == n
  {
    hide ProgOk, CompileFunc, GlobalTable, FuncOk;
    if n > 0 {
      CompiledCount(src, n - 1);
    }
  }

  /** Every compiled function keeps its name and arity, and its frame holds all that its code uses. */
  lemma CompiledHolds(src: P.Prog, k: nat)
    requires ProgOk(src) && k < |src.funcs| && Frames.SizesOk(src.funcs[k].decl)
    ensures |CompileFuncs(src, |src.funcs|)| == |src.funcs|
    ensures FrameHolds(src.funcs[k], CompileFuncs(src, |src.funcs|)[k])
    ensures CompileFuncs(src, |src.funcs|)[k].name == src.funcs[k].name && CompileFuncs(src, |src.funcs|)[k].arity == src.funcs[k].arity
  {
    hide *;
    CompiledAt(src, |src.funcs|, k);
    FunctionBounded(GlobalTable(src.globals), src.funcs[k], src.labelCount + k);
    FuncIs(GlobalTable(src.globals), src.funcs[k], src.labelCount + k);
  }

  /** The compiler's running state. */
  class PinkieCompiler {
    var labelCount: int
    var gLookup: map<Operand, Global>
    var globals: seq<Global>
    var tempos: seq<Reg>
    var tempoCnt: nat
    var code: seq<Unit>
    var paramC: nat

    constructor (labelCount: int)
      ensures this.labelCount == labelCount && gLookup == map[] && globals == [] && code == []
    {
      this.labelCount := labelCount;
      gLookup := map[];
      globals := [];
      tempos := [];
      tempoCnt := 0;
      code := [];
      paramC := 0;
    }

    method NextReg() returns (r: Reg)
      modifies this`tempoCnt
      ensures tempoCnt == NextIndex(old(tempoCnt), |tempos|)
      ensures r == if tempoCnt < |tempos| then tempos[tempoCnt] else Zero
    {
      tempoCnt := tempoCnt + 1;
      if tempoCnt >= |tempos| {
        tempoCnt := 0;
      }
      r := if tempoCnt < |tempos| then tempos[tempoCnt] else Zero;
    }

    method NewLabel() returns (l: int)
      modifies this`labelCount
      ensures l == old(labelCount) && labelCount == old(labelCount) + 1
    {
      l := labelCount;
      labelCount := labelCount + 1;
    }

    method ConvertGlobal(src: seq<P.Symb>)
      requires gLookup == map[] && globals == []
      modifies this`gLookup, this`globals
      ensures gLookup == GlobalTable(src) && globals == GlobalList(src)
    {
      for i := 0 to |src|
        invariant gLookup == GlobalTable(src[..i])
        invariant globals == GlobalList(src)[..i]
      {
        assert src[..i + 1][..i] == src[..i];
        var glob := Global(i, src[i].len);
        if src[i].name !in gLookup {
          gLookup := gLookup[src[i].name := glob];
        }
        globals := globals + [glob];
      }
      assert src[..|src|] == src;
    }

    method Push(u: Unit)
      modifies this`code
      ensures code == old(code) + [u]
    {
      code := code + [u];
    }

    method Load(env: Env, r: Reg, o: Operand)
      requires Known(env, o)
      modifies this`code
      ensures code == old(code) + [LoadUnit(env, r, o)]
    {
      if o.Lit? {
        if o.word == 0 {
          Push(Cr(r, Zero));
        } else {
          Push(Ci(r, o.word));
        }
      } else if o in env.globals {
        var glob := env.globals[o];
        if glob.length == 0 {
          Push(Rglo(r, glob.id));
        } else {
          Push(PtrGlo(r, glob.id));
        }
      } else {
        var loc := env.locals[o];
        if loc.len == 0 {
          Push(Rstk(r, loc.offset));
        } else {
          Push(PtrStk(r, loc.offset));
        }
      }
    }

    method Store(env: Env, r: Reg, o: Operand)
      requires Storable(env, o) && tempos == env.pool
      modifies this`code, this`tempoCnt
      ensures tempoCnt == Next1(env, old(tempoCnt))
      ensures code == old(code) + StoreUnits(env, RegAt(env, tempoCnt), r, o)
    {
      var t1 := NextReg();
      if o in env.globals {
        Push(PtrGlo(t1, env.globals[o].id));
        Push(Aw(t1, 0, r));
      } else {
        Push(Wstk(r, env.locals[o].offset));
      }
    }

    /** The two scratch registers of a unit have been taken; `cnt` was the counter before. */
    ghost predicate Drawn(env: Env, cnt: nat, tmp0: Reg, tmp1: Reg)
      reads this`tempos, this`tempoCnt
    {
      && tempos == env.pool && tempoCnt == Next2(env, cnt)
      && tmp0 == RegAt(env, Next1(env, cnt)) && tmp1 == RegAt(env, Next2(env, cnt))
    }

    /** Units that compute into a scalar from scalars. */
    method GenerateScalar(env: Env, c: P.Unit, tmp0: Reg, tmp1: Reg, ghost cnt: nat)
      requires UnitOk(env, paramC, c) && Drawn(env, cnt, tmp0, tmp1) && (c.Unary? || c.Binary? || c.Copy?)
      modifies this`code, this`tempoCnt
      ensures tempoCnt == Next3(env, cnt) && code == old(code) + UnitCode(env, cnt, paramC, c)
    {
      hide LoadUnit, StoreUnits, NextIndex, RegAt;
      match c
      case Unary(op, dst, src) =>
        assert src in P.ROps(c);
        Load(env, tmp0, src);
        Push(Ur(op, tmp0, tmp0));
        Store(env, tmp0, dst);
      case Binary(op, dst, src1, src2) =>
        assert src1 in P.ROps(c) && src2 in P.ROps(c);
        Load(env, tmp0, src1);
        if src2.Lit? {
          Push(Rbi(op, tmp0, tmp0, src2.word));
        } else {
          Load(env, tmp1, src2);
          Push(Rbr(op, tmp0, tmp0, tmp1));
        }
        Store(env, tmp0, dst);
      case Copy(dst, src) =>
        assert src in P.ROps(c);
        Load(env, tmp0, src);
        Store(env, tmp0, dst);
    }

    method GenerateArrayWrite(env: Env, c: P.Unit, tmp0: Reg, tmp1: Reg, ghost cnt: nat)
      requires UnitOk(env, paramC, c) && Drawn(env, cnt, tmp0, tmp1) && c.ArrayWrite?
      modifies this`code
      ensures code == old(code) + UnitCode(env, cnt, paramC, c)
    {
      hide LoadUnit, RegAt, NextIndex;
      assert c.src in P.ROps(c) && c.incr in P.ROps(c);
      Load(env, tmp0, c.base);
      if c.incr.Lit? {
        Load(env, tmp1, c.src);
        Push(Aw(tmp0, c.incr.word, tmp1));
      } else {
        Load(env, tmp1, c.incr);
        Push(Rbr(Plus, tmp0, tmp0, tmp1));
        Load(env, tmp1, c.src);
        Push(Aw(tmp0, 0, tmp1));
      }
    }

    method GenerateArrayRead(env: Env, c: P.Unit, tmp0: Reg, tmp1: Reg, ghost cnt: nat)
      requires UnitOk(env, paramC, c) && Drawn(env, cnt, tmp0, tmp1) && c.ArrayRead?
      modifies this`code, this`tempoCnt
      ensures tempoCnt == Next3(env, cnt) && code == old(code) + UnitCode(env, cnt, paramC, c)
    {
      hide LoadUnit, StoreUnits, NextIndex, RegAt;
      assert c.base in P.ROps(c) && c.incr in P.ROps(c);
      Load(env, tmp1, c.base);
      if c.incr.Lit? {
        Push(Ar(tmp0, tmp1, c.incr.word));
      } else {
        Load(env, tmp0, c.incr);
        Push(Rbr(Plus, tmp1, tmp1, tmp0));
        Push(Ar(tmp0, tmp1, 0));
      }
      Store(env, tmp0, c.dst);
    }

    /** Labels, jumps and returns: returns go to the one epilogue. */
    method GenerateControl(env: Env, c: P.Unit, tmp0: Reg, tmp1: Reg, ghost cnt: nat)
      requires UnitOk(env, paramC, c) && Drawn(env, cnt, tmp0, tmp1)
      requires c.Label? || c.Jump? || c.JumpIf? || c.RetI? || c.RetV?
      modifies this`code
      ensures code == old(code) + UnitCode(env, cnt, paramC, c)
    {
      hide LoadUnit, RegAt, NextIndex;
      match c {
        case Label(l) => Push(Label(l));
        case Jump(l) => Push(Jmp(l));
        case JumpIf(op, l, src1, src2) =>
          assert src1 in P.ROps(c);
          Load(env, tmp0, src1);
          Push(Jc(op, l, tmp0, Zero));
        case RetI(val) =>
          assert val in P.ROps(c);
          Load(env, Arg(0), val);
          Push(Jmp(env.epilogue));
        case RetV => Push(Jmp(env.epilogue));
      }
    }

    /** Arguments go to their registers in turn; a call starts the count again. */
    method GenerateCall(env: Env, c: P.Unit, tmp0: Reg, tmp1: Reg, ghost cnt: nat)
      requires UnitOk(env, paramC, c) && Drawn(env, cnt, tmp0, tmp1) && (c.Arg? || c.CallI? || c.CallV?)
      modifies this`code, this`tempoCnt, this`paramC
      ensures code == old(code) + UnitCode(env, cnt, old(paramC), c)
      ensures tempoCnt == CntAfter(env, cnt, c) && paramC == ParamAfter(old(paramC), c)
    {
      hide LoadUnit, StoreUnits, RegAt, NextIndex, AbiArgument;
      match c {
        case Arg(val) =>
          assert val in P.ROps(c);
          Load(env, AbiArgument(paramC), val);
          paramC := paramC + 1;
        case CallI(name, dst) =>
          Push(Call(name));
          Store(env, Arg(0), dst);
          paramC := 0;
        case CallV(name) =>
          Push(Call(name));
          paramC := 0;
      }
    }

    /** Appends the code for one unit. */
    method GenerateUnit(env: Env, c: P.Unit)
      requires UnitOk(env, paramC, c) && tempos == env.pool
      modifies this`code, this`tempoCnt, this`paramC
      ensures code == old(code) + UnitCode(env, old(tempoCnt), old(paramC), c)
      ensures tempoCnt == CntAfter(env, old(tempoCnt), c)
      ensures paramC == ParamAfter(old(paramC), c)
    {
      hide UnitCode, NextIndex;
      ghost var cnt := tempoCnt;
      var tmp0 := NextReg();
      var tmp1 := NextReg();
      match c {
        case Unary(_, _, _) => GenerateScalar(env, c, tmp0, tmp1, cnt);
        case Binary(_, _, _, _) => GenerateScalar(env, c, tmp0, tmp1, cnt);
        case Copy(_, _) => GenerateScalar(env, c, tmp0, tmp1, cnt);
        case ArrayWrite(_, _, _) => GenerateArrayWrite(env, c, tmp0, tmp1, cnt);
        case ArrayRead(_, _, _) => GenerateArrayRead(env, c, tmp0, tmp1, cnt);
        case Arg(_) => GenerateCall(env, c, tmp0, tmp1, cnt);
        case CallI(_, _) => GenerateCall(env, c, tmp0, tmp1, cnt);
        case CallV(_) => GenerateCall(env, c, tmp0, tmp1, cnt);
        case Label(_) => GenerateControl(env, c, tmp0, tmp1, cnt);
        case Jump(_) => GenerateControl(env, c, tmp0, tmp1, cnt);
        case JumpIf(_, _, _, _) => GenerateControl(env, c, tmp0, tmp1, cnt);
        case RetI(_) => GenerateControl(env, c, tmp0, tmp1, cnt);
        case RetV => GenerateControl(env, c, tmp0, tmp1, cnt);
      }
    }

    method GeneratePrologue(env: Env, arity: nat)
      requires ParamsKnown(env, arity)
      modifies this`code
      ensures code == Prologue(env, arity)
    {
      code := [];
      for i := 0 to arity
        invariant code == SaveParams(env, arity)[..i]
      {
        Push(Wstk(AbiArgument(i), env.locals[P.Param(i)].offset));
      }
      for i := 0 to env.nSaved
        invariant code == SaveParams(env, arity) + SaveRegs(env.nSaved)[..i]
      {
        Push(Wstk(Save(i), 4 * i));
      }
      assert SaveRegs(env.nSaved)[..env.nSaved] == SaveRegs(env.nSaved);
    }

    method GenerateBody(env: Env, src: seq<P.Unit>)
      requires CodeOk(env, src) && tempos == env.pool && tempoCnt == 0 && paramC == 0
      modifies this`code, this`tempoCnt, this`paramC
      ensures code == old(code) + Flatten(BodyBlocks(env, src))
    {
      hide *;
      BodyEnds(env, src);
      for i := 0 to |src|
        invariant tempoCnt == CntAt(env, src, i) && paramC == ParamAt(src, i)
        invariant code == old(code) + BodyPrefix(env, src, i)
      {
        BodyNext(env, src, i);
        GenerateUnit(env, src[i]);
      }
    }

    method GenerateEpilogue(env: Env)
      modifies this`code
      ensures code == old(code) + Epilogue(env)
    {
      Push(Label(env.epilogue));
      for i := 0 to env.nSaved
        invariant code == old(code) + [Label(env.epilogue)] + RestoreRegs(env.nSaved)[..i]
      {
        Push(Rstk(Save(i), i * 4));
      }
      assert RestoreRegs(env.nSaved)[..env.nSaved] == RestoreRegs(env.nSaved);
      Push(Ret);
    }

    /** The whole function: prologue, units in order, epilogue. */
    method GenerateCode(env: Env, arity: nat, src: seq<P.Unit>)
      requires ParamsKnown(env, arity) && CodeOk(env, src)
      modifies this`code, this`tempos, this`tempoCnt, this`paramC
      ensures code == FunctionCode(env, arity, src)
    {
      hide CodeOk, ParamsKnown, Prologue, Epilogue, BodyBlocks;
      tempos := env.pool;
      tempoCnt := 0;
      GeneratePrologue(env, arity);
      paramC := 0;
      GenerateBody(env, src);
      GenerateEpilogue(env);
    }

    method Compile(src: P.Prog) returns (p: Program)
      requires ProgOk(src) && labelCount == src.labelCount && gLookup == map[] && globals == []
      modifies this
      ensures p == Program(src.labelCount + |src.funcs|, GlobalList(src.globals), CompileFuncs(src, |src.funcs|))
      ensures |p.funcs| == |src.funcs|
      ensures forall k :: 0 <= k < |p.funcs| && Frames.SizesOk(src.funcs[k].decl) ==>
                FrameHolds(src.funcs[k], p.funcs[k]) && p.funcs[k].name == src.funcs[k].name && p.funcs[k].arity == src.funcs[k].arity
    {
      hide FrameHolds, Frames.SizesOk;
      hide FunctionCode, Frames.CalleeSavedHeuristic, Frames.Locals, Frames.Slots, Frames.End, GlobalTable, Pool, CodeOk,
           ParamsKnown, GlobalList;
      ConvertGlobal(src.globals);
      var done := [];
      for i := 0 to |src.funcs|
        invariant labelCount == src.labelCount + i && gLookup == GlobalTable(src.globals)
        invariant globals == GlobalList(src.globals)
        invariant done == CompileFuncs(src, i)
      {
        var f := src.funcs[i];
        var n := Frames.CalleeSavedHeuristic(f);
        var slots, frame := Frames.ComputeOffset(n, Frames.Locals(f));
        var epilogue := NewLabel();
        var env := Env(gLookup, slots, Pool(n), n, epilogue);
        ParamsAreKnown(gLookup, f, epilogue);
        GenerateCode(env, f.arity, f.code);
        done := done + [Function(f.name, f.arity, frame, code)];
      }
      p := Program(labelCount, globals, done);
      CompiledCount(src, |src.funcs|);
      forall k | 0 <= k < |src.funcs| && Frames.SizesOk(src.funcs[k].decl)
        ensures FrameHolds(src.funcs[k], done[k]) && done[k].name == src.funcs[k].name && done[k].arity == src.funcs[k].arity
      {
        CompiledHolds(src, k);
      }
    }
  }
}
