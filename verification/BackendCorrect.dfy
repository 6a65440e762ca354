/** The generated register code simulates the Pinkie code: memory holds every operand at every unit boundary. */
module BackendCorrect {
  import opened Words
  import opened Wrappers
  import opened Primitive
  import opened Layout
  import opened Dashie
  import P = Pinkie
  import Frames
  import opened Backend

  // ----- what ties the two machines together -----

  /** The scratch registers, and scalar slots apart from each other and from the callee-saved area. */
  ghost predicate EnvOk(env: Env) {
    && 1 <= env.nSaved <= 12 && env.pool == Pool(env.nSaved)
    && (forall o :: o in env.locals && env.locals[o].len == 0 ==> 4 * env.nSaved <= env.locals[o].offset)
    && (forall o, p :: o in env.locals && p in env.locals && o != p && env.locals[o].len == 0 && env.locals[p].len == 0
          ==> env.locals[o].offset != env.locals[p].offset)
  }

  /** Both contexts describe the same arrays, global scalars and calls. */
  ghost predicate Linked(c: P.Context, d: Context, env: Env) {
    && P.ContextOk(c) && ContextOk(d) && c.arity == d.arity && c.world == d.world
    && c.globals == d.cells.Keys
    && (forall o :: o in c.globals ==> o in env.globals && env.globals[o].length == 0)
    && (forall o :: o in env.globals ==>
          env.globals[o].id in d.globals
          && (if env.globals[o].length == 0
              then o in d.cells && d.globals[env.globals[o].id] == d.cells[o]
              else o in c.arrays && c.arrays[o] == d.globals[env.globals[o].id]))
    && (forall o :: o in env.locals && o !in env.globals ==>
          if env.locals[o].len == 0 then o !in c.arrays
          else o in c.arrays && c.arrays[o] == Wrap(d.sp + env.locals[o].offset))
  }

  /** A scalar is in its cell or its slot. */
  ghost predicate InPlace(env: Env, d: Context, t: State, o: Operand, v: Word) {
    if o in env.globals then
      env.globals[o].length == 0 && o in d.cells && d.cells[o] in t.mem && t.mem[d.cells[o]] == v
    else
      o in env.locals && env.locals[o].len == 0 && env.locals[o].offset in t.frame && t.frame[env.locals[o].offset] == v
  }

  /** The callee-saved registers as the caller left them: saved in the frame, or never touched. */
  ghost predicate SavesKept(env: Env, t: State, saves: seq<Word>) {
    && |saves| == 12
    && (forall i :: 0 <= i < env.nSaved && i < 12 ==> 4 * i in t.frame && t.frame[4 * i] == saves[i])
    && (forall i :: env.nSaved <= i < 12 ==> Save(i) in t.regs && t.regs[Save(i)] == saves[i])
  }

  /** Slots and cells exist. */
  ghost predicate Allocated(env: Env, d: Context, t: State) {
    && (forall o :: o in env.locals && env.locals[o].len == 0 ==> env.locals[o].offset in t.frame)
    && (forall o :: o in d.cells ==> d.cells[o] in t.mem)
  }

  /** Memory, trace and saved registers agree with the Pinkie state; control and arguments aside. */
  ghost predicate Agrees(env: Env, c: P.Context, d: Context, saves: seq<Word>, s: P.State, t: State) {
    && t.status == Running && t.trace == s.trace
    && ArraysView(d, t.mem) == s.mem
    && c.globals <= s.env.Keys
    && (forall o :: o in s.env ==> InPlace(env, d, t, o, s.env[o]))
    && Allocated(env, d, t) && SavesKept(env, t, saves)
  }

  /** The arguments pushed so far are in their registers. */
  ghost predicate HoldsArgs(args: seq<Word>, t: State) {
    forall j :: 0 <= j < |args| ==> Read(t, AbiArgument(j)) == Some(args[j])
  }

  // ----- registers -----

  /** Registers that code may overwrite between units. */
  ghost predicate Scratch(env: Env, r: Reg) {
    r != Zero && !(r.Save? && !(0 <= r.id < env.nSaved))
  }

  lemma PoolRegs(env: Env, cnt: nat)
    requires EnvOk(env) && cnt < |env.pool|
    ensures Next1(env, cnt) < |env.pool| && Next2(env, cnt) < |env.pool| && Next3(env, cnt) < |env.pool|
    ensures var a, b, t := RegAt(env, Next1(env, cnt)), RegAt(env, Next2(env, cnt)), RegAt(env, Next3(env, cnt));
            && a != b && a != t && b != t && Scratch(env, a) && Scratch(env, b) && Scratch(env, t)
            && !a.Arg? && !b.Arg? && !t.Arg?
  {
  }

  lemma {:induction false} CntInPool(env: Env, code: seq<P.Unit>, i: nat)
    requires EnvOk(env) && i <= |code|
    ensures CntAt(env, code, i) < |env.pool|
  {
    hide Pool;
    if i > 0 {
      CntInPool(env, code, i - 1);
    }
  }

  lemma ScratchWrite(env: Env, c: P.Context, d: Context, saves: seq<Word>, s: P.State, t: State, r: Reg, v: Word, p: nat)
    requires Agrees(env, c, d, saves, s, t) && Scratch(env, r)
    ensures Agrees(env, c, d, saves, s, t.(regs := t.regs[r := v], pc := p))
  {
  }

  lemma AgreesRuns(env: Env, c: P.Context, d: Context, saves: seq<Word>, s: P.State, t: State)
    requires Agrees(env, c, d, saves, s, t)
    ensures t.status == Running
  {
  }

  lemma MovedAgrees(env: Env, c: P.Context, d: Context, saves: seq<Word>, s: P.State, t: State, p: nat, q: nat)
    requires Agrees(env, c, d, saves, s, t)
    ensures Agrees(env, c, d, saves, s.(pc := q), t.(pc := p))
  {
  }

  // ----- loads -----

  /** Loading a known operand puts its value into the register, whatever kind of operand it is. */
  lemma LoadExec(
    code: seq<Unit>, env: Env, c: P.Context, d: Context, saves: seq<Word>, s: P.State, t: State, r: Reg, o: Operand, v: Word)
    requires Linked(c, d, env) && Agrees(env, c, d, saves, s, t) && Known(env, o) && r != Zero
    requires P.Value(c, s.env, o) == Some(v)
    ensures Exec(code, d, LoadUnit(env, r, o), t) == t.(regs := t.regs[r := v], pc := t.pc + 1)
  {
    AgreesParts(env, c, d, saves, s, t);
    hide Agrees, SavesKept, Allocated, ArraysView, ContextOk, Wrap;
    if o.Lit? {
      LitLoads(code, env, d, t, r, o);
    } else if o in c.arrays {
      AddressLoads(code, env, c, d, t, r, o);
    } else {
      assert InPlace(env, d, t, o, v);
      ScalarLoads(code, env, d, t, r, o, v);
    }
  }

  lemma LitLoads(code: seq<Unit>, env: Env, d: Context, t: State, r: Reg, o: Operand)
    requires o.Lit? && t.status == Running && r != Zero
    ensures Exec(code, d, LoadUnit(env, r, o), t) == t.(regs := t.regs[r := o.word], pc := t.pc + 1)
  {
    hide Wrap;
  }

  lemma AddressLoads(code: seq<Unit>, env: Env, c: P.Context, d: Context, t: State, r: Reg, o: Operand)
    requires Linked(c, d, env) && Known(env, o) && !o.Lit? && o in c.arrays && t.status == Running && r != Zero
    ensures Exec(code, d, LoadUnit(env, r, o), t) == t.(regs := t.regs[r := c.arrays[o]], pc := t.pc + 1)
  {
    hide ContextOk, Wrap;
  }

  lemma ScalarLoads(code: seq<Unit>, env: Env, d: Context, t: State, r: Reg, o: Operand, v: Word)
    requires InPlace(env, d, t, o, v) && Known(env, o) && !o.Lit? && t.status == Running && r != Zero
    requires o in env.globals ==> env.globals[o].id in d.globals && d.cells[o] == d.globals[env.globals[o].id]
    ensures Exec(code, d, LoadUnit(env, r, o), t) == t.(regs := t.regs[r := v], pc := t.pc + 1)
  {
    hide Wrap;
  }

  lemma LoadStep(
    code: seq<Unit>, env: Env, c: P.Context, d: Context, saves: seq<Word>, s: P.State, t0: State, n: nat, r: Reg, o: Operand,
    v: Word)
    requires Linked(c, d, env) && Agrees(env, c, d, saves, s, Run(code, d, t0, n)) && Known(env, o) && Scratch(env, r)
    requires P.Value(c, s.env, o) == Some(v)
    requires Run(code, d, t0, n).pc < |code| && code[Run(code, d, t0, n).pc] == LoadUnit(env, r, o)
    ensures var t, t' := Run(code, d, t0, n), Run(code, d, t0, n + 1);
            && t' == t.(regs := t.regs[r := v], pc := t.pc + 1)
            && Agrees(env, c, d, saves, s, t')
  {
    hide *;
    var t := Run(code, d, t0, n);
    AgreesRuns(env, c, d, saves, s, t);
    OneMore(code, d, t0, n, LoadUnit(env, r, o));
    ScratchNotZero(env, r);
    LoadExec(code, env, c, d, saves, s, t, r, o, v);
    ScratchWrite(env, c, d, saves, s, t, r, v, t.pc + 1);
  }

  lemma ScratchNotZero(env: Env, r: Reg)
    requires Scratch(env, r)
    ensures r != Zero
  {
  }

  /** A register-to-register unit. */
  lemma RegStep(
    code: seq<Unit>, env: Env, c: P.Context, d: Context, saves: seq<Word>, s: P.State, t0: State, n: nat, u: Unit, r: Reg,
    v: Word)
    requires Agrees(env, c, d, saves, s, Run(code, d, t0, n)) && Scratch(env, r)
    requires Run(code, d, t0, n).pc < |code| && code[Run(code, d, t0, n).pc] == u
    requires Exec(code, d, u, Run(code, d, t0, n)) == Write(Run(code, d, t0, n), r, Some(v))
    ensures var t, t' := Run(code, d, t0, n), Run(code, d, t0, n + 1);
            && t' == t.(regs := t.regs[r := v], pc := t.pc + 1)
            && Agrees(env, c, d, saves, s, t')
  {
    var t := Run(code, d, t0, n);
    hide Agrees, Exec, Run;
    AgreesRuns(env, c, d, saves, s, t);
    OneMore(code, d, t0, n, u);
    ScratchWrite(env, c, d, saves, s, t, r, v, t.pc + 1);
  }

  // ----- stores -----

  lemma ArraysViewCell(d: Context, mem: map<Word, Word>, a: Word, v: Word)
    requires a in d.owner && a in mem
    ensures ArraysView(d, mem[a := v]) == ArraysView(d, mem)
  {
  }

  lemma ArraysViewWrite(d: Context, mem: map<Word, Word>, a: Word, v: Word)
    requires a in ArraysView(d, mem)
    ensures a in mem && ArraysView(d, mem[a := v]) == ArraysView(d, mem)[a := v]
  {
  }

  /** Writing a scalar's slot. */
  lemma SlotWritten(
    env: Env, c: P.Context, d: Context, saves: seq<Word>, s: P.State, t: State, o: Operand, v: Word, p: nat)
    requires EnvOk(env) && Linked(c, d, env) && Agrees(env, c, d, saves, s, t) && Storable(env, o) && o !in env.globals
    ensures env.locals[o].offset in t.frame
    ensures Agrees(env, c, d, saves, s.(env := s.env[o := v]), t.(frame := t.frame[env.locals[o].offset := v], pc := p))
  {
    hide ArraysView, ContextOk, Wrap, Pool;
  }

  /** Writing a global scalar's cell. */
  lemma CellWritten(
    env: Env, c: P.Context, d: Context, saves: seq<Word>, s: P.State, t: State, o: Operand, v: Word, p: nat)
    requires EnvOk(env) && Linked(c, d, env) && Agrees(env, c, d, saves, s, t) && Storable(env, o) && o in env.globals
    ensures o in d.cells && d.cells[o] in t.mem
    ensures Agrees(env, c, d, saves, s.(env := s.env[o := v]), t.(mem := t.mem[d.cells[o] := v], pc := p))
  {
    hide ArraysView, Wrap, Pool;
    ArraysViewCell(d, t.mem, d.cells[o], v);
  }

  lemma StoreExecLocal(code: seq<Unit>, d: Context, t: State, r: Reg, off: int, v: Word)
    requires Read(t, r) == Some(v) && off in t.frame
    ensures Exec(code, d, Wstk(r, off), t) == t.(frame := t.frame[off := v], pc := t.pc + 1)
  {
  }

  lemma StoreExecGlobal(code: seq<Unit>, d: Context, t: State, tmp: Reg, r: Reg, g: int, a: Word, v: Word)
    requires Read(t, r) == Some(v) && tmp != Zero && tmp != r && g in d.globals && d.globals[g] == a && a in t.mem
    ensures var t' := t.(regs := t.regs[tmp := a], pc := t.pc + 1);
            && Exec(code, d, PtrGlo(tmp, g), t) == t'
            && Exec(code, d, Aw(tmp, 0, r), t') == t'.(mem := t'.mem[a := v], pc := t'.pc + 1)
  {
  }

  /** Storing a register into a scalar. */
  lemma StoreRuns(
    code: seq<Unit>, env: Env, c: P.Context, d: Context, saves: seq<Word>, s: P.State, t0: State, n: nat, tmp: Reg, r: Reg,
    o: Operand, v: Word)
    returns (m: nat)
    requires EnvOk(env) && Linked(c, d, env) && Agrees(env, c, d, saves, s, Run(code, d, t0, n)) && Storable(env, o)
    requires Scratch(env, tmp) && tmp != r && Read(Run(code, d, t0, n), r) == Some(v)
    requires Sits(code, Run(code, d, t0, n).pc, StoreUnits(env, tmp, r, o))
    ensures Run(code, d, t0, m).pc == Run(code, d, t0, n).pc + |StoreUnits(env, tmp, r, o)|
    ensures Agrees(env, c, d, saves, s.(env := s.env[o := v]), Run(code, d, t0, m))
  {
    hide Agrees, Run, Exec, EnvOk, Sits, Read, Known, P.ContextOk, ContextOk, Wrap;
    var t := Run(code, d, t0, n);
    var units := StoreUnits(env, tmp, r, o);
    AgreesRuns(env, c, d, saves, s, t);
    if o in env.globals {
      CellWritten(env, c, d, saves, s, t, o, v, t.pc);
      var a := d.cells[o];
      StoreExecGlobal(code, d, t, tmp, r, env.globals[o].id, a, v);
      SitsUnit(code, t.pc, units, 0);
      SitsUnit(code, t.pc, units, 1);
      hide Linked;
      OneMore(code, d, t0, n, units[0]);
      var t1 := Run(code, d, t0, n + 1);
      ScratchWrite(env, c, d, saves, s, t, tmp, a, t.pc + 1);
      OneMore(code, d, t0, n + 1, units[1]);
      CellWritten(env, c, d, saves, s, t1, o, v, t.pc + 2);
      m := n + 2;
    } else {
      SlotWritten(env, c, d, saves, s, t, o, v, t.pc + 1);
      StoreExecLocal(code, d, t, r, env.locals[o].offset, v);
      SitsUnit(code, t.pc, units, 0);
      OneMore(code, d, t0, n, units[0]);
      m := n + 1;
    }
  }

  // ----- one unit -----

  /** The code of unit `u` is next, and the two machines agree. */
  ghost predicate UnitReady(
    code: seq<Unit>, env: Env, cnt: nat, paramC: nat, u: P.Unit, c: P.Context, d: Context, saves: seq<Word>,
    s: P.State, t: State)
  {
    && EnvOk(env) && Linked(c, d, env) && Agrees(env, c, d, saves, s, t)
    && cnt < |env.pool| && UnitOk(env, paramC, u) && Sits(code, t.pc, UnitCode(env, cnt, paramC, u))
  }

  /** After `m` steps control is behind the unit's code and the machines agree again. */
  ghost predicate UnitDone(
    code: seq<Unit>, env: Env, cnt: nat, paramC: nat, u: P.Unit, c: P.Context, d: Context, saves: seq<Word>,
    s': P.State, t: State, m: nat)
    requires UnitOk(env, paramC, u)
  {
    && Run(code, d, t, m).pc == t.pc + |UnitCode(env, cnt, paramC, u)|
    && Agrees(env, c, d, saves, s', Run(code, d, t, m))
  }

  lemma ReadWritten(t: State, r: Reg, v: Word, q: Reg, p: nat)
    requires r != Zero
    ensures Read(t.(regs := t.regs[r := v], pc := p), r) == Some(v)
    ensures q != r ==> Read(t.(regs := t.regs[r := v], pc := p), q) == Read(t, q)
  {
  }

  lemma RunNone(code: seq<Unit>, d: Context, t: State)
    ensures Run(code, d, t, 0) == t
  {
  }

  lemma EnvAgrees(env: Env, c: P.Context, d: Context, saves: seq<Word>, s: P.State, s': P.State, t: State)
    requires Agrees(env, c, d, saves, s, t) && s'.env == s.env && s'.mem == s.mem && s'.trace == s.trace
    ensures Agrees(env, c, d, saves, s', t)
  {
  }

  lemma UnaryExec(code: seq<Unit>, d: Context, t: State, op: UnaryOp, r: Reg, v: Word)
    requires Read(t, r) == Some(v)
    ensures Exec(code, d, Ur(op, r, r), t) == Write(t, r, Some(EvalUnary(op, v)))
  {
  }

  lemma RbrExec(code: seq<Unit>, d: Context, t: State, op: BinaryOp, r: Reg, q: Reg, v: Word, w: Word)
    requires Read(t, r) == Some(v) && Read(t, q) == Some(w)
    ensures Exec(code, d, Rbr(op, r, r, q), t) == Write(t, r, Some(EvalBinary(op, v, w)))
  {
  }

  lemma RbiExec(code: seq<Unit>, d: Context, t: State, op: BinaryOp, r: Reg, v: Word, w: Word)
    requires Read(t, r) == Some(v)
    ensures Exec(code, d, Rbi(op, r, r, w), t) == Write(t, r, Some(EvalBinary(op, v, w)))
  {
  }

  /** What an assignment unit assigns, when it does not get stuck. */
  lemma AssignMeans(pcode: seq<P.Unit>, c: P.Context, u: P.Unit, s: P.State)
    requires u.Unary? || u.Binary? || u.Copy? || u.ArrayRead?
    requires P.Exec(pcode, c, u, s).status != P.Stuck
    ensures u.Unary? ==>
              var v := P.Value(c, s.env, u.src);
              v.Some? && P.Exec(pcode, c, u, s) == s.(env := s.env[u.dst := EvalUnary(u.uop, v.value)], pc := s.pc + 1)
    ensures u.Copy? ==>
              var v := P.Value(c, s.env, u.src);
              v.Some? && P.Exec(pcode, c, u, s) == s.(env := s.env[u.dst := v.value], pc := s.pc + 1)
    ensures u.Binary? ==>
              var v, w := P.Value(c, s.env, u.src1), P.Value(c, s.env, u.src2);
              v.Some? && w.Some?
              && P.Exec(pcode, c, u, s) == s.(env := s.env[u.dst := EvalBinary(u.bop, v.value, w.value)], pc := s.pc + 1)
    ensures u.ArrayRead? ==>
              var v, w := P.Value(c, s.env, u.base), P.Value(c, s.env, u.incr);
              v.Some? && w.Some? && Wrap(v.value + w.value) in s.mem
              && P.Exec(pcode, c, u, s) == s.(env := s.env[u.dst := s.mem[Wrap(v.value + w.value)]], pc := s.pc + 1)
  {
    hide P.Value, EvalUnary, EvalBinary, Wrap;
  }

  /** The tail of every computing unit: the result register is stored. */
  lemma StoreDone(
    code: seq<Unit>, env: Env, cnt: nat, paramC: nat, u: P.Unit, c: P.Context, d: Context, saves: seq<Word>,
    s: P.State, s': P.State, t: State, n: nat, head: seq<Unit>, tmp: Reg, r: Reg, dst: Operand, v: Word)
    returns (m: nat)
    requires UnitReady(code, env, cnt, paramC, u, c, d, saves, s, t) && Storable(env, dst)
    requires UnitCode(env, cnt, paramC, u) == head + StoreUnits(env, tmp, r, dst)
    requires Run(code, d, t, n).pc == t.pc + |head| && Agrees(env, c, d, saves, s, Run(code, d, t, n))
    requires Scratch(env, tmp) && tmp != r && Read(Run(code, d, t, n), r) == Some(v)
    requires s'.env == s.env[dst := v] && s'.mem == s.mem && s'.trace == s.trace
    ensures UnitDone(code, env, cnt, paramC, u, c, d, saves, s', t, m)
  {
    hide Agrees, Run, EnvOk, Linked, Sits, Read, Storable, UnitCode, StoreUnits, UnitOk;
    SitsSplit(code, t.pc, head, StoreUnits(env, tmp, r, dst));
    m := StoreRuns(code, env, c, d, saves, s, t, n, tmp, r, dst, v);
    EnvAgrees(env, c, d, saves, s.(env := s.env[dst := v]), s', Run(code, d, t, m));
  }

  /** The three registers a unit may use. */
  ghost function Tmp0(env: Env, cnt: nat): Reg { RegAt(env, Next1(env, cnt)) }

  ghost function Tmp1(env: Env, cnt: nat): Reg { RegAt(env, Next2(env, cnt)) }

  ghost function Tmp2(env: Env, cnt: nat): Reg { RegAt(env, Next3(env, cnt)) }

  lemma ReadyMeans(
    code: seq<Unit>, env: Env, cnt: nat, paramC: nat, u: P.Unit, c: P.Context, d: Context, saves: seq<Word>,
    s: P.State, t: State)
    requires UnitReady(code, env, cnt, paramC, u, c, d, saves, s, t)
    ensures EnvOk(env) && Linked(c, d, env) && Agrees(env, c, d, saves, s, t) && UnitOk(env, paramC, u)
    ensures Sits(code, t.pc, UnitCode(env, cnt, paramC, u))
    ensures var a, b, r := Tmp0(env, cnt), Tmp1(env, cnt), Tmp2(env, cnt);
            && a != b && a != r && b != r && Scratch(env, a) && Scratch(env, b) && Scratch(env, r)
            && !a.Arg? && !b.Arg? && !r.Arg? && a != Zero && b != Zero && r != Zero
  {
    PoolRegs(env, cnt);
    hide Agrees, Linked, Sits, UnitCode, UnitOk, EnvOk;
  }

  lemma ScalarCode(env: Env, cnt: nat, paramC: nat, u: P.Unit)
    requires UnitOk(env, paramC, u) && (u.Unary? || u.Copy? || u.Binary?)
    ensures Storable(env, u.dst)
    ensures u.Unary? ==>
              Known(env, u.src) && UnitCode(env, cnt, paramC, u)
              == [LoadUnit(env, Tmp0(env, cnt), u.src), Ur(u.uop, Tmp0(env, cnt), Tmp0(env, cnt))]
                 + StoreUnits(env, Tmp2(env, cnt), Tmp0(env, cnt), u.dst)
    ensures u.Copy? ==>
              Known(env, u.src) && UnitCode(env, cnt, paramC, u)
              == [LoadUnit(env, Tmp0(env, cnt), u.src)] + StoreUnits(env, Tmp2(env, cnt), Tmp0(env, cnt), u.dst)
    ensures u.Binary? ==>
              Known(env, u.src1) && Known(env, u.src2) && UnitCode(env, cnt, paramC, u)
              == (if u.src2.Lit? then
                    [LoadUnit(env, Tmp0(env, cnt), u.src1), Rbi(u.bop, Tmp0(env, cnt), Tmp0(env, cnt), u.src2.word)]
                  else
                    [LoadUnit(env, Tmp0(env, cnt), u.src1), LoadUnit(env, Tmp1(env, cnt), u.src2),
                     Rbr(u.bop, Tmp0(env, cnt), Tmp0(env, cnt), Tmp1(env, cnt))])
                 + StoreUnits(env, Tmp2(env, cnt), Tmp0(env, cnt), u.dst)
  {
    hide Known, Storable, LoadUnit, StoreUnits, NextIndex, RegAt;
    assert u.Unary? || u.Copy? ==> u.src in P.ROps(u);
    assert u.Binary? ==> u.src1 in P.ROps(u) && u.src2 in P.ROps(u);
  }

  lemma UnaryDone(
    code: seq<Unit>, env: Env, cnt: nat, paramC: nat, u: P.Unit, pcode: seq<P.Unit>, c: P.Context, d: Context, saves: seq<Word>,
    s: P.State, t: State)
    returns (m: nat)
    requires UnitReady(code, env, cnt, paramC, u, c, d, saves, s, t) && (u.Unary? || u.Copy?)
    requires P.Exec(pcode, c, u, s).status != P.Stuck
    ensures UnitDone(code, env, cnt, paramC, u, c, d, saves, P.Exec(pcode, c, u, s), t, m)
  {
    hide *;
    ReadyMeans(code, env, cnt, paramC, u, c, d, saves, s, t);
    ScalarCode(env, cnt, paramC, u);
    AssignMeans(pcode, c, u, s);
    var a, v := Tmp0(env, cnt), P.Value(c, s.env, u.src).value;
    RunNone(code, d, t);
    SitsUnit(code, t.pc, UnitCode(env, cnt, paramC, u), 0);
    LoadStep(code, env, c, d, saves, s, t, 0, a, u.src, v);
    var t1 := Run(code, d, t, 1);
    ReadWritten(t, a, v, a, t.pc + 1);
    if u.Copy? {
      m := StoreDone(code, env, cnt, paramC, u, c, d, saves, s, P.Exec(pcode, c, u, s), t, 1, [LoadUnit(env, a, u.src)],
        Tmp2(env, cnt), a, u.dst, v);
    } else {
      SitsUnit(code, t.pc, UnitCode(env, cnt, paramC, u), 1);
      UnaryExec(code, d, t1, u.uop, a, v);
      RegStep(code, env, c, d, saves, s, t, 1, Ur(u.uop, a, a), a, EvalUnary(u.uop, v));
      ReadWritten(t1, a, EvalUnary(u.uop, v), a, t1.pc + 1);
      m := StoreDone(code, env, cnt, paramC, u, c, d, saves, s, P.Exec(pcode, c, u, s), t, 2,
        [LoadUnit(env, a, u.src), Ur(u.uop, a, a)], Tmp2(env, cnt), a, u.dst, EvalUnary(u.uop, v));
    }
  }

  lemma BinaryDone(
    code: seq<Unit>, env: Env, cnt: nat, paramC: nat, u: P.Unit, pcode: seq<P.Unit>, c: P.Context, d: Context, saves: seq<Word>,
    s: P.State, t: State)
    returns (m: nat)
    requires UnitReady(code, env, cnt, paramC, u, c, d, saves, s, t) && u.Binary?
    requires P.Exec(pcode, c, u, s).status != P.Stuck
    ensures UnitDone(code, env, cnt, paramC, u, c, d, saves, P.Exec(pcode, c, u, s), t, m)
  {
    hide *;
    ReadyMeans(code, env, cnt, paramC, u, c, d, saves, s, t);
    ScalarCode(env, cnt, paramC, u);
    AssignMeans(pcode, c, u, s);
    var a, b := Tmp0(env, cnt), Tmp1(env, cnt);
    var v, w := P.Value(c, s.env, u.src1).value, P.Value(c, s.env, u.src2).value;
    var x := EvalBinary(u.bop, v, w);
    RunNone(code, d, t);
    SitsUnit(code, t.pc, UnitCode(env, cnt, paramC, u), 0);
    SitsUnit(code, t.pc, UnitCode(env, cnt, paramC, u), 1);
    LoadStep(code, env, c, d, saves, s, t, 0, a, u.src1, v);
    var t1 := Run(code, d, t, 1);
    ReadWritten(t, a, v, a, t.pc + 1);
    if u.src2.Lit? {
      LitValue(c, s.env, u.src2);
      RbiExec(code, d, t1, u.bop, a, v, w);
      RegStep(code, env, c, d, saves, s, t, 1, Rbi(u.bop, a, a, w), a, x);
      ReadWritten(t1, a, x, a, t1.pc + 1);
      m := StoreDone(code, env, cnt, paramC, u, c, d, saves, s, P.Exec(pcode, c, u, s), t, 2,
        [LoadUnit(env, a, u.src1), Rbi(u.bop, a, a, w)], Tmp2(env, cnt), a, u.dst, x);
    } else {
      SitsUnit(code, t.pc, UnitCode(env, cnt, paramC, u), 2);
      LoadStep(code, env, c, d, saves, s, t, 1, b, u.src2, w);
      var t2 := Run(code, d, t, 2);
      ReadWritten(t1, b, w, a, t1.pc + 1);
      ReadWritten(t1, b, w, b, t1.pc + 1);
      RbrExec(code, d, t2, u.bop, a, b, v, w);
      RegStep(code, env, c, d, saves, s, t, 2, Rbr(u.bop, a, a, b), a, x);
      ReadWritten(t2, a, x, a, t2.pc + 1);
      m := StoreDone(code, env, cnt, paramC, u, c, d, saves, s, P.Exec(pcode, c, u, s), t, 3,
        [LoadUnit(env, a, u.src1), LoadUnit(env, b, u.src2), Rbr(u.bop, a, a, b)], Tmp2(env, cnt), a, u.dst, x);
    }
  }

  lemma LitValue(c: P.Context, env: map<Operand, Word>, o: Operand)
    requires o.Lit?
    ensures P.Value(c, env, o) == Some(o.word)
  {
  }

  // ----- arrays -----

  lemma ReadCode(env: Env, cnt: nat, paramC: nat, u: P.Unit)
    requires UnitOk(env, paramC, u) && u.ArrayRead?
    ensures Storable(env, u.dst) && Known(env, u.base) && Known(env, u.incr)
    ensures var a, b := Tmp0(env, cnt), Tmp1(env, cnt);
            UnitCode(env, cnt, paramC, u)
            == (if u.incr.Lit? then [LoadUnit(env, b, u.base), Ar(a, b, u.incr.word)]
                else [LoadUnit(env, b, u.base), LoadUnit(env, a, u.incr), Rbr(Plus, b, b, a), Ar(a, b, 0)])
               + StoreUnits(env, Tmp2(env, cnt), a, u.dst)
  {
    hide Known, Storable, LoadUnit, StoreUnits, NextIndex, RegAt;
    assert u.base in P.ROps(u) && u.incr in P.ROps(u);
  }

  lemma ArExec(code: seq<Unit>, d: Context, t: State, r: Reg, q: Reg, incr: Word, base: Word, a: Word)
    requires Read(t, q) == Some(base) && a == Wrap(base + incr) && a in t.mem
    ensures Exec(code, d, Ar(r, q, incr), t) == Write(t, r, Some(t.mem[a]))
  {
    hide Wrap;
  }

  lemma AgreesArrays(env: Env, c: P.Context, d: Context, saves: seq<Word>, s: P.State, t: State, a: Word)
    requires Agrees(env, c, d, saves, s, t) && a in s.mem
    ensures a in t.mem && t.mem[a] == s.mem[a] && a in ArraysView(d, t.mem)
  {
  }

  lemma PlusZero(x: Word, y: Word)
    ensures EvalBinary(Plus, x, y) == Wrap(x + y)
    ensures Wrap(Wrap(x + y) + 0) == Wrap(x + y)
  {
  }

  lemma ReadAtLiteral(
    code: seq<Unit>, env: Env, cnt: nat, paramC: nat, u: P.Unit, pcode: seq<P.Unit>, c: P.Context, d: Context, saves: seq<Word>,
    s: P.State, t: State)
    returns (m: nat)
    requires UnitReady(code, env, cnt, paramC, u, c, d, saves, s, t) && u.ArrayRead? && u.incr.Lit?
    requires P.Exec(pcode, c, u, s).status != P.Stuck
    ensures UnitDone(code, env, cnt, paramC, u, c, d, saves, P.Exec(pcode, c, u, s), t, m)
  {
    hide *;
    ReadyMeans(code, env, cnt, paramC, u, c, d, saves, s, t);
    ReadCode(env, cnt, paramC, u);
    AssignMeans(pcode, c, u, s);
    var a, b := Tmp0(env, cnt), Tmp1(env, cnt);
    var v, w := P.Value(c, s.env, u.base).value, P.Value(c, s.env, u.incr).value;
    var addr := Wrap(v as int + w as int);
    RunNone(code, d, t);
    SitsUnit(code, t.pc, UnitCode(env, cnt, paramC, u), 0);
    SitsUnit(code, t.pc, UnitCode(env, cnt, paramC, u), 1);
    LoadStep(code, env, c, d, saves, s, t, 0, b, u.base, v);
    var t1 := Run(code, d, t, 1);
    ReadWritten(t, b, v, b, t.pc + 1);
    LitValue(c, s.env, u.incr);
    AgreesArrays(env, c, d, saves, s, t1, addr);
    ArExec(code, d, t1, a, b, w, v, addr);
    RegStep(code, env, c, d, saves, s, t, 1, Ar(a, b, w), a, s.mem[addr]);
    ReadWritten(t1, a, s.mem[addr], a, t1.pc + 1);
    m := StoreDone(code, env, cnt, paramC, u, c, d, saves, s, P.Exec(pcode, c, u, s), t, 2,
      [LoadUnit(env, b, u.base), Ar(a, b, w)], Tmp2(env, cnt), a, u.dst, s.mem[addr]);
  }

  lemma ReadAtOperand(
    code: seq<Unit>, env: Env, cnt: nat, paramC: nat, u: P.Unit, pcode: seq<P.Unit>, c: P.Context, d: Context, saves: seq<Word>,
    s: P.State, t: State)
    returns (m: nat)
    requires UnitReady(code, env, cnt, paramC, u, c, d, saves, s, t) && u.ArrayRead? && !u.incr.Lit?
    requires P.Exec(pcode, c, u, s).status != P.Stuck
    ensures UnitDone(code, env, cnt, paramC, u, c, d, saves, P.Exec(pcode, c, u, s), t, m)
  {
    hide *;
    ReadyMeans(code, env, cnt, paramC, u, c, d, saves, s, t);
    ReadCode(env, cnt, paramC, u);
    AssignMeans(pcode, c, u, s);
    var a, b := Tmp0(env, cnt), Tmp1(env, cnt);
    var v, w := P.Value(c, s.env, u.base).value, P.Value(c, s.env, u.incr).value;
    var addr := Wrap(v as int + w as int);
    RunNone(code, d, t);
    SitsUnit(code, t.pc, UnitCode(env, cnt, paramC, u), 0);
    SitsUnit(code, t.pc, UnitCode(env, cnt, paramC, u), 1);
    LoadStep(code, env, c, d, saves, s, t, 0, b, u.base, v);
    var t1 := Run(code, d, t, 1);
    ReadWritten(t, b, v, b, t.pc + 1);
    SitsUnit(code, t.pc, UnitCode(env, cnt, paramC, u), 2);
    SitsUnit(code, t.pc, UnitCode(env, cnt, paramC, u), 3);
    LoadStep(code, env, c, d, saves, s, t, 1, a, u.incr, w);
    var t2 := Run(code, d, t, 2);
    ReadWritten(t1, a, w, a, t1.pc + 1);
    ReadWritten(t1, a, w, b, t1.pc + 1);
    RbrExec(code, d, t2, Plus, b, a, v, w);
    PlusZero(v, w);
    RegStep(code, env, c, d, saves, s, t, 2, Rbr(Plus, b, b, a), b, addr);
    var t3 := Run(code, d, t, 3);
    ReadWritten(t2, b, addr, b, t2.pc + 1);
    AgreesArrays(env, c, d, saves, s, t3, addr);
    ArExec(code, d, t3, a, b, 0, addr, addr);
    RegStep(code, env, c, d, saves, s, t, 3, Ar(a, b, 0), a, s.mem[addr]);
    ReadWritten(t3, a, s.mem[addr], a, t3.pc + 1);
    m := StoreDone(code, env, cnt, paramC, u, c, d, saves, s, P.Exec(pcode, c, u, s), t, 4,
      [LoadUnit(env, b, u.base), LoadUnit(env, a, u.incr), Rbr(Plus, b, b, a), Ar(a, b, 0)], Tmp2(env, cnt), a, u.dst,
      s.mem[addr]);
  }

  lemma ReadDone(
    code: seq<Unit>, env: Env, cnt: nat, paramC: nat, u: P.Unit, pcode: seq<P.Unit>, c: P.Context, d: Context, saves: seq<Word>,
    s: P.State, t: State)
    returns (m: nat)
    requires UnitReady(code, env, cnt, paramC, u, c, d, saves, s, t) && u.ArrayRead?
    requires P.Exec(pcode, c, u, s).status != P.Stuck
    ensures UnitDone(code, env, cnt, paramC, u, c, d, saves, P.Exec(pcode, c, u, s), t, m)
  {
    hide *;
    if u.incr.Lit? {
      m := ReadAtLiteral(code, env, cnt, paramC, u, pcode, c, d, saves, s, t);
    } else {
      m := ReadAtOperand(code, env, cnt, paramC, u, pcode, c, d, saves, s, t);
    }
  }


  lemma WriteCode(env: Env, cnt: nat, paramC: nat, u: P.Unit)
    requires UnitOk(env, paramC, u) && u.ArrayWrite?
    ensures Known(env, u.base) && Known(env, u.incr) && Known(env, u.src)
    ensures var a, b := Tmp0(env, cnt), Tmp1(env, cnt);
            UnitCode(env, cnt, paramC, u)
            == if u.incr.Lit? then [LoadUnit(env, a, u.base), LoadUnit(env, b, u.src), Aw(a, u.incr.word, b)]
               else [LoadUnit(env, a, u.base), LoadUnit(env, b, u.incr), Rbr(Plus, a, a, b), LoadUnit(env, b, u.src), Aw(a, 0, b)]
  {
    hide Known, Storable, LoadUnit, StoreUnits, NextIndex, RegAt;
    assert u.src in P.ROps(u) && u.incr in P.ROps(u);
  }

  lemma WriteMeans(pcode: seq<P.Unit>, c: P.Context, u: P.Unit, s: P.State)
    requires u.ArrayWrite? && P.Exec(pcode, c, u, s).status != P.Stuck
    ensures var v, w, x := P.Value(c, s.env, u.base), P.Value(c, s.env, u.incr), P.Value(c, s.env, u.src);
            && v.Some? && w.Some? && x.Some? && Wrap(v.value + w.value) in s.mem
            && P.Exec(pcode, c, u, s) == s.(mem := s.mem[Wrap(v.value + w.value) := x.value], pc := s.pc + 1)
  {
    hide P.Value, Wrap;
  }

  lemma AwExec(code: seq<Unit>, d: Context, t: State, r: Reg, incr: Word, q: Reg, base: Word, a: Word, v: Word)
    requires Read(t, r) == Some(base) && a == Wrap(base + incr) && a in t.mem && Read(t, q) == Some(v)
    ensures Exec(code, d, Aw(r, incr, q), t) == t.(mem := t.mem[a := v], pc := t.pc + 1)
  {
    hide Wrap;
  }

  /** Writing an array word. */
  lemma ArrayWritten(
    env: Env, c: P.Context, d: Context, saves: seq<Word>, s: P.State, t: State, a: Word, v: Word, p: nat, q: nat)
    requires Linked(c, d, env) && Agrees(env, c, d, saves, s, t) && a in s.mem
    ensures a in t.mem && Agrees(env, c, d, saves, s.(mem := s.mem[a := v], pc := q), t.(mem := t.mem[a := v], pc := p))
  {
    hide Wrap, Known, Storable;
    AgreesArrays(env, c, d, saves, s, t, a);
    ArraysViewWrite(d, t.mem, a, v);
    forall o | o in d.cells ensures d.cells[o] != a {
      assert d.cells[o] in d.owner;
    }
    hide ArraysView;
  }

  /** The last unit of an array write. */
  lemma AwDone(
    code: seq<Unit>, env: Env, cnt: nat, paramC: nat, u: P.Unit, c: P.Context, d: Context, saves: seq<Word>,
    s: P.State, s': P.State, t: State, n: nat, r: Reg, incr: Word, q: Reg, base: Word, a: Word, v: Word)
    requires UnitReady(code, env, cnt, paramC, u, c, d, saves, s, t)
    requires Agrees(env, c, d, saves, s, Run(code, d, t, n)) && Run(code, d, t, n).pc + 1 == t.pc + |UnitCode(env, cnt, paramC, u)|
    requires Run(code, d, t, n).pc < |code| && code[Run(code, d, t, n).pc] == Aw(r, incr, q)
    requires Read(Run(code, d, t, n), r) == Some(base) && Read(Run(code, d, t, n), q) == Some(v)
    requires a == Wrap(base + incr) && a in s.mem && s' == s.(mem := s.mem[a := v], pc := s.pc + 1)
    ensures UnitDone(code, env, cnt, paramC, u, c, d, saves, s', t, n + 1)
  {
    hide Agrees, Run, EnvOk, Linked, Sits, Read, UnitCode, UnitOk, Wrap, Exec;
    var t1 := Run(code, d, t, n);
    AgreesRuns(env, c, d, saves, s, t1);
    ArrayWritten(env, c, d, saves, s, t1, a, v, t1.pc + 1, s.pc + 1);
    AwExec(code, d, t1, r, incr, q, base, a, v);
    OneMore(code, d, t, n, Aw(r, incr, q));
  }

  lemma WriteAtLiteral(
    code: seq<Unit>, env: Env, cnt: nat, paramC: nat, u: P.Unit, pcode: seq<P.Unit>, c: P.Context, d: Context, saves: seq<Word>,
    s: P.State, t: State)
    returns (m: nat)
    requires UnitReady(code, env, cnt, paramC, u, c, d, saves, s, t) && u.ArrayWrite? && u.incr.Lit?
    requires P.Exec(pcode, c, u, s).status != P.Stuck
    ensures UnitDone(code, env, cnt, paramC, u, c, d, saves, P.Exec(pcode, c, u, s), t, m)
  {
    hide *;
    ReadyMeans(code, env, cnt, paramC, u, c, d, saves, s, t);
    WriteCode(env, cnt, paramC, u);
    WriteMeans(pcode, c, u, s);
    var a, b, s' := Tmp0(env, cnt), Tmp1(env, cnt), P.Exec(pcode, c, u, s);
    var v, w, x := P.Value(c, s.env, u.base).value, P.Value(c, s.env, u.incr).value, P.Value(c, s.env, u.src).value;
    var addr := Wrap(v as int + w as int);
    RunNone(code, d, t);
    SitsUnit(code, t.pc, UnitCode(env, cnt, paramC, u), 0);
    SitsUnit(code, t.pc, UnitCode(env, cnt, paramC, u), 1);
    SitsUnit(code, t.pc, UnitCode(env, cnt, paramC, u), 2);
    LoadStep(code, env, c, d, saves, s, t, 0, a, u.base, v);
    var t1 := Run(code, d, t, 1);
    ReadWritten(t, a, v, a, t.pc + 1);
    LitValue(c, s.env, u.incr);
    LoadStep(code, env, c, d, saves, s, t, 1, b, u.src, x);
    ReadWritten(t1, b, x, a, t1.pc + 1);
    ReadWritten(t1, b, x, b, t1.pc + 1);
    AwDone(code, env, cnt, paramC, u, c, d, saves, s, s', t, 2, a, w, b, v, addr, x);
    m := 3;
  }

  lemma WriteAtOperand(
    code: seq<Unit>, env: Env, cnt: nat, paramC: nat, u: P.Unit, pcode: seq<P.Unit>, c: P.Context, d: Context, saves: seq<Word>,
    s: P.State, t: State)
    returns (m: nat)
    requires UnitReady(code, env, cnt, paramC, u, c, d, saves, s, t) && u.ArrayWrite? && !u.incr.Lit?
    requires P.Exec(pcode, c, u, s).status != P.Stuck
    ensures UnitDone(code, env, cnt, paramC, u, c, d, saves, P.Exec(pcode, c, u, s), t, m)
  {
    hide *;
    ReadyMeans(code, env, cnt, paramC, u, c, d, saves, s, t);
    WriteCode(env, cnt, paramC, u);
    WriteMeans(pcode, c, u, s);
    var a, b, s' := Tmp0(env, cnt), Tmp1(env, cnt), P.Exec(pcode, c, u, s);
    var v, w, x := P.Value(c, s.env, u.base).value, P.Value(c, s.env, u.incr).value, P.Value(c, s.env, u.src).value;
    var addr := Wrap(v as int + w as int);
    RunNone(code, d, t);
    SitsUnit(code, t.pc, UnitCode(env, cnt, paramC, u), 0);
    SitsUnit(code, t.pc, UnitCode(env, cnt, paramC, u), 1);
    SitsUnit(code, t.pc, UnitCode(env, cnt, paramC, u), 2);
    LoadStep(code, env, c, d, saves, s, t, 0, a, u.base, v);
    var t1 := Run(code, d, t, 1);
    ReadWritten(t, a, v, a, t.pc + 1);
    SitsUnit(code, t.pc, UnitCode(env, cnt, paramC, u), 3);
    SitsUnit(code, t.pc, UnitCode(env, cnt, paramC, u), 4);
    LoadStep(code, env, c, d, saves, s, t, 1, b, u.incr, w);
    var t2 := Run(code, d, t, 2);
    ReadWritten(t1, b, w, a, t1.pc + 1);
    ReadWritten(t1, b, w, b, t1.pc + 1);
    RbrExec(code, d, t2, Plus, a, b, v, w);
    PlusZero(v, w);
    RegStep(code, env, c, d, saves, s, t, 2, Rbr(Plus, a, a, b), a, addr);
    var t3 := Run(code, d, t, 3);
    ReadWritten(t2, a, addr, a, t2.pc + 1);
    LoadStep(code, env, c, d, saves, s, t, 3, b, u.src, x);
    ReadWritten(t3, b, x, a, t3.pc + 1);
    ReadWritten(t3, b, x, b, t3.pc + 1);
    AwDone(code, env, cnt, paramC, u, c, d, saves, s, s', t, 4, a, 0, b, addr, addr, x);
    m := 5;
  }

  lemma WriteDone(
    code: seq<Unit>, env: Env, cnt: nat, paramC: nat, u: P.Unit, pcode: seq<P.Unit>, c: P.Context, d: Context, saves: seq<Word>,
    s: P.State, t: State)
    returns (m: nat)
    requires UnitReady(code, env, cnt, paramC, u, c, d, saves, s, t) && u.ArrayWrite?
    requires P.Exec(pcode, c, u, s).status != P.Stuck
    ensures UnitDone(code, env, cnt, paramC, u, c, d, saves, P.Exec(pcode, c, u, s), t, m)
  {
    hide *;
    if u.incr.Lit? {
      m := WriteAtLiteral(code, env, cnt, paramC, u, pcode, c, d, saves, s, t);
    } else {
      m := WriteAtOperand(code, env, cnt, paramC, u, pcode, c, d, saves, s, t);
    }
  }


  // ----- calls -----

  lemma AbiInjective(i: nat, j: nat)
    requires i != j
    ensures AbiArgument(i) != AbiArgument(j)
  {
  }

  lemma ArgPushed(args: seq<Word>, t: State, v: Word, p: nat)
    requires HoldsArgs(args, t)
    ensures HoldsArgs(args + [v], t.(regs := t.regs[AbiArgument(|args|) := v], pc := p))
  {
    forall j | 0 <= j < |args| ensures AbiArgument(j) != AbiArgument(|args|) {
      AbiInjective(j, |args|);
    }
  }

  lemma ArgsSeen(args: seq<Word>, t: State)
    requires HoldsArgs(args, t)
    ensures ArgsReadable(t, |args|) && CallArgs(t, |args|) == args
  {
    hide Read, AbiArgument;
  }

  /** Both machines observe the same event. */
  lemma EventSame(env: Env, c: P.Context, d: Context, saves: seq<Word>, s: P.State, t: State, name: string)
    requires Linked(c, d, env) && Agrees(env, c, d, saves, s, t) && HoldsArgs(s.args, t) && |s.args| == c.arity(name)
    ensures ArgsReadable(t, d.arity(name)) && CallEvent(d, t, name) == P.CallEvent(c, s, name)
  {
    ArgsSeen(s.args, t);
    hide HoldsArgs, SavesKept, ArgsReadable, CallArgs, ArraysView, Wrap, Read;
    assert GlobalsView(d, t.mem) == P.Restrict(s.env, c.globals);
  }

  lemma MemAfterArrays(d: Context, mem: map<Word, Word>, e: Effect)
    ensures ArraysView(d, MemAfter(d, mem, e)) == P.Overlay(ArraysView(d, mem), e.mem)
  {
  }

  /** A global scalar after a call: what the callee left, in both machines. */
  lemma CellAfter(env: Env, c: P.Context, d: Context, t: State, s: P.State, e: Effect, o: Operand)
    requires Linked(c, d, env) && o in s.env && InPlace(env, d, t, o, s.env[o])
    ensures var t' := t.(mem := MemAfter(d, t.mem, e));
            InPlace(env, d, t', o, P.Overlay(s.env, P.Restrict(e.globals, c.globals))[o])
  {
    hide Wrap;
  }

  lemma SavesAfter(env: Env, d: Context, t: State, saves: seq<Word>, trace: seq<Event>)
    requires SavesKept(env, t, saves)
    ensures SavesKept(env, t.(regs := RegsAfter(d, t, trace)), saves)
  {
  }

  lemma InPlaceOnly(env: Env, d: Context, t: State, t': State, o: Operand, v: Word)
    requires InPlace(env, d, t, o, v) && t'.frame == t.frame && t'.mem == t.mem
    ensures InPlace(env, d, t', o, v)
  {
  }

  lemma CallAgrees(env: Env, c: P.Context, d: Context, saves: seq<Word>, s: P.State, t: State, name: string)
    requires Linked(c, d, env) && Agrees(env, c, d, saves, s, t) && HoldsArgs(s.args, t) && |s.args| == c.arity(name)
    ensures var t' := ExecCall(d, t, name);
            && t'.pc == t.pc + 1 && Agrees(env, c, d, saves, P.AfterCall(c, s, name), t')
            && Read(t', Arg(0)) == Some(P.CallValue(c, s, name))
  {
    hide *;
    EventSame(env, c, d, saves, s, t, name);
    AgreesParts(env, c, d, saves, s, t);
    ExecCallIs(d, t, name);
    AfterCallIs(c, s, name);
    LinkedCalls(c, d, env);
    var trace := t.trace + [CallEvent(d, t, name)];
    var e := d.world(trace);
    var t' := ExecCall(d, t, name);
    MemAfterArrays(d, t.mem, e);
    ReturnRead(d, t, t', trace);
    SavesAfter(env, d, t, saves, trace);
    SavesOnly(env, t.(regs := RegsAfter(d, t, trace)), t', saves);
    forall o | o in s.env ensures InPlace(env, d, t', o, P.AfterCall(c, s, name).env[o]) {
      CellAfter(env, c, d, t, s, e, o);
      InPlaceOnly(env, d, t.(mem := MemAfter(d, t.mem, e)), t', o, P.AfterCall(c, s, name).env[o]);
    }
    AllocatedAfter(env, d, t, e);
    AllocatedOnly(env, d, t.(mem := MemAfter(d, t.mem, e)), t');
    AgreesFrom(env, c, d, saves, P.AfterCall(c, s, name), t');
  }

  lemma AgreesParts(env: Env, c: P.Context, d: Context, saves: seq<Word>, s: P.State, t: State)
    requires Agrees(env, c, d, saves, s, t)
    ensures t.status == Running && t.trace == s.trace && ArraysView(d, t.mem) == s.mem && c.globals <= s.env.Keys
    ensures forall o :: o in s.env ==> InPlace(env, d, t, o, s.env[o])
    ensures Allocated(env, d, t) && SavesKept(env, t, saves)
  {
    hide InPlace, Allocated, SavesKept, ArraysView;
  }

  lemma AgreesFrom(env: Env, c: P.Context, d: Context, saves: seq<Word>, s: P.State, t: State)
    requires t.status == Running && t.trace == s.trace && ArraysView(d, t.mem) == s.mem && c.globals <= s.env.Keys
    requires forall o :: o in s.env ==> InPlace(env, d, t, o, s.env[o])
    requires Allocated(env, d, t) && SavesKept(env, t, saves)
    ensures Agrees(env, c, d, saves, s, t)
  {
    hide InPlace, Allocated, SavesKept, ArraysView;
  }

  lemma ExecCallIs(d: Context, t: State, name: string)
    requires ArgsReadable(t, d.arity(name))
    ensures var trace := t.trace + [CallEvent(d, t, name)];
            ExecCall(d, t, name)
            == t.(regs := RegsAfter(d, t, trace), mem := MemAfter(d, t.mem, d.world(trace)), trace := trace, pc := t.pc + 1)
  {
    hide ArgsReadable, CallEvent, RegsAfter, MemAfter;
  }

  lemma AfterCallIs(c: P.Context, s: P.State, name: string)
    requires |s.args| == c.arity(name)
    ensures var trace := s.trace + [P.CallEvent(c, s, name)];
            && P.AfterCall(c, s, name)
               == s.(env := P.Overlay(s.env, P.Restrict(c.world(trace).globals, c.globals)),
                     mem := P.Overlay(s.mem, c.world(trace).mem), args := [], trace := trace)
            && P.CallValue(c, s, name) == c.world(trace).ret
    ensures P.AfterCall(c, s, name).env.Keys == s.env.Keys
  {
    hide P.CallEvent, P.Restrict;
  }

  lemma ReturnRead(d: Context, t: State, t': State, trace: seq<Event>)
    requires t'.regs == RegsAfter(d, t, trace)
    ensures Read(t', Arg(0)) == Some(d.world(trace).ret)
  {
  }

  lemma LinkedCalls(c: P.Context, d: Context, env: Env)
    requires Linked(c, d, env)
    ensures c.arity == d.arity && c.world == d.world
  {
  }

  lemma AllocatedOnly(env: Env, d: Context, t: State, t': State)
    requires Allocated(env, d, t) && t'.frame == t.frame && t'.mem == t.mem
    ensures Allocated(env, d, t')
  {
  }

  lemma SavesOnly(env: Env, t: State, t': State, saves: seq<Word>)
    requires SavesKept(env, t, saves) && t'.frame == t.frame && t'.regs == t.regs
    ensures SavesKept(env, t', saves)
  {
  }

  lemma AllocatedAfter(env: Env, d: Context, t: State, e: Effect)
    requires Allocated(env, d, t)
    ensures Allocated(env, d, t.(mem := MemAfter(d, t.mem, e)))
    ensures MemAfter(d, t.mem, e).Keys == t.mem.Keys
  {
  }

  lemma CallMeans(pcode: seq<P.Unit>, c: P.Context, u: P.Unit, s: P.State)
    requires P.IsCall(u) && P.Exec(pcode, c, u, s).status != P.Stuck
    ensures |s.args| == c.arity(u.name)
    ensures var a := P.AfterCall(c, s, u.name);
            P.Exec(pcode, c, u, s)
            == if u.CallV? then a.(pc := s.pc + 1)
               else a.(env := a.env[u.dst := P.CallValue(c, s, u.name)], pc := s.pc + 1)
    ensures P.Exec(pcode, c, u, s).args == [] && P.Exec(pcode, c, u, s).status == s.status
  {
    hide P.CallValue, P.CallEvent, P.Overlay, P.Restrict;
  }

  lemma CallCode(env: Env, cnt: nat, paramC: nat, u: P.Unit)
    requires UnitOk(env, paramC, u) && P.IsCall(u)
    ensures u.CallV? ==> UnitCode(env, cnt, paramC, u) == [Call(u.name)]
    ensures u.CallI? ==>
              Storable(env, u.dst)
              && UnitCode(env, cnt, paramC, u) == [Call(u.name)] + StoreUnits(env, Tmp2(env, cnt), Arg(0), u.dst)
  {
    hide Known, Storable, StoreUnits, NextIndex, RegAt;
  }

  lemma CallStep(code: seq<Unit>, d: Context, t: State, name: string)
    requires t.status == Running && t.pc < |code| && code[t.pc] == Call(name)
    ensures Run(code, d, t, 1) == ExecCall(d, t, name)
  {
    hide ExecCall;
    RunNone(code, d, t);
    OneMore(code, d, t, 0, Call(name));
  }

  lemma CallKinds(u: P.Unit)
    requires P.IsCall(u)
    ensures u.CallI? || u.CallV?
  {
  }

  lemma CallDone(
    code: seq<Unit>, env: Env, cnt: nat, paramC: nat, u: P.Unit, pcode: seq<P.Unit>, c: P.Context, d: Context, saves: seq<Word>,
    s: P.State, t: State)
    returns (m: nat)
    requires UnitReady(code, env, cnt, paramC, u, c, d, saves, s, t) && P.IsCall(u) && HoldsArgs(s.args, t)
    requires P.Exec(pcode, c, u, s).status != P.Stuck
    ensures UnitDone(code, env, cnt, paramC, u, c, d, saves, P.Exec(pcode, c, u, s), t, m)
  {
    hide *;
    CallKinds(u);
    ReadyMeans(code, env, cnt, paramC, u, c, d, saves, s, t);
    CallCode(env, cnt, paramC, u);
    CallMeans(pcode, c, u, s);
    SitsUnit(code, t.pc, UnitCode(env, cnt, paramC, u), 0);
    AgreesRuns(env, c, d, saves, s, t);
    CallAgrees(env, c, d, saves, s, t, u.name);
    CallStep(code, d, t, u.name);
    var a, s' := P.AfterCall(c, s, u.name), P.Exec(pcode, c, u, s);
    if u.CallV? {
      EnvAgrees(env, c, d, saves, a, s', Run(code, d, t, 1));
      m := 1;
      DoneIs(code, env, cnt, paramC, u, c, d, saves, s', t, m);
    } else {
      SitsSplit(code, t.pc, [Call(u.name)], StoreUnits(env, Tmp2(env, cnt), Arg(0), u.dst));
      m := StoreRuns(code, env, c, d, saves, a, t, 1, Tmp2(env, cnt), Arg(0), u.dst, P.CallValue(c, s, u.name));
      EnvAgrees(env, c, d, saves, a.(env := a.env[u.dst := P.CallValue(c, s, u.name)]), s', Run(code, d, t, m));
      DoneIs(code, env, cnt, paramC, u, c, d, saves, s', t, m);
    }
  }

  lemma DoneIs(
    code: seq<Unit>, env: Env, cnt: nat, paramC: nat, u: P.Unit, c: P.Context, d: Context, saves: seq<Word>,
    s': P.State, t: State, m: nat)
    requires UnitOk(env, paramC, u)
    requires Run(code, d, t, m).pc == t.pc + |UnitCode(env, cnt, paramC, u)|
    requires Agrees(env, c, d, saves, s', Run(code, d, t, m))
    ensures UnitDone(code, env, cnt, paramC, u, c, d, saves, s', t, m)
  {
  }

  // ----- whole functions -----

  ghost predicate FuncReady(env: Env, arity: nat, code: seq<P.Unit>) {
    && EnvOk(env) && ParamsKnown(env, arity) && CodeOk(env, code) && P.ArgsContiguous(code)
    && P.Label(env.epilogue) !in code
    && (forall i :: 0 <= i < arity ==> P.Param(i) !in env.globals && env.locals[P.Param(i)].len == 0)
  }

  /** The index in the generated code at which the code of unit `i` starts. */
  ghost function PcOf(env: Env, arity: nat, code: seq<P.Unit>, i: nat): nat
    requires ParamsKnown(env, arity) && CodeOk(env, code) && i <= |code|
  {
    |Prologue(env, arity)| + Start(BodyBlocks(env, code), i)
  }

  lemma BodyBlockIs(env: Env, code: seq<P.Unit>, i: nat)
    requires CodeOk(env, code) && i < |code|
    ensures |BodyBlocks(env, code)| == |code|
    ensures BodyBlocks(env, code)[i] == UnitCode(env, CntAt(env, code, i), ParamAt(code, i), code[i])
  {
    hide UnitCode, CntAt, ParamAt;
  }

  lemma PcOfIs(env: Env, arity: nat, code: seq<P.Unit>, i: nat)
    requires ParamsKnown(env, arity) && CodeOk(env, code) && i <= |code|
    ensures |BodyBlocks(env, code)| == |code|
    ensures PcOf(env, arity, code, i) == |Prologue(env, arity)| + Start(BodyBlocks(env, code), i)
  {
    hide Prologue, Start, UnitCode, CntAt, ParamAt;
  }

  lemma FunctionCodeIs(env: Env, arity: nat, code: seq<P.Unit>)
    requires ParamsKnown(env, arity) && CodeOk(env, code)
    ensures FunctionCode(env, arity, code) == Prologue(env, arity) + Flatten(BodyBlocks(env, code)) + Epilogue(env)
  {
    hide Prologue, Epilogue, BodyBlocks, Flatten;
  }

  lemma UnitSits(env: Env, arity: nat, code: seq<P.Unit>, i: nat)
    requires ParamsKnown(env, arity) && CodeOk(env, code) && i < |code|
    ensures var us := UnitCode(env, CntAt(env, code, i), ParamAt(code, i), code[i]);
            && Sits(FunctionCode(env, arity, code), PcOf(env, arity, code, i), us)
            && PcOf(env, arity, code, i + 1) == PcOf(env, arity, code, i) + |us|
  {
    hide *;
    BodyBlockIs(env, code, i);
    PcOfIs(env, arity, code, i);
    PcOfIs(env, arity, code, i + 1);
    FunctionCodeIs(env, arity, code);
    BlockSits(Prologue(env, arity), BodyBlocks(env, code), Epilogue(env), i);
  }

  /** Labels come only from labels. */
  lemma UnitLabels(env: Env, cnt: nat, paramC: nat, u: P.Unit, l: int)
    requires UnitOk(env, paramC, u)
    ensures u == P.Label(l) ==> UnitCode(env, cnt, paramC, u) == [Label(l)]
    ensures u != P.Label(l) ==> Label(l) !in UnitCode(env, cnt, paramC, u)
  {
  }

  lemma LabelPlace(env: Env, arity: nat, code: seq<P.Unit>, l: int)
    requires ParamsKnown(env, arity) && CodeOk(env, code) && IndexOf(code, P.Label(l)).Some?
    ensures IndexOf(FunctionCode(env, arity, code), Label(l)) == Some(PcOf(env, arity, code, IndexOf(code, P.Label(l)).value))
  {
    hide UnitCode, UnitOk, CntAt, ParamAt, IndexOf;
    var blocks := BodyBlocks(env, code);
    forall i | 0 <= i < |code|
      ensures code[i] == P.Label(l) ==> blocks[i] == [Label(l)]
      ensures code[i] != P.Label(l) ==> Label(l) !in blocks[i]
    {
      UnitLabels(env, CntAt(env, code, i), ParamAt(code, i), code[i], l);
    }
    LabelImage(code, blocks, P.Label(l), Label(l));
    PrologueHasNoLabels(env, arity, l);
    IndexOfMiddle(Prologue(env, arity), Flatten(blocks), Epilogue(env), Label(l));
  }

  lemma PrologueHasNoLabels(env: Env, arity: nat, l: int)
    requires ParamsKnown(env, arity)
    ensures Label(l) !in Prologue(env, arity)
  {
  }

  lemma EpiloguePlace(env: Env, arity: nat, code: seq<P.Unit>)
    requires ParamsKnown(env, arity) && CodeOk(env, code) && P.Label(env.epilogue) !in code
    ensures IndexOf(FunctionCode(env, arity, code), Label(env.epilogue)) == Some(PcOf(env, arity, code, |code|))
    ensures Sits(FunctionCode(env, arity, code), PcOf(env, arity, code, |code|), Epilogue(env))
  {
    hide UnitCode, UnitOk, CntAt, ParamAt, IndexOf;
    var blocks, l := BodyBlocks(env, code), env.epilogue;
    forall i | 0 <= i < |code| ensures Label(l) !in blocks[i] {
      UnitLabels(env, CntAt(env, code, i), ParamAt(code, i), code[i], l);
    }
    LabelImage(code, blocks, P.Label(l), Label(l));
    PrologueHasNoLabels(env, arity, l);
    StartLast(blocks);
    EpilogueLabel(env);
    IndexOfMiddle(Prologue(env, arity), Flatten(blocks), Epilogue(env), Label(l));
    hide Prologue, Flatten, Epilogue;
    SitsEnd(Prologue(env, arity) + Flatten(blocks), Epilogue(env));
  }

  lemma SitsEnd<T>(a: seq<T>, b: seq<T>)
    ensures Sits(a + b, |a|, b)
  {
  }

  lemma EpilogueLabel(env: Env)
    ensures IndexOf(Epilogue(env), Label(env.epilogue)) == Some(0)
  {
    IndexOfIs(Epilogue(env), Label(env.epilogue), 0);
  }

  // ----- arguments -----

  /** A unit that is neither an argument nor a call starts with no argument pending. */
  lemma {:induction false} NoArgs(code: seq<P.Unit>, i: nat)
    requires P.ArgsContiguous(code) && i < |code| && !code[i].Arg? && !P.IsCall(code[i])
    ensures ParamAt(code, i) == 0
  {
    if i > 0 && !P.IsCall(code[i - 1]) {
      assert !code[i - 1].Arg?;
      NoArgs(code, i - 1);
    }
  }

  /** The same at the end of the code. */
  lemma NoArgsAtEnd(code: seq<P.Unit>)
    requires P.ArgsContiguous(code)
    ensures ParamAt(code, |code|) == 0
  {
    if |code| > 0 && !P.IsCall(code[|code| - 1]) {
      NoArgs(code, |code| - 1);
    }
  }

  // ----- the simulation -----

  /** At a unit boundary the machines agree and the arguments pushed so far are in their registers. */
  ghost predicate Sim(env: Env, arity: nat, code: seq<P.Unit>, c: P.Context, d: Context, saves: seq<Word>, s: P.State, t: State)
    requires ParamsKnown(env, arity) && CodeOk(env, code)
  {
    && s.status == P.Running && s.pc <= |code| && t.pc == PcOf(env, arity, code, s.pc)
    && |s.args| == ParamAt(code, s.pc) && HoldsArgs(s.args, t)
    && Agrees(env, c, d, saves, s, t)
  }

  /** At the epilogue with the return value in place. */
  ghost predicate Leaving(
    env: Env, arity: nat, code: seq<P.Unit>, c: P.Context, d: Context, saves: seq<Word>, s: P.State, t: State)
    requires ParamsKnown(env, arity) && CodeOk(env, code)
  {
    && s.status.Returned? && t.pc == PcOf(env, arity, code, |code|)
    && (s.status.val.Some? ==> Read(t, Arg(0)) == s.status.val)
    && Agrees(env, c, d, saves, s, t)
  }

  lemma SimReady(env: Env, arity: nat, code: seq<P.Unit>, c: P.Context, d: Context, saves: seq<Word>, s: P.State, t: State)
    requires FuncReady(env, arity, code) && Linked(c, d, env) && Sim(env, arity, code, c, d, saves, s, t) && s.pc < |code|
    ensures UnitReady(FunctionCode(env, arity, code), env, CntAt(env, code, s.pc), ParamAt(code, s.pc), code[s.pc], c, d, saves, s, t)
    ensures HoldsArgs(s.args, t) && |s.args| == ParamAt(code, s.pc) && s.status == P.Running
    ensures t.pc == PcOf(env, arity, code, s.pc)
  {
    hide Agrees, Linked, FunctionCode, UnitCode, UnitOk, ParamAt, CntAt, PcOf, HoldsArgs, Sits, P.ArgsContiguous;
    UnitSits(env, arity, code, s.pc);
    CntInPool(env, code, s.pc);
  }

  lemma SimIs(
    env: Env, arity: nat, code: seq<P.Unit>, c: P.Context, d: Context, saves: seq<Word>, s: P.State, t: State)
    requires ParamsKnown(env, arity) && CodeOk(env, code)
    requires s.status == P.Running && s.pc <= |code| && t.pc == PcOf(env, arity, code, s.pc)
    requires |s.args| == ParamAt(code, s.pc) && HoldsArgs(s.args, t) && Agrees(env, c, d, saves, s, t)
    ensures Sim(env, arity, code, c, d, saves, s, t)
  {
  }

  lemma NoArgsHeld(t: State)
    ensures HoldsArgs([], t)
  {
  }

  lemma WorkCode(env: Env, cnt: nat, paramC: nat, u: P.Unit)
    requires UnitOk(env, paramC, u)
    requires u.Unary? || u.Copy? || u.Binary? || u.ArrayRead? || u.ArrayWrite? || P.IsCall(u)
    ensures |UnitCode(env, cnt, paramC, u)| > 0
  {
    hide Known, Storable, LoadUnit, NextIndex, RegAt;
  }

  /** Units that compute, store or call. */
  lemma WorkSim(
    env: Env, arity: nat, code: seq<P.Unit>, c: P.Context, d: Context, saves: seq<Word>, s: P.State, t: State)
    returns (m: nat)
    requires FuncReady(env, arity, code) && Linked(c, d, env) && Sim(env, arity, code, c, d, saves, s, t) && s.pc < |code|
    requires var u := code[s.pc]; u.Unary? || u.Copy? || u.Binary? || u.ArrayRead? || u.ArrayWrite? || P.IsCall(u)
    requires P.Exec(code, c, code[s.pc], s).status != P.Stuck
    ensures Sim(env, arity, code, c, d, saves, P.Exec(code, c, code[s.pc], s), Run(FunctionCode(env, arity, code), d, t, m))
    ensures m > 0
  {
    hide *;
    ReadyFunc(env, arity, code);
    var u, dcode := code[s.pc], FunctionCode(env, arity, code);
    var cnt, paramC, s' := CntAt(env, code, s.pc), ParamAt(code, s.pc), P.Exec(code, c, code[s.pc], s);
    SimReady(env, arity, code, c, d, saves, s, t);
    UnitSits(env, arity, code, s.pc);
    if u.Unary? || u.Copy? {
      m := UnaryDone(dcode, env, cnt, paramC, u, code, c, d, saves, s, t);
    } else if u.Binary? {
      m := BinaryDone(dcode, env, cnt, paramC, u, code, c, d, saves, s, t);
    } else if u.ArrayRead? {
      m := ReadDone(dcode, env, cnt, paramC, u, code, c, d, saves, s, t);
    } else if u.ArrayWrite? {
      m := WriteDone(dcode, env, cnt, paramC, u, code, c, d, saves, s, t);
    } else {
      m := CallDone(dcode, env, cnt, paramC, u, code, c, d, saves, s, t);
    }
    WorkCode(env, cnt, paramC, u);
    RunNone(dcode, d, t);
    WorkNext(code, c, s);
    NoArgsHeld(Run(dcode, d, t, m));
    DoneMeans(dcode, env, cnt, paramC, u, c, d, saves, s', t, m);
    SimIs(env, arity, code, c, d, saves, s', Run(dcode, d, t, m));
  }

  lemma ReadyFunc(env: Env, arity: nat, code: seq<P.Unit>)
    requires FuncReady(env, arity, code)
    ensures EnvOk(env) && ParamsKnown(env, arity) && CodeOk(env, code) && P.ArgsContiguous(code)
    ensures P.Label(env.epilogue) !in code
  {
  }

  lemma DoneMeans(
    code: seq<Unit>, env: Env, cnt: nat, paramC: nat, u: P.Unit, c: P.Context, d: Context, saves: seq<Word>,
    s': P.State, t: State, m: nat)
    requires UnitOk(env, paramC, u) && UnitDone(code, env, cnt, paramC, u, c, d, saves, s', t, m)
    ensures Run(code, d, t, m).pc == t.pc + |UnitCode(env, cnt, paramC, u)|
    ensures Agrees(env, c, d, saves, s', Run(code, d, t, m))
  {
  }

  lemma WorkNext(code: seq<P.Unit>, c: P.Context, s: P.State)
    requires P.ArgsContiguous(code) && s.pc < |code| && s.status == P.Running && |s.args| == ParamAt(code, s.pc)
    requires var u := code[s.pc]; u.Unary? || u.Copy? || u.Binary? || u.ArrayRead? || u.ArrayWrite? || P.IsCall(u)
    requires P.Exec(code, c, code[s.pc], s).status != P.Stuck
    ensures var s' := P.Exec(code, c, code[s.pc], s);
            s'.pc == s.pc + 1 && s'.status == P.Running && s'.args == [] && ParamAt(code, s.pc + 1) == 0
  {
    var u := code[s.pc];
    if P.IsCall(u) {
      CallMeans(code, c, u, s);
    } else {
      NoArgs(code, s.pc);
      if u.ArrayWrite? {
        WriteMeans(code, c, u, s);
      } else {
        AssignMeans(code, c, u, s);
      }
    }
    hide P.Exec, P.ArgsContiguous;
  }

  // ----- control -----

  lemma GotoMeans(code: seq<P.Unit>, c: P.Context, u: P.Unit, s: P.State)
    requires (u.Jump? || u.JumpIf?) && P.Exec(code, c, u, s).status != P.Stuck && s.status == P.Running
    ensures u.Jump? ==>
              IndexOf(code, P.Label(u.id)).Some? && P.Exec(code, c, u, s) == s.(pc := IndexOf(code, P.Label(u.id)).value)
    ensures u.JumpIf? ==>
              var v, w := P.Value(c, s.env, u.src1), P.Value(c, s.env, u.src2);
              && v.Some? && w.Some?
              && (if EvalBinary(u.bop, v.value, w.value) != 0 then
                    IndexOf(code, P.Label(u.id)).Some? && P.Exec(code, c, u, s) == s.(pc := IndexOf(code, P.Label(u.id)).value)
                  else P.Exec(code, c, u, s) == s.(pc := s.pc + 1))
  {
    hide P.Value, EvalBinary, IndexOf;
  }

  lemma JmpExec(code: seq<Unit>, d: Context, t: State, l: int)
    requires IndexOf(code, Label(l)).Some?
    ensures Exec(code, d, Jmp(l), t) == t.(pc := IndexOf(code, Label(l)).value)
  {
  }

  lemma JcExec(code: seq<Unit>, d: Context, t: State, op: BinaryOp, l: int, r: Reg, v: Word)
    requires Read(t, r) == Some(v) && (EvalBinary(op, v, 0) != 0 ==> IndexOf(code, Label(l)).Some?)
    ensures Exec(code, d, Jc(op, l, r, Zero), t)
         == t.(pc := if EvalBinary(op, v, 0) != 0 then IndexOf(code, Label(l)).value else t.pc + 1)
  {
    hide EvalBinary, IndexOf;
  }

  lemma ControlCode(env: Env, cnt: nat, paramC: nat, u: P.Unit)
    requires UnitOk(env, paramC, u)
    ensures u.Label? ==> UnitCode(env, cnt, paramC, u) == [Label(u.id)]
    ensures u.Jump? ==> UnitCode(env, cnt, paramC, u) == [Jmp(u.id)]
    ensures u.JumpIf? ==>
              u.src2 == P.Lit(0) && Known(env, u.src1)
              && UnitCode(env, cnt, paramC, u) == [LoadUnit(env, Tmp0(env, cnt), u.src1), Jc(u.bop, u.id, Tmp0(env, cnt), Zero)]
    ensures u.Arg? ==> Known(env, u.val) && paramC < 12 && UnitCode(env, cnt, paramC, u) == [LoadUnit(env, AbiArgument(paramC), u.val)]
    ensures u.RetI? ==>
              Known(env, u.val) && UnitCode(env, cnt, paramC, u) == [LoadUnit(env, Arg(0), u.val), Jmp(env.epilogue)]
    ensures u.RetV? ==> UnitCode(env, cnt, paramC, u) == [Jmp(env.epilogue)]
  {
    hide Known, LoadUnit, NextIndex, RegAt, AbiArgument;
    assert u.JumpIf? ==> u.src1 in P.ROps(u);
    assert u.Arg? || u.RetI? ==> u.val in P.ROps(u);
  }

  lemma LabelStep(code: seq<Unit>, d: Context, t: State)
    requires t.status == Running && t.pc < |code| && code[t.pc].Label?
    ensures Run(code, d, t, 1) == t.(pc := t.pc + 1)
  {
    RunNone(code, d, t);
    OneMore(code, d, t, 0, code[t.pc]);
  }

  /** No unit that is a jump target has arguments pending. */
  lemma TargetHasNoArgs(code: seq<P.Unit>, l: int)
    requires P.ArgsContiguous(code) && IndexOf(code, P.Label(l)).Some?
    ensures IndexOf(code, P.Label(l)).value < |code| && ParamAt(code, IndexOf(code, P.Label(l)).value) == 0
  {
    NoArgs(code, IndexOf(code, P.Label(l)).value);
  }

  lemma ParamStays(code: seq<P.Unit>, i: nat)
    requires i < |code| && !code[i].Arg? && !P.IsCall(code[i])
    ensures ParamAt(code, i + 1) == ParamAt(code, i)
  {
  }

  lemma ControlSim(
    env: Env, arity: nat, code: seq<P.Unit>, c: P.Context, d: Context, saves: seq<Word>, s: P.State, t: State)
    returns (m: nat)
    requires FuncReady(env, arity, code) && Linked(c, d, env) && Sim(env, arity, code, c, d, saves, s, t) && s.pc < |code|
    requires var u := code[s.pc]; u.Label? || u.Jump? || u.JumpIf?
    requires P.Exec(code, c, code[s.pc], s).status != P.Stuck
    ensures Sim(env, arity, code, c, d, saves, P.Exec(code, c, code[s.pc], s), Run(FunctionCode(env, arity, code), d, t, m))
    ensures m > 0
  {
    hide *;
    ReadyFunc(env, arity, code);
    var u, dcode := code[s.pc], FunctionCode(env, arity, code);
    var cnt, paramC, s' := CntAt(env, code, s.pc), ParamAt(code, s.pc), P.Exec(code, c, code[s.pc], s);
    SimReady(env, arity, code, c, d, saves, s, t);
    ReadyMeans(dcode, env, cnt, paramC, u, c, d, saves, s, t);
    UnitSits(env, arity, code, s.pc);
    ControlCode(env, cnt, paramC, u);
    NotWork(u);
    NoArgs(code, s.pc);
    ParamStays(code, s.pc);
    AgreesRuns(env, c, d, saves, s, t);
    RunNone(dcode, d, t);
    SitsUnit(dcode, t.pc, UnitCode(env, cnt, paramC, u), 0);
    if u.Label? {
      LabelMeans(code, c, u, s);
      LabelStep(dcode, d, t);
      m := 1;
    } else if u.Jump? {
      GotoMeans(code, c, u, s);
      LabelPlace(env, arity, code, u.id);
      TargetHasNoArgs(code, u.id);
      JmpExec(dcode, d, t, u.id);
      OneMore(dcode, d, t, 0, Jmp(u.id));
      m := 1;
    } else {
      GotoMeans(code, c, u, s);
      LitValue(c, s.env, u.src2);
      var a, v := Tmp0(env, cnt), P.Value(c, s.env, u.src1).value;
      LoadStep(dcode, env, c, d, saves, s, t, 0, a, u.src1, v);
      ReadWritten(t, a, v, a, t.pc + 1);
      var t1 := Run(dcode, d, t, 1);
      AgreesRuns(env, c, d, saves, s, t1);
      SitsUnit(dcode, t.pc, UnitCode(env, cnt, paramC, u), 1);
      if EvalBinary(u.bop, v, 0) != 0 {
        LabelPlace(env, arity, code, u.id);
        TargetHasNoArgs(code, u.id);
      }
      JcExec(dcode, d, t1, u.bop, u.id, a, v);
      OneMore(dcode, d, t, 1, Jc(u.bop, u.id, a, Zero));
      m := 2;
    }
    var t' := Run(dcode, d, t, m);
    NoArgsHeld(t');
    MovedAgrees(env, c, d, saves, s, if u.JumpIf? then Run(dcode, d, t, 1) else t, t'.pc, s'.pc);
    SimIs(env, arity, code, c, d, saves, s', t');
  }

  lemma NotWork(u: P.Unit)
    requires u.Label? || u.Jump? || u.JumpIf? || u.RetI? || u.RetV?
    ensures !u.Arg? && !P.IsCall(u)
  {
  }

  lemma LabelMeans(code: seq<P.Unit>, c: P.Context, u: P.Unit, s: P.State)
    requires u.Label?
    ensures P.Exec(code, c, u, s) == s.(pc := s.pc + 1)
  {
  }

  lemma ArgMeans(code: seq<P.Unit>, c: P.Context, u: P.Unit, s: P.State)
    requires u.Arg? && P.Exec(code, c, u, s).status != P.Stuck
    ensures var v := P.Value(c, s.env, u.val);
            v.Some? && P.Exec(code, c, u, s) == s.(pc := s.pc + 1, args := s.args + [v.value])
  {
    hide P.Value;
  }

  lemma AbiScratch(env: Env, i: nat)
    ensures Scratch(env, AbiArgument(i))
  {
  }

  lemma ArgSim(
    env: Env, arity: nat, code: seq<P.Unit>, c: P.Context, d: Context, saves: seq<Word>, s: P.State, t: State)
    returns (m: nat)
    requires FuncReady(env, arity, code) && Linked(c, d, env) && Sim(env, arity, code, c, d, saves, s, t) && s.pc < |code|
    requires code[s.pc].Arg? && P.Exec(code, c, code[s.pc], s).status != P.Stuck
    ensures Sim(env, arity, code, c, d, saves, P.Exec(code, c, code[s.pc], s), Run(FunctionCode(env, arity, code), d, t, m))
    ensures m > 0
  {
    hide *;
    ReadyFunc(env, arity, code);
    var u, dcode := code[s.pc], FunctionCode(env, arity, code);
    var cnt, paramC, s' := CntAt(env, code, s.pc), ParamAt(code, s.pc), P.Exec(code, c, code[s.pc], s);
    SimReady(env, arity, code, c, d, saves, s, t);
    ReadyMeans(dcode, env, cnt, paramC, u, c, d, saves, s, t);
    UnitSits(env, arity, code, s.pc);
    ControlCode(env, cnt, paramC, u);
    ArgMeans(code, c, u, s);
    var v := P.Value(c, s.env, u.val).value;
    RunNone(dcode, d, t);
    SitsUnit(dcode, t.pc, UnitCode(env, cnt, paramC, u), 0);
    AbiScratch(env, paramC);
    LoadStep(dcode, env, c, d, saves, s, t, 0, AbiArgument(paramC), u.val, v);
    m := 1;
    ArgPushed(s.args, t, v, t.pc + 1);
    EnvAgrees(env, c, d, saves, s, s', Run(dcode, d, t, 1));
    ParamNext(code, s.pc);
    SimIs(env, arity, code, c, d, saves, s', Run(dcode, d, t, 1));
  }

  lemma ParamNext(code: seq<P.Unit>, i: nat)
    requires i < |code| && code[i].Arg?
    ensures ParamAt(code, i + 1) == ParamAt(code, i) + 1
  {
  }

  lemma ReturnMeans(code: seq<P.Unit>, c: P.Context, u: P.Unit, s: P.State)
    requires (u.RetI? || u.RetV?) && P.Exec(code, c, u, s).status != P.Stuck
    ensures u.RetV? ==> P.Exec(code, c, u, s) == s.(status := P.Returned(None))
    ensures u.RetI? ==>
              var v := P.Value(c, s.env, u.val); v.Some? && P.Exec(code, c, u, s) == s.(status := P.Returned(v))
  {
    hide P.Value;
  }

  lemma LeavingIs(
    env: Env, arity: nat, code: seq<P.Unit>, c: P.Context, d: Context, saves: seq<Word>, s: P.State, t: State)
    requires ParamsKnown(env, arity) && CodeOk(env, code)
    requires s.status.Returned? && t.pc == PcOf(env, arity, code, |code|)
    requires s.status.val.Some? ==> Read(t, Arg(0)) == s.status.val
    requires Agrees(env, c, d, saves, s, t)
    ensures Leaving(env, arity, code, c, d, saves, s, t)
  {
  }

  lemma ReturnSim(
    env: Env, arity: nat, code: seq<P.Unit>, c: P.Context, d: Context, saves: seq<Word>, s: P.State, t: State)
    returns (m: nat)
    requires FuncReady(env, arity, code) && Linked(c, d, env) && Sim(env, arity, code, c, d, saves, s, t) && s.pc < |code|
    requires (code[s.pc].RetI? || code[s.pc].RetV?) && P.Exec(code, c, code[s.pc], s).status != P.Stuck
    ensures Leaving(env, arity, code, c, d, saves, P.Exec(code, c, code[s.pc], s), Run(FunctionCode(env, arity, code), d, t, m))
  {
    hide *;
    ReadyFunc(env, arity, code);
    var u, dcode := code[s.pc], FunctionCode(env, arity, code);
    var cnt, paramC, s' := CntAt(env, code, s.pc), ParamAt(code, s.pc), P.Exec(code, c, code[s.pc], s);
    SimReady(env, arity, code, c, d, saves, s, t);
    ReadyMeans(dcode, env, cnt, paramC, u, c, d, saves, s, t);
    ControlCode(env, cnt, paramC, u);
    ReturnMeans(code, c, u, s);
    AgreesRuns(env, c, d, saves, s, t);
    EpiloguePlace(env, arity, code);
    RunNone(dcode, d, t);
    SitsUnit(dcode, t.pc, UnitCode(env, cnt, paramC, u), 0);
    if u.RetV? {
      JmpExec(dcode, d, t, env.epilogue);
      OneMore(dcode, d, t, 0, Jmp(env.epilogue));
      m := 1;
      MovedAgrees(env, c, d, saves, s, t, Run(dcode, d, t, 1).pc, s.pc);
    } else {
      var v := P.Value(c, s.env, u.val).value;
      SitsUnit(dcode, t.pc, UnitCode(env, cnt, paramC, u), 1);
      AbiScratch(env, 0);
      AbiZero();
      LoadStep(dcode, env, c, d, saves, s, t, 0, Arg(0), u.val, v);
      ReadWritten(t, Arg(0), v, Arg(0), PcOf(env, arity, code, |code|));
      var t1 := Run(dcode, d, t, 1);
      AgreesRuns(env, c, d, saves, s, t1);
      JmpExec(dcode, d, t1, env.epilogue);
      OneMore(dcode, d, t, 1, Jmp(env.epilogue));
      m := 2;
      MovedAgrees(env, c, d, saves, s, t1, Run(dcode, d, t, 2).pc, s.pc);
    }
    EnvAgrees(env, c, d, saves, s, s', Run(dcode, d, t, m));
    LeavingIs(env, arity, code, c, d, saves, s', Run(dcode, d, t, m));
  }

  lemma AbiZero()
    ensures AbiArgument(0) == Arg(0)
  {
  }

  /** Control that runs off the end of the Pinkie code is at the epilogue already. */
  lemma FallOff(
    env: Env, arity: nat, code: seq<P.Unit>, c: P.Context, d: Context, saves: seq<Word>, s: P.State, t: State)
    requires FuncReady(env, arity, code) && Sim(env, arity, code, c, d, saves, s, t) && s.pc >= |code|
    ensures P.Step(code, c, s) == s.(status := P.Returned(None))
    ensures Leaving(env, arity, code, c, d, saves, P.Step(code, c, s), t)
  {
    hide HoldsArgs, FuncReady, CodeOk, ParamsKnown, PcOf, ParamAt, Agrees, Read;
    EnvAgrees(env, c, d, saves, s, s.(status := P.Returned(None)), t);
  }

  // ----- the epilogue -----

  /** After `i` callee-saved registers have been restored. */
  ghost predicate Restored(env: Env, saves: seq<Word>, t: State, t': State, i: nat) {
    && |saves| == 12 && t'.status == Running && t'.pc == t.pc + 1 + i
    && t'.frame == t.frame && t'.mem == t.mem && t'.trace == t.trace && Read(t', Arg(0)) == Read(t, Arg(0))
    && (forall j :: 0 <= j < i && j < 12 ==> Save(j) in t'.regs && t'.regs[Save(j)] == saves[j])
    && (forall j :: env.nSaved <= j < 12 ==> Save(j) in t'.regs && t'.regs[Save(j)] == saves[j])
  }

  lemma RestoreExec(code: seq<Unit>, env: Env, d: Context, saves: seq<Word>, t: State, t': State, i: nat)
    requires Restored(env, saves, t, t', i) && i < env.nSaved <= 12 && SavesKept(env, t, saves)
    ensures Restored(env, saves, t, Exec(code, d, Rstk(Save(i), 4 * i), t'), i + 1)
  {
  }

  lemma RestoredMeans(env: Env, saves: seq<Word>, t: State, t': State, i: nat)
    requires Restored(env, saves, t, t', i)
    ensures t'.status == Running && t'.pc == t.pc + 1 + i
  {
  }

  lemma EpilogueUnits(env: Env, i: nat)
    ensures Epilogue(env)[0] == Label(env.epilogue) && |Epilogue(env)| == env.nSaved + 2
    ensures i < env.nSaved ==> Epilogue(env)[1 + i] == Rstk(Save(i), 4 * i)
    ensures Epilogue(env)[1 + env.nSaved] == Ret
  {
  }

  lemma LabelRestores(env: Env, saves: seq<Word>, t: State)
    requires SavesKept(env, t, saves) && t.status == Running
    ensures Restored(env, saves, t, t.(pc := t.pc + 1), 0)
  {
  }

  lemma {:induction false} RestoreRuns(code: seq<Unit>, env: Env, d: Context, saves: seq<Word>, t: State, i: nat)
    requires Sits(code, t.pc, Epilogue(env)) && SavesKept(env, t, saves) && t.status == Running && i <= env.nSaved <= 12
    ensures Restored(env, saves, t, Run(code, d, t, 1 + i), i)
    decreases i
  {
    hide *;
    if i == 0 {
      EpilogueUnits(env, 0);
      SitsUnit(code, t.pc, Epilogue(env), 0);
      LabelStep(code, d, t);
      LabelRestores(env, saves, t);
    } else {
      RestoreRuns(code, env, d, saves, t, i - 1);
      var t' := Run(code, d, t, i);
      RestoredMeans(env, saves, t, t', i - 1);
      EpilogueUnits(env, i - 1);
      SitsUnit(code, t.pc, Epilogue(env), i);
      OneMore(code, d, t, i, Rstk(Save(i - 1), 4 * (i - 1)));
      RestoreExec(code, env, d, saves, t, t', i - 1);
    }
  }

  /** The function has returned as the Pinkie function did: same value, same calls, same arrays and
      global scalars, and every callee-saved register as the caller left it. */
  ghost predicate Finished(c: P.Context, d: Context, saves: seq<Word>, s: P.State, t: State) {
    && s.status.Returned? && t.status == Returned && t.trace == s.trace
    && (s.status.val.Some? ==> Read(t, Arg(0)) == s.status.val)
    && ArraysView(d, t.mem) == s.mem
    && (forall o :: o in c.globals ==> o in s.env && o in d.cells && d.cells[o] in t.mem && t.mem[d.cells[o]] == s.env[o])
    && |saves| == 12 && (forall i :: 0 <= i < 12 ==> Save(i) in t.regs && t.regs[Save(i)] == saves[i])
  }

  lemma RetExec(code: seq<Unit>, d: Context, t: State)
    ensures Exec(code, d, Ret, t) == t.(status := Returned)
  {
  }

  lemma FinishedIs(
    env: Env, arity: nat, code: seq<P.Unit>, c: P.Context, d: Context, saves: seq<Word>, s: P.State, t: State, t': State)
    requires ParamsKnown(env, arity) && CodeOk(env, code)
    requires Linked(c, d, env) && Leaving(env, arity, code, c, d, saves, s, t) && Restored(env, saves, t, t', env.nSaved)
    ensures Finished(c, d, saves, s, t'.(status := Returned))
  {
    hide PcOf, ArraysView, P.ContextOk, ContextOk, Wrap, Allocated, CodeOk, ParamsKnown;
    forall o | o in c.globals
      ensures o in s.env && o in d.cells && d.cells[o] in t.mem && t.mem[d.cells[o]] == s.env[o]
    {
      assert InPlace(env, d, t, o, s.env[o]);
    }
  }

  lemma LeavingMeans(
    env: Env, arity: nat, code: seq<P.Unit>, c: P.Context, d: Context, saves: seq<Word>, s: P.State, t: State)
    requires ParamsKnown(env, arity) && CodeOk(env, code)
    requires EnvOk(env) && Leaving(env, arity, code, c, d, saves, s, t)
    ensures t.pc == PcOf(env, arity, code, |code|) && SavesKept(env, t, saves) && t.status == Running && env.nSaved <= 12
  {
  }

  lemma EpilogueSim(
    env: Env, arity: nat, code: seq<P.Unit>, c: P.Context, d: Context, saves: seq<Word>, s: P.State, t: State)
    requires FuncReady(env, arity, code) && Linked(c, d, env) && Leaving(env, arity, code, c, d, saves, s, t)
    ensures Finished(c, d, saves, s, Run(FunctionCode(env, arity, code), d, t, env.nSaved + 2))
  {
    hide *;
    ReadyFunc(env, arity, code);
    var dcode, n := FunctionCode(env, arity, code), env.nSaved;
    LeavingMeans(env, arity, code, c, d, saves, s, t);
    EpiloguePlace(env, arity, code);
    RestoreRuns(dcode, env, d, saves, t, n);
    var t' := Run(dcode, d, t, 1 + n);
    RestoredMeans(env, saves, t, t', n);
    EpilogueUnits(env, 0);
    SitsUnit(dcode, t.pc, Epilogue(env), 1 + n);
    OneMore(dcode, d, t, 1 + n, Ret);
    RetExec(dcode, d, t');
    FinishedIs(env, arity, code, c, d, saves, s, t, t');
  }

  // ----- the prologue -----

  /** Both machines at a function's entry: parameters in the argument registers, globals in their
      cells, the callee-saved registers as the caller left them, and room for every slot. */
  ghost predicate Entered(env: Env, arity: nat, c: P.Context, d: Context, saves: seq<Word>, s: P.State, t: State) {
    && s.status == P.Running && s.pc == 0 && s.args == []
    && t.status == Running && t.pc == 0 && t.trace == s.trace && ArraysView(d, t.mem) == s.mem
    && c.globals <= s.env.Keys
    && (forall o :: o in s.env ==> o in c.globals || (o.Param? && 0 <= o.id < arity))
    && (forall o :: o in c.globals ==> o in d.cells && d.cells[o] in t.mem && t.mem[d.cells[o]] == s.env[o])
    && (forall i :: 0 <= i < arity ==> P.Param(i) in s.env && Read(t, AbiArgument(i)) == Some(s.env[P.Param(i)]))
    && |saves| == 12 && (forall i :: 0 <= i < 12 ==> Save(i) in t.regs && t.regs[Save(i)] == saves[i])
    && Allocated(env, d, t) && (forall i :: 0 <= i < env.nSaved ==> 4 * i in t.frame)
  }

  /** After `n` parameters and `k` callee-saved registers have been stored. */
  ghost predicate Stored(env: Env, arity: nat, saves: seq<Word>, s: P.State, t: State, t': State, n: nat, k: nat)
    requires ParamsKnown(env, arity) && n <= arity
  {
    && t' == t.(frame := t'.frame, pc := n + k) && t'.frame.Keys == t.frame.Keys && |saves| == 12
    && (forall i :: 0 <= i < n ==>
          P.Param(i) in s.env && env.locals[P.Param(i)].offset in t'.frame
          && t'.frame[env.locals[P.Param(i)].offset] == s.env[P.Param(i)])
    && (forall i :: 0 <= i < k && i < 12 ==> 4 * i in t'.frame && t'.frame[4 * i] == saves[i])
  }

  lemma StoreParamExec(
    env: Env, arity: nat, code: seq<P.Unit>, dcode: seq<Unit>, c: P.Context, d: Context, saves: seq<Word>, s: P.State,
    t: State, t': State, n: nat)
    requires FuncReady(env, arity, code) && Entered(env, arity, c, d, saves, s, t)
    requires n < arity && Stored(env, arity, saves, s, t, t', n, 0)
    ensures var u := Wstk(AbiArgument(n), env.locals[P.Param(n)].offset);
            Stored(env, arity, saves, s, t, Exec(dcode, d, u, t'), n + 1, 0)
  {
    hide AbiArgument, ArraysView, CodeOk, P.ArgsContiguous, Pool;
    var r := AbiArgument(n);
    assert Read(t', r) == Read(t, r);
    StoreExecLocal(dcode, d, t', r, env.locals[P.Param(n)].offset, s.env[P.Param(n)]);
    hide Exec, Read;
  }

  lemma StoreSaveExec(
    env: Env, arity: nat, code: seq<P.Unit>, dcode: seq<Unit>, c: P.Context, d: Context, saves: seq<Word>, s: P.State,
    t: State, t': State, k: nat)
    requires FuncReady(env, arity, code) && Entered(env, arity, c, d, saves, s, t)
    requires k < env.nSaved && Stored(env, arity, saves, s, t, t', arity, k)
    ensures Stored(env, arity, saves, s, t, Exec(dcode, d, Wstk(Save(k), 4 * k), t'), arity, k + 1)
  {
    hide AbiArgument, ArraysView, CodeOk, P.ArgsContiguous, Pool;
    StoreExecLocal(dcode, d, t', Save(k), 4 * k, saves[k]);
    hide Exec, Read;
  }

  lemma PrologueUnits(env: Env, arity: nat, i: nat)
    requires ParamsKnown(env, arity)
    ensures |Prologue(env, arity)| == arity + env.nSaved
    ensures i < arity ==> Prologue(env, arity)[i] == Wstk(AbiArgument(i), env.locals[P.Param(i)].offset)
    ensures i < env.nSaved ==> Prologue(env, arity)[arity + i] == Wstk(Save(i), 4 * i)
  {
  }

  lemma PrologueSits(env: Env, arity: nat, code: seq<P.Unit>)
    requires ParamsKnown(env, arity) && CodeOk(env, code)
    ensures Sits(FunctionCode(env, arity, code), 0, Prologue(env, arity))
    ensures PcOf(env, arity, code, 0) == |Prologue(env, arity)|
  {
    hide Prologue, Epilogue, BodyBlocks, CodeOk, ParamsKnown;
  }

  lemma StoredNone(env: Env, arity: nat, c: P.Context, d: Context, saves: seq<Word>, s: P.State, t: State)
    requires ParamsKnown(env, arity) && Entered(env, arity, c, d, saves, s, t)
    ensures Stored(env, arity, saves, s, t, t, 0, 0)
  {
  }

  lemma StoredRuns(env: Env, arity: nat, saves: seq<Word>, s: P.State, t: State, t': State, n: nat, k: nat)
    requires ParamsKnown(env, arity) && n <= arity && Stored(env, arity, saves, s, t, t', n, k)
    ensures t'.pc == n + k && t'.status == t.status
  {
  }

  lemma EnteredRuns(env: Env, arity: nat, c: P.Context, d: Context, saves: seq<Word>, s: P.State, t: State)
    requires Entered(env, arity, c, d, saves, s, t)
    ensures t.status == Running && t.pc == 0 && s.pc == 0
  {
  }

  lemma {:induction false} ParamsStored(
    env: Env, arity: nat, code: seq<P.Unit>, c: P.Context, d: Context, saves: seq<Word>, s: P.State, t: State, n: nat)
    requires FuncReady(env, arity, code) && Entered(env, arity, c, d, saves, s, t) && n <= arity
    ensures Stored(env, arity, saves, s, t, Run(FunctionCode(env, arity, code), d, t, n), n, 0)
    decreases n
  {
    hide *;
    ReadyFunc(env, arity, code);
    var dcode := FunctionCode(env, arity, code);
    if n == 0 {
      RunNone(dcode, d, t);
      StoredNone(env, arity, c, d, saves, s, t);
    } else {
      ParamsStored(env, arity, code, c, d, saves, s, t, n - 1);
      var t' := Run(dcode, d, t, n - 1);
      StoredRuns(env, arity, saves, s, t, t', n - 1, 0);
      EnteredRuns(env, arity, c, d, saves, s, t);
      StoreParamExec(env, arity, code, dcode, c, d, saves, s, t, t', n - 1);
      PrologueUnits(env, arity, n - 1);
      PrologueSits(env, arity, code);
      SitsUnit(dcode, 0, Prologue(env, arity), n - 1);
      OneMore(dcode, d, t, n - 1, Prologue(env, arity)[n - 1]);
    }
  }

  lemma {:induction false} SavesStored(
    env: Env, arity: nat, code: seq<P.Unit>, c: P.Context, d: Context, saves: seq<Word>, s: P.State, t: State, k: nat)
    requires FuncReady(env, arity, code) && Entered(env, arity, c, d, saves, s, t) && k <= env.nSaved
    ensures Stored(env, arity, saves, s, t, Run(FunctionCode(env, arity, code), d, t, arity + k), arity, k)
    decreases k
  {
    hide *;
    ReadyFunc(env, arity, code);
    var dcode := FunctionCode(env, arity, code);
    if k == 0 {
      ParamsStored(env, arity, code, c, d, saves, s, t, arity);
    } else {
      SavesStored(env, arity, code, c, d, saves, s, t, k - 1);
      var t' := Run(dcode, d, t, arity + (k - 1));
      StoredRuns(env, arity, saves, s, t, t', arity, k - 1);
      EnteredRuns(env, arity, c, d, saves, s, t);
      StoreSaveExec(env, arity, code, dcode, c, d, saves, s, t, t', k - 1);
      PrologueUnits(env, arity, k - 1);
      PrologueSits(env, arity, code);
      SitsUnit(dcode, 0, Prologue(env, arity), arity + (k - 1));
      OneMore(dcode, d, t, arity + (k - 1), Wstk(Save(k - 1), 4 * (k - 1)));
    }
  }

  lemma StoredAgrees(
    env: Env, arity: nat, code: seq<P.Unit>, c: P.Context, d: Context, saves: seq<Word>, s: P.State, t: State, t': State)
    requires FuncReady(env, arity, code) && Linked(c, d, env) && Entered(env, arity, c, d, saves, s, t)
    requires Stored(env, arity, saves, s, t, t', arity, env.nSaved)
    ensures Agrees(env, c, d, saves, s, t') && s.args == [] && s.pc == 0 && s.status == P.Running
  {
    hide AbiArgument, ArraysView, CodeOk, P.ArgsContiguous, Pool, Read, ContextOk, P.ContextOk, Wrap;
    forall o | o in s.env ensures InPlace(env, d, t', o, s.env[o]) {
      if o !in c.globals {
        assert o == P.Param(o.id);
      }
    }
  }

  lemma PrologueSim(
    env: Env, arity: nat, code: seq<P.Unit>, c: P.Context, d: Context, saves: seq<Word>, s: P.State, t: State)
    requires FuncReady(env, arity, code) && Linked(c, d, env) && Entered(env, arity, c, d, saves, s, t)
    ensures Sim(env, arity, code, c, d, saves, s, Run(FunctionCode(env, arity, code), d, t, arity + env.nSaved))
  {
    hide *;
    ReadyFunc(env, arity, code);
    var t' := Run(FunctionCode(env, arity, code), d, t, arity + env.nSaved);
    SavesStored(env, arity, code, c, d, saves, s, t, env.nSaved);
    StoredAgrees(env, arity, code, c, d, saves, s, t, t');
    StoredRuns(env, arity, saves, s, t, t', arity, env.nSaved);
    PrologueUnits(env, arity, 0);
    PrologueSits(env, arity, code);
    NoArgsHeld(t');
    BodyEnds(env, code);
    SimIs(env, arity, code, c, d, saves, s, t');
  }

  // ----- every run -----

  lemma StepIs(code: seq<P.Unit>, c: P.Context, s: P.State)
    ensures s.status != P.Running ==> P.Step(code, c, s) == s
    ensures s.status == P.Running && s.pc < |code| ==> P.Step(code, c, s) == P.Exec(code, c, code[s.pc], s)
  {
    hide P.Exec;
  }

  lemma SimRuns(env: Env, arity: nat, code: seq<P.Unit>, c: P.Context, d: Context, saves: seq<Word>, s: P.State, t: State)
    requires ParamsKnown(env, arity) && CodeOk(env, code) && Sim(env, arity, code, c, d, saves, s, t)
    ensures s.status == P.Running && t.pc == PcOf(env, arity, code, s.pc) && Agrees(env, c, d, saves, s, t)
  {
  }

  lemma UnitKinds(u: P.Unit)
    ensures u.Unary? || u.Copy? || u.Binary? || u.ArrayRead? || u.ArrayWrite? || P.IsCall(u)
         || u.Label? || u.Jump? || u.JumpIf? || u.Arg? || u.RetI? || u.RetV? || u.Nop?
  {
  }

  lemma NoNops(env: Env, code: seq<P.Unit>, i: nat)
    requires CodeOk(env, code) && i < |code|
    ensures !code[i].Nop?
  {
  }

  /** The two ways a simulated run can stand. */
  ghost predicate Follows(
    env: Env, arity: nat, code: seq<P.Unit>, c: P.Context, d: Context, saves: seq<Word>, s: P.State, t: State)
    requires ParamsKnown(env, arity) && CodeOk(env, code)
  {
    if s.status == P.Running then Sim(env, arity, code, c, d, saves, s, t)
    else Leaving(env, arity, code, c, d, saves, s, t)
  }

  lemma FollowsIs(env: Env, arity: nat, code: seq<P.Unit>, c: P.Context, d: Context, saves: seq<Word>, s: P.State, t: State)
    requires ParamsKnown(env, arity) && CodeOk(env, code)
    ensures Sim(env, arity, code, c, d, saves, s, t) ==> Follows(env, arity, code, c, d, saves, s, t)
    ensures Leaving(env, arity, code, c, d, saves, s, t) ==> Follows(env, arity, code, c, d, saves, s, t)
    ensures Follows(env, arity, code, c, d, saves, s, t) && s.status == P.Running ==> Sim(env, arity, code, c, d, saves, s, t)
    ensures Follows(env, arity, code, c, d, saves, s, t) && s.status != P.Running ==> Leaving(env, arity, code, c, d, saves, s, t)
  {
    hide Agrees, HoldsArgs, PcOf, ParamAt, ParamsKnown, CodeOk;
  }

  lemma StepFollows(
    env: Env, arity: nat, code: seq<P.Unit>, c: P.Context, d: Context, saves: seq<Word>, s: P.State, t: State)
    returns (m: nat)
    requires FuncReady(env, arity, code) && Linked(c, d, env)
    requires Follows(env, arity, code, c, d, saves, s, t) && P.Step(code, c, s).status != P.Stuck
    ensures Follows(env, arity, code, c, d, saves, P.Step(code, c, s), Run(FunctionCode(env, arity, code), d, t, m))
    ensures s.status == P.Running && P.Step(code, c, s).status == P.Running ==> m > 0
  {
    hide *;
    ReadyFunc(env, arity, code);
    var dcode := FunctionCode(env, arity, code);
    FollowsIs(env, arity, code, c, d, saves, s, t);
    StepIs(code, c, s);
    RunNone(dcode, d, t);
    m := 0;
    if s.status == P.Running {
      if s.pc >= |code| {
        FallOff(env, arity, code, c, d, saves, s, t);
      } else {
        var u := code[s.pc];
        UnitKinds(u);
        NoNops(env, code, s.pc);
        if u.Label? || u.Jump? || u.JumpIf? {
          m := ControlSim(env, arity, code, c, d, saves, s, t);
        } else if u.RetI? || u.RetV? {
          ReturnMeans(code, c, u, s);
          m := ReturnSim(env, arity, code, c, d, saves, s, t);
        } else if u.Arg? {
          m := ArgSim(env, arity, code, c, d, saves, s, t);
        } else {
          m := WorkSim(env, arity, code, c, d, saves, s, t);
        }
      }
      FollowsIs(env, arity, code, c, d, saves, P.Step(code, c, s), Run(dcode, d, t, m));
    }
  }

  lemma PStepRun(code: seq<P.Unit>, c: P.Context, s: P.State, n: nat)
    requires n > 0
    ensures P.Run(code, c, s, n) == P.Step(code, c, P.Run(code, c, s, n - 1))
  {
    hide P.Step;
  }

  lemma EnteredStatus(env: Env, arity: nat, code: seq<P.Unit>, c: P.Context, d: Context, saves: seq<Word>, s: P.State, t: State)
    requires ParamsKnown(env, arity) && CodeOk(env, code) && Sim(env, arity, code, c, d, saves, s, t)
    ensures Follows(env, arity, code, c, d, saves, P.Run(code, c, s, 0), t)
  {
    hide Agrees, HoldsArgs, PcOf, ParamAt, ParamsKnown, CodeOk;
  }

  lemma {:induction false} RunFollows(
    env: Env, arity: nat, code: seq<P.Unit>, c: P.Context, d: Context, saves: seq<Word>, s: P.State, t: State, n: nat)
    returns (m: nat)
    requires FuncReady(env, arity, code) && Linked(c, d, env) && Entered(env, arity, c, d, saves, s, t)
    requires P.Run(code, c, s, n).status != P.Stuck
    ensures Follows(env, arity, code, c, d, saves, P.Run(code, c, s, n), Run(FunctionCode(env, arity, code), d, t, m))
    ensures P.Run(code, c, s, n).status == P.Running ==> m >= n
    decreases n
  {
    hide *;
    ReadyFunc(env, arity, code);
    var dcode := FunctionCode(env, arity, code);
    if n == 0 {
      m := arity + env.nSaved;
      PrologueSim(env, arity, code, c, d, saves, s, t);
      EnteredStatus(env, arity, code, c, d, saves, s, Run(dcode, d, t, m));
    } else {
      P.NeverStuck(code, c, s, n - 1, n);
      var m0 := RunFollows(env, arity, code, c, d, saves, s, t, n - 1);
      PStepRun(code, c, s, n);
      StepIs(code, c, P.Run(code, c, s, n - 1));
      var k := StepFollows(env, arity, code, c, d, saves, P.Run(code, c, s, n - 1), Run(dcode, d, t, m0));
      RunAdd(dcode, d, t, m0, k);
      m := m0 + k;
    }
  }

  /** Every run of a Pinkie function is followed by its generated code: at each unit boundary memory
      holds every scalar and the arguments pushed are in their registers; once the function returns,
      the generated code returns the same value with the same calls, arrays and global scalars, and
      with all callee-saved registers restored. While the Pinkie run goes on, so does the generated one. */
  lemma BackendCorrect(
    env: Env, arity: nat, code: seq<P.Unit>, c: P.Context, d: Context, saves: seq<Word>, s: P.State, t: State, n: nat)
    returns (m: nat)
    requires FuncReady(env, arity, code) && Linked(c, d, env) && Entered(env, arity, c, d, saves, s, t)
    requires P.Run(code, c, s, n).status != P.Stuck
    ensures var s', t' := P.Run(code, c, s, n), Run(FunctionCode(env, arity, code), d, t, m);
            if s'.status == P.Running then Sim(env, arity, code, c, d, saves, s', t') else Finished(c, d, saves, s', t')
    ensures P.Run(code, c, s, n).status == P.Running ==> m >= n
  {
    hide *;
    ReadyFunc(env, arity, code);
    var dcode, s' := FunctionCode(env, arity, code), P.Run(code, c, s, n);
    m := RunFollows(env, arity, code, c, d, saves, s, t, n);
    FollowsIs(env, arity, code, c, d, saves, s', Run(dcode, d, t, m));
    if s'.status != P.Running {
      EpilogueSim(env, arity, code, c, d, saves, s', Run(dcode, d, t, m));
      RunAdd(dcode, d, t, m, env.nSaved + 2);
      m := m + (env.nSaved + 2);
    }
  }

  /** The frame layout satisfies what the simulation needs of it. */
  lemma EnvOfOk(globals: map<Operand, Global>, f: P.Func, epilogue: int)
    requires Frames.SizesOk(f.decl)
    ensures EnvOk(EnvOf(globals, f, epilogue))
  {
    var env := EnvOf(globals, f, epilogue);
    forall o | o in env.locals && env.locals[o].len == 0 ensures 4 * env.nSaved <= env.locals[o].offset {
      Frames.SlotInFrame(f, o);
    }
    forall o, p | o in env.locals && p in env.locals && o != p && env.locals[o].len == 0 && env.locals[p].len == 0
      ensures env.locals[o].offset != env.locals[p].offset
    {
      Frames.SlotsDisjoint(f, o, p);
    }
    hide Frames.SlotsOf, Frames.FrameOf;
  }
}
