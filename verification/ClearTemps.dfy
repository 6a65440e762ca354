/** Renumbering of temporaries, program-wide, to 0, 1, 2, ... in the order they are met. */
module ClearTemps {
  import opened Words
  import opened Wrappers
  import opened Primitive
  import opened Layout
  import opened Pinkie

  // ----- the pass -----

  /** The `compress` map and the `count` of numbers given out. */
  datatype Renaming = Renaming(ids: map<int, int>, count: nat)

  function Meet(r: Renaming, o: Operand): Renaming {
    if o.Temp? && o.id !in r.ids then Renaming(r.ids[o.id := r.count], r.count + 1) else r
  }

  function MeetAll(r: Renaming, ops: seq<Operand>): Renaming {
    if ops == [] then r else Meet(MeetAll(r, ops[..|ops| - 1]), ops[|ops| - 1])
  }

  function Rename(ids: map<int, int>, o: Operand): Operand {
    if o.Temp? && o.id in ids then Temp(ids[o.id]) else o
  }

  function RenameUnit(ids: map<int, int>, u: Unit): Unit {
    MapOps(u, o => Rename(ids, o), o => Rename(ids, o))
  }

  function MeetCode(r: Renaming, code: seq<Unit>): Renaming {
    if code == [] then r else MeetAll(MeetCode(r, code[..|code| - 1]), Ops(code[|code| - 1]))
  }

  /** The code with each unit renamed by what had been met up to and including it. */
  function RenameCode(r: Renaming, code: seq<Unit>): seq<Unit> {
    if code == [] then []
    else RenameCode(r, code[..|code| - 1]) + [RenameUnit(MeetCode(r, code).ids, code[|code| - 1])]
  }

  function NamedDecls(decl: seq<Symb>): seq<Symb> {
    if decl == [] then []
    else NamedDecls(decl[..|decl| - 1]) + if decl[|decl| - 1].name.Temp? then [] else [decl[|decl| - 1]]
  }

  /** Declarations of the temporaries numbered from `lo` up to `hi`. */
  function TempDecls(lo: int, hi: int): (r: seq<Symb>)
    requires lo <= hi
    ensures |r| == hi - lo
    ensures forall i :: 0 <= i < |r| ==> r[i] == Symb(Temp(lo + i), 0)
  {
    seq(hi - lo, i => Symb(Temp(lo + i), 0))
  }

  function ClearFunc(r: Renaming, f: Func): Func {
    MeetCodeCounts(r, f.code);
    f.(code := RenameCode(r, f.code),
       decl := NamedDecls(f.decl) + TempDecls(r.count, MeetCode(r, f.code).count))
  }

  function MeetFuncs(r: Renaming, funcs: seq<Func>): Renaming {
    if funcs == [] then r else MeetCode(MeetFuncs(r, funcs[..|funcs| - 1]), funcs[|funcs| - 1].code)
  }

  function ClearFuncs(r: Renaming, funcs: seq<Func>): seq<Func> {
    if funcs == [] then []
    else ClearFuncs(r, funcs[..|funcs| - 1]) + [ClearFunc(MeetFuncs(r, funcs[..|funcs| - 1]), funcs[|funcs| - 1])]
  }

  const START := Renaming(map[], 0)

  method ClearTemp(prog: Prog) returns (r: Prog)
    ensures r == prog.(funcs := ClearFuncs(START, prog.funcs))
  {
    hide MeetCode, RenameCode, NamedDecls;
    var count: nat := 0;
    var compress: map<int, int> := map[];
    var done := [];
    for k := 0 to |prog.funcs|
      invariant MeetFuncs(START, prog.funcs[..k]) == Renaming(compress, count)
      invariant done == ClearFuncs(START, prog.funcs[..k])
    {
      var f := prog.funcs[k];
      assert prog.funcs[..k + 1][..k] == prog.funcs[..k];
      ghost var before := Renaming(compress, count);
      var code, localTemps;
      code, localTemps, compress, count := ClearCode(f.code, compress, count);
      MeetCodeCounts(before, f.code);
      var decl := ClearDecl(f.decl, localTemps, before.count);
      done := done + [f.(code := code, decl := decl)];
    }
    assert prog.funcs[..|prog.funcs|] == prog.funcs;
    r := prog.(funcs := done);
  }

  method ClearCode(code: seq<Unit>, compress0: map<int, int>, count0: nat)
    returns (r: seq<Unit>, localTemps: seq<int>, compress: map<int, int>, count: nat)
    ensures Renaming(compress, count) == MeetCode(Renaming(compress0, count0), code)
    ensures r == RenameCode(Renaming(compress0, count0), code)
    ensures count0 <= count && localTemps == Numbers(count0, count)
  {
    hide RenameUnit, Ops;
    ghost var before := Renaming(compress0, count0);
    compress, count, localTemps, r := compress0, count0, [], [];
    for i := 0 to |code|
      invariant MeetCode(before, code[..i]) == Renaming(compress, count)
      invariant r == RenameCode(before, code[..i])
      invariant count0 <= count && localTemps == Numbers(count0, count)
    {
      assert code[..i + 1][..i] == code[..i];
      var ops := Ops(code[i]);
      for j := 0 to |ops|
        invariant MeetAll(MeetCode(before, code[..i]), ops[..j]) == Renaming(compress, count)
        invariant count0 <= count && localTemps == Numbers(count0, count)
      {
        assert ops[..j + 1][..j] == ops[..j];
        if ops[j].Temp? && ops[j].id !in compress {
          localTemps := localTemps + [count];
          compress := compress[ops[j].id := count];
          count := count + 1;
        }
      }
      assert ops[..|ops|] == ops;
      r := r + [RenameUnit(compress, code[i])];
    }
    assert code[..|code|] == code;
  }

  function Numbers(lo: int, hi: int): seq<int>
    requires lo <= hi
  {
    seq(hi - lo, j => lo + j)
  }

  method ClearDecl(decl0: seq<Symb>, localTemps: seq<int>, ghost lo: int) returns (decl: seq<Symb>)
    requires localTemps == Numbers(lo, lo + |localTemps|)
    ensures decl == NamedDecls(decl0) + TempDecls(lo, lo + |localTemps|)
  {
    decl := [];
    for i := 0 to |decl0|
      invariant decl == NamedDecls(decl0[..i])
    {
      assert decl0[..i + 1][..i] == decl0[..i];
      if !decl0[i].name.Temp? {
        decl := decl + [decl0[i]];
      }
    }
    assert decl0[..|decl0|] == decl0;
    for i := 0 to |localTemps|
      invariant decl == NamedDecls(decl0) + TempDecls(lo, lo + i)
    {
      decl := decl + [Symb(Temp(localTemps[i]), 0)];
    }
  }

  // ----- the renaming is one-to-one -----

  /** Distinct temporaries get distinct numbers, all below the count. */
  ghost predicate Injective(r: Renaming) {
    && (forall t :: t in r.ids ==> 0 <= r.ids[t] < r.count)
    && (forall t, u :: t in r.ids && u in r.ids && r.ids[t] == r.ids[u] ==> t == u)
  }

  ghost predicate HandedOut(r: Renaming, n: int) {
    exists t :: t in r.ids && r.ids[t] == n
  }

  /** No number below the count is left unused. */
  ghost predicate Onto(r: Renaming) {
    forall n :: 0 <= n < r.count ==> HandedOut(r, n)
  }

  ghost predicate Covers(ids: map<int, int>, o: Operand) {
    o.Temp? ==> o.id in ids
  }

  ghost predicate Grows(a: Renaming, b: Renaming) {
    && a.count <= b.count
    && (forall t :: t in a.ids ==> t in b.ids && b.ids[t] == a.ids[t])
    && (forall t :: t in b.ids && t !in a.ids ==> a.count <= b.ids[t] < b.count)
    && (Injective(a) ==> Injective(b))
  }

  lemma MeetGrows(r: Renaming, o: Operand)
    ensures Grows(r, Meet(r, o)) && Covers(Meet(r, o).ids, o)
  {
  }

  lemma GrowsTransitive(a: Renaming, b: Renaming, c: Renaming)
    requires Grows(a, b) && Grows(b, c)
    ensures Grows(a, c)
    ensures forall o :: Covers(a.ids, o) ==> Covers(b.ids, o)
  {
    hide Injective;
  }

  lemma {:induction false} MeetAllGrows(r: Renaming, ops: seq<Operand>)
    ensures Grows(r, MeetAll(r, ops))
    ensures forall o :: o in ops ==> Covers(MeetAll(r, ops).ids, o)
  {
    if ops != [] {
      var mid := MeetAll(r, ops[..|ops| - 1]);
      MeetAllGrows(r, ops[..|ops| - 1]);
      MeetGrows(mid, ops[|ops| - 1]);
      GrowsTransitive(r, mid, MeetAll(r, ops));
      GrowsTransitive(mid, MeetAll(r, ops), MeetAll(r, ops));
      hide Grows, Covers, Meet;
      assert forall o :: o in ops ==> o in ops[..|ops| - 1] || o == ops[|ops| - 1];
    }
  }

  lemma {:induction false} MeetCodeGrows(r: Renaming, code: seq<Unit>)
    ensures Grows(r, MeetCode(r, code))
    ensures forall i, o :: 0 <= i < |code| && o in Ops(code[i]) ==> Covers(MeetCode(r, code).ids, o)
  {
    if code != [] {
      var mid := MeetCode(r, code[..|code| - 1]);
      MeetCodeGrows(r, code[..|code| - 1]);
      MeetAllGrows(mid, Ops(code[|code| - 1]));
      GrowsTransitive(r, mid, MeetCode(r, code));
      GrowsTransitive(mid, MeetCode(r, code), MeetCode(r, code));
      hide Grows, Covers, MeetAll, Ops, MeetCode;
      forall i, o | 0 <= i < |code| && o in Ops(code[i]) ensures Covers(MeetCode(r, code).ids, o) {
        if i < |code| - 1 {
          assert code[i] == code[..|code| - 1][i];
        }
      }
    }
  }

  lemma MeetOnto(r: Renaming, o: Operand)
    requires Onto(r)
    ensures Onto(Meet(r, o))
  {
    var r' := Meet(r, o);
    forall n | 0 <= n < r'.count ensures HandedOut(r', n) {
      if n < r.count {
        assert HandedOut(r, n);
        var t :| t in r.ids && r.ids[t] == n;
        assert r'.ids[t] == n;
      } else {
        assert r'.ids[o.id] == n;
      }
    }
  }

  lemma {:induction false} MeetAllOnto(r: Renaming, ops: seq<Operand>)
    requires Onto(r)
    ensures Onto(MeetAll(r, ops))
  {
    hide Onto, Meet;
    if ops != [] {
      MeetAllOnto(r, ops[..|ops| - 1]);
      MeetOnto(MeetAll(r, ops[..|ops| - 1]), ops[|ops| - 1]);
    }
  }

  lemma {:induction false} MeetCodeOnto(r: Renaming, code: seq<Unit>)
    requires Onto(r)
    ensures Onto(MeetCode(r, code))
  {
    hide Onto, MeetAll, Ops;
    if code != [] {
      MeetCodeOnto(r, code[..|code| - 1]);
      MeetAllOnto(MeetCode(r, code[..|code| - 1]), Ops(code[|code| - 1]));
    }
  }

  lemma MeetCodeCounts(r: Renaming, code: seq<Unit>)
    ensures r.count <= MeetCode(r, code).count
  {
    MeetCodeGrows(r, code);
  }

  lemma SameRename(a: map<int, int>, b: map<int, int>, u: Unit)
    requires forall o :: o in Ops(u) ==> Covers(a, o)
    requires forall t :: t in a ==> t in b && b[t] == a[t]
    ensures RenameUnit(a, u) == RenameUnit(b, u)
  {
    forall o | o in Ops(u) ensures Rename(a, o) == Rename(b, o) {
    }
    hide Rename;
    match u
    case Binary(_, dst, src1, src2) => assert dst in Ops(u) && src1 in Ops(u) && src2 in Ops(u);
    case ArrayWrite(dst, src1, src2) => assert dst in Ops(u) && src1 in Ops(u) && src2 in Ops(u);
    case ArrayRead(dst, src1, src2) => assert dst in Ops(u) && src1 in Ops(u) && src2 in Ops(u);
    case Unary(_, dst, src) => assert dst in Ops(u) && src in Ops(u);
    case Copy(dst, src) => assert dst in Ops(u) && src in Ops(u);
    case JumpIf(_, _, src, _) => assert src in Ops(u);
    case Arg(val) => assert val in Ops(u);
    case RetI(val) => assert val in Ops(u);
    case CallI(_, dst) => assert dst in Ops(u);
    case _ =>
  }

  /** Renaming unit by unit as the map grows is renaming everything by the final map. */
  lemma {:induction false} RenameCodeIs(r: Renaming, code: seq<Unit>, i: nat)
    requires i < |code|
    ensures |RenameCode(r, code)| == |code|
    ensures RenameCode(r, code)[i] == RenameUnit(MeetCode(r, code).ids, code[i])
  {
    hide RenameUnit, MeetAll, Ops;
    var n := |code| - 1;
    RenameLength(r, code[..n]);
    if i < n {
      RenameCodeIs(r, code[..n], i);
      MeetCodeGrows(r, code[..n]);
      MeetAllGrows(MeetCode(r, code[..n]), Ops(code[n]));
      SameRename(MeetCode(r, code[..n]).ids, MeetCode(r, code).ids, code[i]);
    }
  }

  lemma {:induction false} RenameLength(r: Renaming, code: seq<Unit>)
    ensures |RenameCode(r, code)| == |code|
  {
    hide RenameUnit;
    if code != [] {
      RenameLength(r, code[..|code| - 1]);
    }
  }

  // ----- execution -----

  /** `env'` holds under their new names everything that `env` holds, and the same named scalars. */
  ghost predicate Renamed(ids: map<int, int>, env: map<Operand, Word>, env': map<Operand, Word>) {
    && (forall o :: o in env ==> Covers(ids, o) && Rename(ids, o) in env' && env'[Rename(ids, o)] == env[o])
    && (forall o :: o in env' && !o.Temp? ==> o in env)
  }

  ghost predicate Matches(ids: map<int, int>, s: State, s': State) {
    s'.(env := s.env) == s && Renamed(ids, s.env, s'.env)
  }

  lemma RenamedValue(ids: map<int, int>, c: Context, env: map<Operand, Word>, env': map<Operand, Word>, o: Operand)
    requires ContextOk(c) && Renamed(ids, env, env') && Value(c, env, o).Some?
    ensures Value(c, env', Rename(ids, o)) == Value(c, env, o)
  {
  }

  lemma RenamedUpdate(r: Renaming, env: map<Operand, Word>, env': map<Operand, Word>, o: Operand, v: Word)
    requires Injective(r) && Covers(r.ids, o) && Renamed(r.ids, env, env')
    ensures Renamed(r.ids, env[o := v], env'[Rename(r.ids, o) := v])
  {
  }

  lemma RenamedAssign(r: Renaming, c: Context, s: State, s': State, dst: Operand, v: Option<Word>)
    requires ContextOk(c) && Injective(r) && Covers(r.ids, dst) && Matches(r.ids, s, s')
    requires Assign(c, s, dst, v).status != Stuck
    ensures Matches(r.ids, Assign(c, s, dst, v), Assign(c, s', Rename(r.ids, dst), v))
  {
    RenamedUpdate(r, s.env, s'.env, dst, v.value);
    hide Renamed, Injective;
  }

  lemma RenamedCall(r: Renaming, c: Context, s: State, s': State, name: string)
    requires ContextOk(c) && Matches(r.ids, s, s')
    ensures CallEvent(c, s', name) == CallEvent(c, s, name)
    ensures Matches(r.ids, AfterCall(c, s, name), AfterCall(c, s', name))
  {
    RenamedGlobals(r, c, s.env, s'.env);
    hide Renamed, Restrict, Overlay;
  }

  lemma RenamedGlobals(r: Renaming, c: Context, env: map<Operand, Word>, env': map<Operand, Word>)
    requires ContextOk(c) && Renamed(r.ids, env, env')
    ensures Restrict(env', c.globals) == Restrict(env, c.globals)
    ensures forall g :: Renamed(r.ids, Overlay(env, Restrict(g, c.globals)), Overlay(env', Restrict(g, c.globals)))
  {
  }

  ghost predicate CoversUnit(ids: map<int, int>, u: Unit) {
    forall o :: o in Ops(u) ==> Covers(ids, o)
  }

  lemma RenamedReads(r: Renaming, c: Context, env: map<Operand, Word>, env': map<Operand, Word>, u: Unit)
    requires ContextOk(c) && Renamed(r.ids, env, env')
    ensures forall o :: Value(c, env, o).Some? ==> Value(c, env', Rename(r.ids, o)) == Value(c, env, o)
  {
    forall o | Value(c, env, o).Some? ensures Value(c, env', Rename(r.ids, o)) == Value(c, env, o) {
      RenamedValue(r.ids, c, env, env', o);
    }
  }

  lemma RenamedExecAssign(r: Renaming, code: seq<Unit>, c: Context, u: Unit, s: State, s': State)
    requires ContextOk(c) && Injective(r) && CoversUnit(r.ids, u) && Matches(r.ids, s, s')
    requires u.Unary? || u.Binary? || u.Copy? || u.ArrayRead?
    requires Exec(code, c, u, s).status != Stuck
    ensures Matches(r.ids, Exec(code, c, u, s), Exec(code, c, RenameUnit(r.ids, u), s'))
  {
    hide EvalUnary, EvalBinary, Wrap, IndexOf, Rename, Covers, Renamed, Injective, Value;
    RenamedReads(r, c, s.env, s'.env, u);
    assert u.dst in Ops(u);
    match u
    case Binary(op, dst, src1, src2) =>
      RenamedAssign(r, c, s, s', dst, ApplyBinary(op, Value(c, s.env, src1), Value(c, s.env, src2)));
    case ArrayRead(dst, base, incr) =>
      RenamedAssign(r, c, s, s', dst, Load(s.mem, Address(Value(c, s.env, base), Value(c, s.env, incr))));
    case Unary(op, dst, src) =>
      RenamedAssign(r, c, s, s', dst, ApplyUnary(op, Value(c, s.env, src)));
    case Copy(dst, src) =>
      RenamedAssign(r, c, s, s', dst, Value(c, s.env, src));
  }

  /** The renamed unit does to the renamed state what the unit does to the state. */
  lemma RenamedExec(r: Renaming, code: seq<Unit>, code': seq<Unit>, c: Context, u: Unit, s: State, s': State)
    requires ContextOk(c) && Injective(r) && CoversUnit(r.ids, u) && Matches(r.ids, s, s')
    requires forall l :: IndexOf(code, Label(l)) == IndexOf(code', Label(l))
    requires u.JumpIf? ==> u.src2.Lit?
    requires Exec(code, c, u, s).status != Stuck
    ensures Matches(r.ids, Exec(code, c, u, s), Exec(code', c, RenameUnit(r.ids, u), s'))
  {
    hide EvalUnary, EvalBinary, Wrap, IndexOf, AfterCall, CallEvent, Rename, Covers, Renamed, Injective, Value, Assign;
    ExecSameLabels(code, code', c, RenameUnit(r.ids, u), s');
    if u.Unary? || u.Binary? || u.Copy? || u.ArrayRead? {
      RenamedExecAssign(r, code, c, u, s, s');
    } else if u.CallI? || u.CallV? {
      RenamedExecCall(r, code, c, u, s, s');
    } else {
      RenamedReads(r, c, s.env, s'.env, u);
      if u.JumpIf? {
        RenamedLiteral(r, c, s.env, s'.env, u.src2);
      }
    }
  }

  lemma RenamedExecCall(r: Renaming, code: seq<Unit>, c: Context, u: Unit, s: State, s': State)
    requires ContextOk(c) && Injective(r) && CoversUnit(r.ids, u) && Matches(r.ids, s, s')
    requires u.CallI? || u.CallV?
    requires Exec(code, c, u, s).status != Stuck
    ensures Matches(r.ids, Exec(code, c, u, s), Exec(code, c, RenameUnit(r.ids, u), s'))
  {
    hide AfterCall, CallEvent, Rename, Covers, Renamed, Injective, Value, Assign;
    RenamedCall(r, c, s, s', u.name);
    if u.CallI? {
      assert u.dst in Ops(u);
      RenamedAssign(r, c, AfterCall(c, s, u.name), AfterCall(c, s', u.name), u.dst, Some(CallValue(c, s, u.name)));
    }
  }

  lemma RenamedLiteral(r: Renaming, c: Context, env: map<Operand, Word>, env': map<Operand, Word>, o: Operand)
    requires o.Lit?
    ensures Value(c, env', o) == Value(c, env, o)
  {
  }

  lemma RenameKeepsLabels(r: Renaming, code: seq<Unit>)
    ensures forall l :: IndexOf(code, Label(l)) == IndexOf(RenameCode(r, code), Label(l))
  {
    hide MeetCode, RenameCode;
    RenameLength(r, code);
    forall l ensures IndexOf(code, Label(l)) == IndexOf(RenameCode(r, code), Label(l)) {
      forall i | 0 <= i < |code| ensures code[i] == Label(l) <==> RenameCode(r, code)[i] == Label(l) {
        RenameCodeIs(r, code, i);
      }
      IndexOfSame(code, RenameCode(r, code), Label(l));
    }
  }

  lemma RenamedStep(r: Renaming, code: seq<Unit>, c: Context, s: State, s': State)
    requires ContextOk(c) && Injective(r) && JumpsCompareLiterals(code)
    requires Matches(MeetCode(r, code).ids, s, s')
    requires Step(code, c, s).status != Stuck
    ensures Matches(MeetCode(r, code).ids, Step(code, c, s), Step(RenameCode(r, code), c, s'))
  {
    hide Exec, MeetCode, RenameCode, RenameUnit, Injective, Renamed, IndexOf;
    RenameLength(r, code);
    if s.status == Running && s.pc < |code| {
      RenameCodeIs(r, code, s.pc);
      MeetCodeGrows(r, code);
      RenameKeepsLabels(r, code);
      RenamedExec(MeetCode(r, code), code, RenameCode(r, code), c, code[s.pc], s, s');
    }
  }

  /** Every run that does not get stuck is matched step for step by the renamed code. */
  lemma {:induction false} RenameCorrect(r: Renaming, code: seq<Unit>, c: Context, s: State, n: nat)
    requires ContextOk(c) && Injective(r) && JumpsCompareLiterals(code) && Entry(s)
    requires Run(code, c, s, n).status != Stuck
    ensures Matches(MeetCode(r, code).ids, Run(code, c, s, n), Run(RenameCode(r, code), c, s, n))
  {
    hide Step, MeetCode, RenameCode, Injective;
    if n > 0 {
      hide Matches;
      NeverStuck(code, c, s, n - 1, n);
      RenameCorrect(r, code, c, s, n - 1);
      RenamedStep(r, code, c, Run(code, c, s, n - 1), Run(RenameCode(r, code), c, s, n - 1));
    }
  }

  // ----- declarations -----

  ghost predicate Occurs(code: seq<Unit>, t: int) {
    exists i :: 0 <= i < |code| && Temp(t) in Ops(code[i])
  }

  ghost predicate Declares(decl: seq<Symb>, t: int) {
    exists i :: 0 <= i < |decl| && decl[i].name == Temp(t)
  }

  lemma {:induction false} NamedDeclsHaveNoTemps(decl: seq<Symb>, i: nat)
    requires i < |NamedDecls(decl)|
    ensures !NamedDecls(decl)[i].name.Temp?
  {
    if i < |NamedDecls(decl[..|decl| - 1])| {
      NamedDeclsHaveNoTemps(decl[..|decl| - 1], i);
    }
  }

  /** No temporary is declared twice. */
  lemma DeclaredOnce(r: Renaming, f: Func, i: nat, j: nat)
    requires i < |ClearFunc(r, f).decl| && j < |ClearFunc(r, f).decl| && i != j
    requires ClearFunc(r, f).decl[i].name.Temp?
    ensures ClearFunc(r, f).decl[i].name != ClearFunc(r, f).decl[j].name
  {
    hide MeetCode, RenameCode;
    var n := |NamedDecls(f.decl)|;
    if i < n {
      NamedDeclsHaveNoTemps(f.decl, i);
    } else if j < n {
      NamedDeclsHaveNoTemps(f.decl, j);
    }
  }

  /** A temporary of the original that no earlier function used ends up declared; one that an earlier
      function used does not, because its number was handed out there. */
  lemma DeclaredIffNew(r: Renaming, f: Func, t: int)
    requires Injective(r) && Occurs(f.code, t)
    ensures t in MeetCode(r, f.code).ids
    ensures Declares(ClearFunc(r, f).decl, MeetCode(r, f.code).ids[t]) <==> t !in r.ids
  {
    hide MeetCode, RenameCode;
    MeetCodeGrows(r, f.code);
    var i :| 0 <= i < |f.code| && Temp(t) in Ops(f.code[i]);
    assert Covers(MeetCode(r, f.code).ids, Temp(t));
    var id, n := MeetCode(r, f.code).ids[t], |NamedDecls(f.decl)|;
    var decl := ClearFunc(r, f).decl;
    if t !in r.ids {
      assert decl[n + (id - r.count)].name == Temp(id);
    } else {
      forall k | 0 <= k < |decl| ensures decl[k].name != Temp(id) {
        if k < n {
          NamedDeclsHaveNoTemps(f.decl, k);
        }
      }
    }
  }
}
