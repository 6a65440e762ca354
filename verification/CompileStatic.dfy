/** Every program that code generation accepts compiles: the optimiser's output meets all assertions
    of the back end, and the register code meets those of instruction selection. */
module CompileStatic {
  import opened Words
  import opened Wrappers
  import opened Layout
  import opened Pinkie
  import Ast
  import E = Embedding
  import opened GenStatic
  import GP = GenProgram
  import opened ConstFold
  import CFC = ConstFoldCorrect
  import opened DeadTemps
  import opened ClearTemps
  import opened FlipBinops
  import opened Optimize
  import OS = OptimizeStatic
  import Frames
  import B = Backend
  import BC = BackendCorrect
  import BS = BackendStatic
  import D = Dashie

  // ----- declarations -----

  ghost predicate DecOk(sc: Scope, d: Symb) {
    if d.name.Temp? then d.len == 0
    else
      (d.name.Var? || d.name.Param?)
      && if d.len == 0 then d.name in sc.scalars else d.len > 0 && d.len % 4 == 0 && d.name in sc.arrays
  }

  ghost predicate DeclOk(sc: Scope, decl: seq<Symb>) {
    forall d :: d in decl ==> DecOk(sc, d)
  }

  /** The scope holds the function's parameters, its declared locals and globals, each as the kind it is. */
  ghost predicate ScopeFits(sc: Scope, table: map<Operand, D.Global>, arity: nat, decl: seq<Symb>) {
    && (forall o :: o in sc.scalars ==> o !in sc.arrays)
    && (forall o :: o in sc.scalars ==>
          if o in table then table[o].length == 0 else (o.Param? && 0 <= o.id < arity) || Frames.Named(decl, o))
    && (forall o :: o in sc.arrays ==> if o in table then table[o].length != 0 else Frames.Named(decl, o))
    && (forall i :: 0 <= i < arity ==> Param(i) in sc.scalars && Param(i) !in table)
    && (forall o :: o in table ==> o.Var?)
  }

  lemma GeneratedDecl(p: GP.Program, scs: seq<Scope>, i: nat)
    requires GP.ProgramScoped(p, scs) && i <= |p.funcs|
    ensures |GP.Generate(p).funcs| == |p.funcs| + 1 && DeclOk(scs[i], GP.Generate(p).funcs[i].decl)
  {
    hide StmtGenTidy, GP.GenEeyore.GenStmt, StmtScoped, Tidy, GP.GenFuncs, GP.GenGlobals, ExprScoped, Named, GP.GenEeyore.TempDecs,
         GP.GenEeyore.FunctionCode, DecOk;
    GP.GenerateLength(p);
    var g := GP.GenGlobals(p.globals);
    if i == 0 {
      TempsOk(scs[0], g.code + [RetV]);
      GP.NoFuncs(p.funcs, g.temps, g.labels);
    } else {
      var b := GP.GenFuncs(p.funcs[..i - 1], g.temps, g.labels);
      var f := p.funcs[i - 1];
      GP.GenFuncsAt(p.funcs, g.temps, g.labels, i - 1);
      assert StmtScoped(scs[i - 1 + 1], f.body, false);
      GP.FunctionTidy(scs[i], f, b.temps, b.labels);
      var h := GP.GenEeyore.GenStmt(f.body, b.temps, b.labels, None, None);
      StmtMeans(scs[i], GP.GenEeyore.GenS(GP.GenEeyore.FunctionCode(f, h.code), h.decs, h.temps, h.labels), {}, b.temps, b.labels);
      DecsAre(scs[i], h.decs);
      TempsOk(scs[i], GP.GenEeyore.FunctionCode(f, h.code));
    }
  }

  lemma TempsOk(sc: Scope, code: seq<Unit>)
    ensures DeclOk(sc, GP.GenEeyore.TempDecs(code))
  {
    GP.GenEeyore.TempDecsExact(code);
  }

  lemma DecsAre(sc: Scope, decs: seq<Symb>)
    requires DecsOk(sc, decs)
    ensures DeclOk(sc, decs)
  {
  }

  // ----- the optimiser's output -----

  /** The functions before renumbering. */
  function Shorts(prog: Prog): seq<Func>
    requires FoldFuncs(prog.funcs).Some?
  {
    RemoveFuncs(FoldFuncs(prog.funcs).value)
  }

  /** What the optimiser makes of one function, in full. */
  lemma OptimizedIs(prog: Prog, k: nat)
    requires OptimizeProg(prog).Some? && k < |prog.funcs|
    ensures FoldFuncs(prog.funcs).Some? && |Shorts(prog)| == |prog.funcs| && |OptimizeProg(prog).value.funcs| == |prog.funcs|
    ensures Fold(prog.funcs[k].code).Some?
    ensures Shorts(prog)[k] == prog.funcs[k].(code := RemoveUnused(Fold(prog.funcs[k].code).value))
    ensures var r := MeetFuncs(START, Shorts(prog)[..k]);
            var f := ClearFunc(r, Shorts(prog)[k]);
            Injective(r) && OptimizeProg(prog).value.funcs[k] == f.(code := Flip(f.code))
    ensures OptimizeProg(prog).value.globals == prog.globals && OptimizeProg(prog).value.labelCount == prog.labelCount
  {
    hide Fold, RemoveUnused, RenameCode, MeetCode, MeetFuncs, ClearFunc, Injective, Flip;
    FoldFuncsAt(prog.funcs, k);
    ClearFuncsAt(START, Shorts(prog), k) by { StartInjective(); }
  }

  lemma StartInjective()
    ensures Injective(START)
  {
  }

  lemma ClearFuncIs(r: Renaming, f: Func)
    ensures ClearFunc(r, f).code == RenameCode(r, f.code)
    ensures ClearFunc(r, f).name == f.name && ClearFunc(r, f).arity == f.arity
    ensures r.count <= MeetCode(r, f.code).count
    ensures ClearFunc(r, f).decl == NamedDecls(f.decl) + TempDecls(r.count, MeetCode(r, f.code).count)
  {
    hide MeetCode, RenameCode, NamedDecls;
  }

  lemma {:induction false} NamedDeclsAre(decl: seq<Symb>)
    ensures forall d :: d in NamedDecls(decl) ==> d in decl
    ensures forall o :: Frames.Named(decl, o) && !o.Temp? ==> Frames.Named(NamedDecls(decl), o)
  {
    if decl != [] {
      var n := |decl| - 1;
      NamedDeclsAre(decl[..n]);
      forall o | Frames.Named(decl, o) && !o.Temp? ensures Frames.Named(NamedDecls(decl), o) {
        var i :| 0 <= i < |decl| && decl[i].name == o;
        if i < n {
          assert decl[..n][i].name == o;
          assert Frames.Named(decl[..n], o);
          var j :| 0 <= j < |NamedDecls(decl[..n])| && NamedDecls(decl[..n])[j].name == o;
          assert NamedDecls(decl)[j].name == o;
        } else {
          assert NamedDecls(decl)[|NamedDecls(decl)| - 1].name == o;
        }
      }
    }
  }

  lemma NamedMore(a: seq<Symb>, b: seq<Symb>, o: Operand)
    requires Frames.Named(a, o)
    ensures Frames.Named(a + b, o)
  {
    var i :| 0 <= i < |a| && a[i].name == o;
    assert (a + b)[i].name == o;
  }

  /** Renumbering keeps the named declarations and declares only temporaries besides. */
  lemma ClearedDecl(sc: Scope, r: Renaming, f: Func, table: map<Operand, D.Global>)
    requires DeclOk(sc, f.decl) && ScopeFits(sc, table, f.arity, f.decl)
    requires forall o :: Named(sc, o) ==> !o.Temp?
    ensures DeclOk(sc, ClearFunc(r, f).decl)
    ensures forall o :: o in sc.scalars || o in sc.arrays ==>
              o.Temp? || o in table || (o.Param? && 0 <= o.id < f.arity) || Frames.Named(ClearFunc(r, f).decl, o)
  {
    ClearFuncIs(r, f);
    NamedDeclsAre(f.decl);
    hide ClearFunc, MeetCode, NamedDecls, Frames.Named;
    var temps := TempDecls(r.count, MeetCode(r, f.code).count);
    forall o | o in sc.scalars || o in sc.arrays
      ensures o.Temp? || o in table || (o.Param? && 0 <= o.id < f.arity) || Frames.Named(ClearFunc(r, f).decl, o)
    {
      if !o.Temp? && Frames.Named(f.decl, o) {
        NamedMore(NamedDecls(f.decl), temps, o);
      }
    }
  }

  // ----- temporaries of different functions -----

  ghost predicate TempsIn(code: seq<Unit>, t0: int, t1: int) {
    forall u, t :: u in code && Temp(t) in Ops(u) ==> t0 <= t < t1
  }

  lemma FoldOps(counts: map<int, nat>, lits: map<int, Word>, u: Unit, t: int)
    requires Temp(t) in Ops(Substitute(counts, lits, u))
    ensures Temp(t) in Ops(u)
  {
    hide Count;
  }

  lemma FoldedOps(v: Unit, w: Word, t: int)
    requires LiteralCalc(v) == Literal(w) && Temp(t) in Ops(FoldedUnit(v, w))
    ensures Temp(t) in Ops(v)
  {
  }

  lemma ShortTemps(code: seq<Unit>, t0: int, t1: int)
    requires Fold(code).Some? && TempsIn(code, t0, t1)
    ensures TempsIn(RemoveUnused(Fold(code).value), t0, t1)
  {
    hide Fold, RemoveUnused, Ops, WriteCounts, CFC.ConstFold.At, Substitute, LiteralCalc, FoldedUnit;
    CFC.FoldKeepsLabels(code);
    var folded := Fold(code).value;
    forall u, t | u in RemoveUnused(folded) && Temp(t) in Ops(u) ensures t0 <= t < t1 {
      RemovedFrom(folded, u);
      var i :| 0 <= i < |folded| && folded[i] == u;
      CFC.FoldedAt(code, i);
      assert code[i] in code;
      var v := Substitute(WriteCounts(code), At(code, i).lits, code[i]);
      if LiteralCalc(v).Literal? {
        FoldedOps(v, LiteralCalc(v).word, t);
      }
      FoldOps(WriteCounts(code), At(code, i).lits, code[i], t);
    }
  }

  lemma {:induction false} MeetAllKeys(r: Renaming, ops: seq<Operand>)
    ensures forall t :: t in MeetAll(r, ops).ids ==> t in r.ids || Temp(t) in ops
  {
    if ops != [] {
      MeetAllKeys(r, ops[..|ops| - 1]);
    }
  }

  lemma {:induction false} MeetCodeKeys(r: Renaming, code: seq<Unit>, t0: int, t1: int)
    requires TempsIn(code, t0, t1)
    ensures forall t :: t in MeetCode(r, code).ids ==> t in r.ids || t0 <= t < t1
  {
    hide Ops, MeetAll;
    if code != [] {
      var n := |code| - 1;
      assert code[n] in code;
      MeetCodeKeys(r, code[..n], t0, t1);
      MeetAllKeys(MeetCode(r, code[..n]), Ops(code[n]));
    }
  }

  lemma GeneratedTemps(p: GP.Program, scs: seq<Scope>, k: nat)
    requires GP.ProgramScoped(p, scs) && k <= |p.funcs|
    ensures |GP.Generate(p).funcs| == |p.funcs| + 1
    ensures TempsIn(GP.Generate(p).funcs[k].code, GP.CountersAt(p, k).0, GP.CountersAt(p, k + 1).0)
  {
    hide GP.Generate, GP.CountersAt, Tidy, Ops, ExprScoped, StmtScoped, Named;
    GP.GeneratedWellFormed(p, scs, k);
    var code, a, b := GP.Generate(p).funcs[k].code, GP.CountersAt(p, k), GP.CountersAt(p, k + 1);
    forall u, t | u in code && Temp(t) in Ops(u) ensures a.0 <= t < b.0 {
      GP.TidyTemps(scs[k], code, {}, a.1, b.1, a.0, b.0, u, t);
    }
  }

  /** No temporary of a function was met in an earlier one. */
  lemma {:induction false} EarlierTemps(p: GP.Program, scs: seq<Scope>, k: nat)
    requires GP.ProgramScoped(p, scs) && k <= |p.funcs| + 1 && OptimizeProg(GP.Generate(p)).Some?
    ensures FoldFuncs(GP.Generate(p).funcs).Some? && |Shorts(GP.Generate(p))| == |p.funcs| + 1
    ensures forall t :: t in MeetFuncs(START, Shorts(GP.Generate(p))[..k]).ids ==> 0 <= t < GP.CountersAt(p, k).0
  {
    hide GP.Generate, GP.CountersAt, GP.ProgramScoped, Ops, Fold, RemoveUnused, MeetCode, TempsIn, ClearFunc, Injective, Flip, FoldFuncs;
    var prog := GP.Generate(p);
    GP.GenerateLength(p);
    OptimizedIs(prog, 0);
    var fs := Shorts(prog);
    if k > 0 {
      EarlierTemps(p, scs, k - 1);
      OptimizedIs(prog, k - 1);
      GeneratedTemps(p, scs, k - 1);
      ShortTemps(prog.funcs[k - 1].code, GP.CountersAt(p, k - 1).0, GP.CountersAt(p, k).0);
      assert fs[..k][..k - 1] == fs[..k - 1];
      MeetCodeKeys(MeetFuncs(START, fs[..k - 1]), fs[k - 1].code, GP.CountersAt(p, k - 1).0, GP.CountersAt(p, k).0);
      GP.CountersGrow(p, scs, k - 1, k);
      GP.CountersGrow(p, scs, 0, k - 1);
      GP.FirstCounters(p);
    } else {
      assert fs[..0] == [];
    }
  }

  // ----- operands have places -----

  /** Every parameter and declared local has a slot, of the kind that its scope says. */
  lemma SlotFacts(sc: Scope, f: Func, o: Operand)
    requires DeclOk(sc, f.decl) && (forall x :: x in sc.scalars ==> x !in sc.arrays)
    requires forall i :: 0 <= i < f.arity ==> Param(i) in sc.scalars
    requires Frames.Named(f.decl, o) || (o.Param? && 0 <= o.id < f.arity)
    ensures o in Frames.SlotsOf(f)
    ensures o.Temp? || o in sc.scalars ==> Frames.SlotsOf(f)[o].len == 0
    ensures o in sc.arrays && !o.Temp? ==> Frames.SlotsOf(f)[o].len != 0
  {
    hide Frames.CalleeSavedHeuristic, Frames.Locals, Frames.Slots, Frames.End;
    Frames.LocalsExact(f);
    var base, l := 4 * Frames.CalleeSavedHeuristic(f), Frames.Locals(f);
    if Frames.Named(f.decl, o) {
      var i :| 0 <= i < |f.decl| && f.decl[i].name == o;
    } else {
      assert o == Param(o.id);
    }
    assert Frames.Named(l, o);
    var k :| 0 <= k < |l| && l[k].name == o;
    Frames.NamedHasSlot(base, l, k);
    var j := Frames.SlotOwner(base, l, o);
    assert l[j] in l;
    if l[j] in f.decl {
      assert DecOk(sc, l[j]);
    }
  }

  /** All operands of the unit have places of the right kind. */
  lemma UnitPlaced(
    sc: Scope, table: map<Operand, D.Global>, f: Func, ep: int, paramC: nat, u: Unit)
    requires DeclOk(sc, f.decl) && (forall x :: x in sc.scalars ==> x !in sc.arrays)
    requires forall i :: 0 <= i < f.arity ==> Param(i) in sc.scalars
    requires forall o :: o in sc.scalars && o in table ==> table[o].length == 0
    requires forall o :: o in table ==> o.Var?
    requires forall o :: (o in sc.scalars || o in sc.arrays) && !o.Temp? ==>
               o in table || (o.Param? && 0 <= o.id < f.arity) || Frames.Named(f.decl, o)
    requires forall t :: Temp(t) in Ops(u) ==> Frames.Named(f.decl, Temp(t))
    requires OS.Usable(sc, u) && BackendShape(u) && (u.Arg? ==> paramC < 12)
    ensures B.UnitOk(B.EnvOf(table, f, ep), paramC, u)
  {
    var env := B.EnvOf(table, f, ep);
    hide Frames.SlotsOf, Frames.Named, DeclOk, Frames.CalleeSavedHeuristic, B.Pool;
    forall o | o in Ops(u) && (o.Lit? || o.Temp? || Named(sc, o)) ensures B.Known(env, o) {
      if !o.Lit? && o !in table {
        SlotFacts(sc, f, o);
      }
    }
    if GP.GenEeyore.Destination(u).Some? {
      var o := GP.GenEeyore.Destination(u).value;
      assert o in Ops(u);
      if o !in table {
        SlotFacts(sc, f, o);
      }
      assert B.Storable(env, o);
    }
    hide B.Known, B.Storable, B.EnvOf;
    forall o | o in ROps(u) ensures B.Known(env, o) {
      assert o in Ops(u);
    }
    if u.ArrayWrite? {
      assert u.base in Ops(u);
    }
  }

  // ----- whole programs -----

  /** What the source program must satisfy for function `k` of the generated program, the initialiser
      being function 0. */
  ghost predicate FuncFits(p: GP.Program, scs: seq<Scope>, k: nat) {
    && GP.ProgramScoped(p, scs) && k <= |p.funcs| && |GP.Generate(p).funcs| == |p.funcs| + 1
    && GP.Generate(p).funcs[k].arity <= 12
    && ScopeFits(scs[k], B.GlobalTable(GP.Generate(p).globals), GP.Generate(p).funcs[k].arity, GP.Generate(p).funcs[k].decl)
  }

  lemma NamedNotTemp(sc: Scope)
    ensures forall o :: Named(sc, o) ==> !o.Temp?
  {
  }

  lemma TidyFacts(sc: Scope, code: seq<Unit>, ext: set<int>, lo: int, hi: int, t0: int, t1: int)
    requires Tidy(sc, code, code, ext, lo, hi, t0, t1)
    ensures OS.Framed(code) && OS.AllUsable(sc, code) && (forall u :: u in code ==> EeyoreShape(u))
    ensures forall l :: Label(l) in code ==> lo <= l < hi
  {
    hide UnitTidy, OS.Usable, EeyoreShape, ArgsContiguous, ArgsFew, E.DistinctLabels;
    forall u | u in code ensures OS.Usable(sc, u) && EeyoreShape(u) {
      OS.TidyUsable(sc, code, ext, t0, t1, u);
    }
  }

  /** The generated function, its optimised form, and what ties them to the source. */
  lemma OptimizedFacts(p: GP.Program, scs: seq<Scope>, k: nat)
    requires FuncFits(p, scs, k) && OptimizeProg(GP.Generate(p)).Some?
    ensures |OptimizeProg(GP.Generate(p)).value.funcs| == |p.funcs| + 1
    ensures var f, f' := GP.Generate(p).funcs[k], OptimizeProg(GP.Generate(p)).value.funcs[k];
            && f'.arity == f.arity && f'.name == f.name
            && OS.Framed(f'.code) && OS.AllUsable(scs[k], f'.code) && (forall u :: u in f'.code ==> BackendShape(u))
            && (forall l :: Label(l) in f'.code ==> 0 <= l < GP.Generate(p).labelCount)
            && DeclOk(scs[k], f'.decl)
            && (forall u, t :: u in f'.code && Temp(t) in Ops(u) ==> Frames.Named(f'.decl, Temp(t)))
            && (forall o :: (o in scs[k].scalars || o in scs[k].arrays) && !o.Temp? ==>
                  o in B.GlobalTable(GP.Generate(p).globals) || (o.Param? && 0 <= o.id < f'.arity) || Frames.Named(f'.decl, o))
  {
    hide *;
    FitsMeans(p, scs, k);
    var prog, sc := GP.Generate(p), scs[k];
    OptimizedIs(prog, k);
    var f, r, short := prog.funcs[k], MeetFuncs(START, Shorts(prog)[..k]), Shorts(prog)[k];
    var f' := OptimizeProg(prog).value.funcs[k];
    ClearFuncIs(r, short);
    GP.GeneratedWellFormed(p, scs, k);
    WellFormedMeans(sc, f, GP.CountersAt(p, k), GP.CountersAt(p, k + 1));
    TidyFacts(sc, f.code, {}, GP.CountersAt(p, k).1, GP.CountersAt(p, k + 1).1, GP.CountersAt(p, k).0, GP.CountersAt(p, k + 1).0);
    OptimizeCodeIs(r, f.code);
    OS.OptimizeStatic(sc, r, f.code);
    forall u | u in f'.code ensures BackendShape(u) {
      OptimizedShape(r, f.code, u);
    }
    forall l | Label(l) in f'.code ensures 0 <= l < prog.labelCount {
      GP.LabelsUnique(p, scs, k, k, l);
    }
    GeneratedDecl(p, scs, k);
    NamedNotTemp(sc);
    ClearedDecl(sc, r, short, B.GlobalTable(prog.globals));
    forall u, t | u in f'.code && Temp(t) in Ops(u) ensures Frames.Named(f'.decl, Temp(t)) {
      EarlierTemps(p, scs, k);
      GeneratedTemps(p, scs, k);
      ShortTemps(f.code, GP.CountersAt(p, k).0, GP.CountersAt(p, k + 1).0);
      forall i | Occurs(short.code, i) ensures i !in r.ids {
        OccursIn(short.code, i, GP.CountersAt(p, k).0, GP.CountersAt(p, k + 1).0);
      }
      OS.TempDeclared(r, short, u, Temp(t));
      DeclaredNamed(f'.decl, t);
    }
  }

  lemma OptimizeCodeIs(r: Renaming, code: seq<Unit>)
    requires Fold(code).Some?
    ensures OptimizeCode(r, code) == Flip(RenameCode(r, RemoveUnused(Fold(code).value)))
  {
    hide Fold, RemoveUnused, RenameCode, Flip;
  }

  lemma FitsMeans(p: GP.Program, scs: seq<Scope>, k: nat)
    requires FuncFits(p, scs, k)
    ensures GP.ProgramScoped(p, scs) && k <= |p.funcs| && |GP.Generate(p).funcs| == |p.funcs| + 1 && |scs| == |p.funcs| + 1
    ensures GP.Generate(p).funcs[k].arity <= 12
    ensures ScopeFits(scs[k], B.GlobalTable(GP.Generate(p).globals), GP.Generate(p).funcs[k].arity, GP.Generate(p).funcs[k].decl)
  {
    hide ScopeFits, GP.Generate, ExprScoped, StmtScoped, Named;
  }

  lemma WellFormedMeans(sc: Scope, f: Func, before: (int, int), after: (int, int))
    requires GP.WellFormed(sc, f, before, after)
    ensures Tidy(sc, f.code, f.code, {}, before.1, after.1, before.0, after.0)
  {
    hide Tidy;
  }

  lemma OccursIn(code: seq<Unit>, t: int, t0: int, t1: int)
    requires Occurs(code, t) && TempsIn(code, t0, t1)
    ensures t0 <= t < t1
  {
    hide Ops;
    var i :| 0 <= i < |code| && Temp(t) in Ops(code[i]);
    assert code[i] in code;
  }

  lemma DeclaredNamed(decl: seq<Symb>, t: int)
    requires Declares(decl, t)
    ensures Frames.Named(decl, Temp(t))
  {
  }

  lemma ScopeMeans(sc: Scope, table: map<Operand, D.Global>, arity: nat, decl: seq<Symb>)
    requires ScopeFits(sc, table, arity, decl)
    ensures forall o :: o in sc.scalars ==> o !in sc.arrays
    ensures forall i :: 0 <= i < arity ==> Param(i) in sc.scalars && Param(i) !in table
    ensures forall o :: o in sc.scalars && o in table ==> table[o].length == 0
    ensures forall o :: o in table ==> o.Var?
  {
    hide Frames.Named;
  }

  ghost function Table(p: GP.Program): map<Operand, D.Global> {
    B.GlobalTable(GP.Generate(p).globals)
  }

  /** The environment in which function `k` is compiled. */
  ghost function EnvAt(p: GP.Program, k: nat): B.Env
    requires OptimizeProg(GP.Generate(p)).Some? && k < |OptimizeProg(GP.Generate(p)).value.funcs|
  {
    B.EnvOf(Table(p), OptimizeProg(GP.Generate(p)).value.funcs[k], OptimizeProg(GP.Generate(p)).value.labelCount + k)
  }

  lemma EnvAtIs(p: GP.Program, k: nat)
    requires OptimizeProg(GP.Generate(p)).Some? && k < |OptimizeProg(GP.Generate(p)).value.funcs|
    ensures EnvAt(p, k)
         == B.EnvOf(Table(p), OptimizeProg(GP.Generate(p)).value.funcs[k], OptimizeProg(GP.Generate(p)).value.labelCount + k)
    ensures Table(p) == B.GlobalTable(GP.Generate(p).globals)
    ensures OptimizeProg(GP.Generate(p)).value.globals == GP.Generate(p).globals
    ensures OptimizeProg(GP.Generate(p)).value.labelCount == GP.Generate(p).labelCount
  {
    hide B.EnvOf, GP.Generate, OptimizeProg, B.GlobalTable;
    OptimizedGlobals(GP.Generate(p));
  }

  lemma OptimizedGlobals(prog: Prog)
    requires OptimizeProg(prog).Some?
    ensures OptimizeProg(prog).value.globals == prog.globals && OptimizeProg(prog).value.labelCount == prog.labelCount
  {
    hide FoldFuncs, FlipFuncs, ClearFuncs, RemoveFuncs;
  }

  lemma DeclSizes(sc: Scope, decl: seq<Symb>)
    requires DeclOk(sc, decl)
    ensures Frames.SizesOk(decl)
  {
    forall d | d in decl ensures d.len >= 0 && d.len % 4 == 0 {
      assert DecOk(sc, d);
    }
  }

  lemma FramedMeans(code: seq<Unit>)
    requires OS.Framed(code)
    ensures E.DistinctLabels(code) && ArgsContiguous(code) && ArgsFew(code)
  {
    hide E.DistinctLabels, ArgsContiguous, ArgsFew;
  }

  lemma CodeOkIs(env: B.Env, code: seq<Unit>)
    requires forall i :: 0 <= i < |code| ==> B.UnitOk(env, B.ParamAt(code, i), code[i])
    ensures B.CodeOk(env, code)
  {
    hide B.UnitOk;
  }

  lemma FewAt(code: seq<Unit>, i: nat)
    requires ArgsFew(code) && i < |code| && code[i].Arg?
    ensures B.ParamAt(code, i) < 12
  {
    hide B.ParamAt;
  }

  lemma AllUsableAt(sc: Scope, code: seq<Unit>, u: Unit)
    requires OS.AllUsable(sc, code) && u in code
    ensures OS.Usable(sc, u)
  {
    hide OS.Usable;
  }

  /** After optimisation, every function meets all that code generation asserts. */
  lemma CompiledOk(p: GP.Program, scs: seq<Scope>, k: nat)
    requires FuncFits(p, scs, k) && OptimizeProg(GP.Generate(p)).Some?
    ensures |OptimizeProg(GP.Generate(p)).value.funcs| == |p.funcs| + 1
    ensures B.CodeOk(EnvAt(p, k), OptimizeProg(GP.Generate(p)).value.funcs[k].code)
  {
    hide *;
    FitsMeans(p, scs, k);
    OptimizedFacts(p, scs, k);
    var f, sc, ep := OptimizeProg(GP.Generate(p)).value.funcs[k], scs[k], OptimizeProg(GP.Generate(p)).value.labelCount + k;
    var env := EnvAt(p, k);
    EnvAtIs(p, k);
    ScopeMeans(sc, Table(p), f.arity, GP.Generate(p).funcs[k].decl);
    FramedMeans(f.code);
    forall i | 0 <= i < |f.code| ensures B.UnitOk(env, B.ParamAt(f.code, i), f.code[i]) {
      var u := f.code[i];
      assert u in f.code;
      AllUsableAt(sc, f.code, u);
      if u.Arg? {
        FewAt(f.code, i);
      }
      UnitPlaced(sc, Table(p), f, ep, B.ParamAt(f.code, i), u);
    }
    CodeOkIs(env, f.code);
  }

  lemma FuncReadyIs(env: B.Env, arity: nat, code: seq<Unit>)
    requires BC.EnvOk(env) && B.ParamsKnown(env, arity) && B.CodeOk(env, code) && ArgsContiguous(code)
    requires Label(env.epilogue) !in code
    requires forall i :: 0 <= i < arity ==> Param(i) !in env.globals && env.locals[Param(i)].len == 0
    ensures BC.FuncReady(env, arity, code)
  {
    hide BC.EnvOk, B.ParamsKnown, B.CodeOk, ArgsContiguous;
  }

  lemma EnvParts(p: GP.Program, k: nat)
    requires OptimizeProg(GP.Generate(p)).Some? && k < |OptimizeProg(GP.Generate(p)).value.funcs|
    ensures var f, env := OptimizeProg(GP.Generate(p)).value.funcs[k], EnvAt(p, k);
            && env.globals == Table(p) && env.locals == Frames.SlotsOf(f) && env.nSaved == Frames.CalleeSavedHeuristic(f)
            && env.epilogue == GP.Generate(p).labelCount + k
  {
    EnvAtIs(p, k);
    hide GP.Generate, OptimizeProg, Frames.SlotsOf, Frames.CalleeSavedHeuristic, EnvAt, Table, B.Pool;
  }

  /** And the simulation of the back end applies to it, with distinct labels and known operators. */
  lemma CompiledReady(p: GP.Program, scs: seq<Scope>, k: nat)
    requires FuncFits(p, scs, k) && OptimizeProg(GP.Generate(p)).Some?
    ensures |OptimizeProg(GP.Generate(p)).value.funcs| == |p.funcs| + 1
    ensures var f := OptimizeProg(GP.Generate(p)).value.funcs[k];
            && BC.FuncReady(EnvAt(p, k), f.arity, f.code) && E.DistinctLabels(f.code) && f.arity <= 12
            && (forall u :: u in f.code ==> BS.OperatorsOk(u)) && Frames.SizesOk(f.decl)
  {
    hide *;
    FitsMeans(p, scs, k);
    OptimizedFacts(p, scs, k);
    CompiledOk(p, scs, k);
    var f, sc, env := OptimizeProg(GP.Generate(p)).value.funcs[k], scs[k], EnvAt(p, k);
    EnvAtIs(p, k);
    EnvParts(p, k);
    ScopeMeans(sc, Table(p), f.arity, GP.Generate(p).funcs[k].decl);
    FramedMeans(f.code);
    DeclSizes(sc, f.decl);
    BC.EnvOfOk(Table(p), f, GP.Generate(p).labelCount + k);
    B.ParamsAreKnown(Table(p), f, GP.Generate(p).labelCount + k);
    forall i | 0 <= i < f.arity ensures Param(i) in env.locals && env.locals[Param(i)].len == 0 {
      SlotFacts(sc, f, Param(i));
    }
    forall u | u in f.code ensures BS.OperatorsOk(u) {
      AllUsableAt(sc, f.code, u);
      OperatorsKnown(sc, u);
    }
    FuncReadyIs(env, f.arity, f.code);
  }

  lemma OperatorsKnown(sc: Scope, u: Unit)
    requires OS.Usable(sc, u)
    ensures BS.OperatorsOk(u)
  {
    hide Named;
  }

  /** A source program in scope always compiles: every assertion of code generation holds. */
  lemma ProgramCompiles(p: GP.Program, scs: seq<Scope>)
    requires OptimizeProg(GP.Generate(p)).Some? && forall k :: 0 <= k <= |p.funcs| ==> FuncFits(p, scs, k)
    ensures B.ProgOk(OptimizeProg(GP.Generate(p)).value)
  {
    hide GP.Generate, OptimizeProg, FuncFits, B.CodeOk, B.EnvOf, B.GlobalTable, EnvAt, BC.FuncReady, BS.OperatorsOk, E.DistinctLabels;
    var prog := OptimizeProg(GP.Generate(p)).value;
    CompiledOk(p, scs, 0);
    forall k | 0 <= k < |prog.funcs|
      ensures B.FuncOk(B.GlobalTable(prog.globals), prog.funcs[k], prog.labelCount + k)
    {
      assert FuncFits(p, scs, k);
      CompiledOk(p, scs, k);
      CompiledReady(p, scs, k);
      EnvAtIs(p, k);
    }
  }
}
