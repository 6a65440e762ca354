/** Code generation for whole programs, and what holds of every program it generates. */
module GenProgram {
  import opened Words
  import opened Wrappers
  import opened Layout
  import opened Pinkie
  import Ast
  import opened Embedding
  import opened GenEeyore
  import opened GenStatic

  datatype Declaration = Declaration(op: Operand, length: int, init: seq<Ast.Alignment>)

  datatype Program = Program(globals: seq<Declaration>, funcs: seq<GenEeyore.Function>)

  // ----- generation -----

  /** The initialisers of all globals in order, and the globals declared. */
  function GenGlobals(decs: seq<Declaration>): GenS {
    if decs == [] then GenS([], [], 0, 0)
    else
      var before, d := GenGlobals(decs[..|decs| - 1]), decs[|decs| - 1];
      var g := GenInit(d.op, d.length, d.init, before.temps, before.labels);
      GenS(before.code + g.code, before.decs + [DeclarationCast(d.op, d.length)], g.temps, g.labels)
  }

  datatype GenFs = GenFs(funcs: seq<Func>, temps: int, labels: int)

  function GenFuncs(fs: seq<GenEeyore.Function>, t: int, l: int): GenFs {
    if fs == [] then GenFs([], t, l)
    else
      var before, f := GenFuncs(fs[..|fs| - 1], t, l), fs[|fs| - 1];
      var g := GenStmt(f.body, before.temps, before.labels, None, None);
      GenFs(before.funcs + [GenFunction(f, before.temps, before.labels)], g.temps, g.labels)
  }

  function Initializer(g: GenS): Func {
    Func(INITIALIZER, 0, TempDecs(g.code + [RetV]), g.code + [RetV])
  }

  function Generate(p: Program): Prog {
    var g := GenGlobals(p.globals);
    var fs := GenFuncs(p.funcs, g.temps, g.labels);
    Prog(fs.labels, g.decs, [Initializer(g)] + fs.funcs)
  }

  /** The code of one function before its declarations are completed. */
  method GenerateFunction(f: GenEeyore.Function, t: int, l: int) returns (r: Func, t': int, l': int)
    ensures r == GenFunction(f, t, l)
    ensures var g := GenStmt(f.body, t, l, None, None); t' == g.temps && l' == g.labels
  {
    var g := GenStmt(f.body, t, l, None, None);
    var code := g.code;
    if f.name == "main" {
      code := [CallV(INITIALIZER)] + code;
    }
    if f.isVoid {
      code := code + [RetI(Lit(0))];
    }
    assert code == FunctionCode(f, g.code);
    r := PrettyFunction(f.name, f.params, g.decs, code);
    t', l' := g.temps, g.labels;
  }

  method GenerateEeyore(p: Program) returns (r: Prog)
    ensures r == Generate(p)
  {
    hide GenInit, GenFunction, TempDecs, GenStmt;
    var code, globals, t, l := [], [], 0, 0;
    for i := 0 to |p.globals|
      invariant GenGlobals(p.globals[..i]) == GenS(code, globals, t, l)
    {
      assert p.globals[..i + 1][..i] == p.globals[..i];
      var d := p.globals[i];
      var g := GenInit(d.op, d.length, d.init, t, l);
      code, globals, t, l := code + g.code, globals + [DeclarationCast(d.op, d.length)], g.temps, g.labels;
    }
    assert p.globals[..|p.globals|] == p.globals;
    ghost var t0, l0 := t, l;
    var init := PrettyFunction(INITIALIZER, 0, [], code + [RetV]);
    assert init == Initializer(GenGlobals(p.globals)) by {
      assert [] + TempDecs(code + [RetV]) == TempDecs(code + [RetV]);
    }
    var funcs := [];
    for i := 0 to |p.funcs|
      invariant GenFuncs(p.funcs[..i], t0, l0) == GenFs(funcs, t, l)
    {
      assert p.funcs[..i + 1][..i] == p.funcs[..i];
      var f;
      f, t, l := GenerateFunction(p.funcs[i], t, l);
      funcs := funcs + [f];
    }
    assert p.funcs[..|p.funcs|] == p.funcs;
    r := Prog(l, globals, [init] + funcs);
  }

  // ----- the numbers handed out -----

  /** The counters before function `i` of the generated program, the initialiser being function 0. */
  function CountersAt(p: Program, i: nat): (int, int)
    requires i <= |p.funcs| + 1
  {
    if i == 0 then (0, 0)
    else
      var g := GenGlobals(p.globals);
      var fs := GenFuncs(p.funcs[..i - 1], g.temps, g.labels);
      (fs.temps, fs.labels)
  }

  // ----- scopes -----

  /** Every function's body stays in its scope; the initialiser's scope is that of the globals. */
  ghost predicate ProgramScoped(p: Program, scs: seq<Scope>) {
    && |scs| == |p.funcs| + 1
    && (forall d :: d in p.globals ==>
          Named(scs[0], d.op) && (d.length <= 0 ==> d.op in scs[0].scalars)
          && forall a :: a in d.init ==> ExprScoped(scs[0], a.exp))
    && (forall i :: 0 <= i < |p.funcs| ==> StmtScoped(scs[i + 1], p.funcs[i].body, false))
  }

  // ----- every generated function is well formed -----

  lemma {:induction false} GlobalsTidy(sc: Scope, decs: seq<Declaration>)
    requires forall d :: d in decs ==>
               Named(sc, d.op) && (d.length <= 0 ==> d.op in sc.scalars) && forall a :: a in d.init ==> ExprScoped(sc, a.exp)
    ensures var g := GenGlobals(decs); StmtGenTidy(sc, GenS(g.code, [], g.temps, g.labels), {}, 0, 0)
  {
    hide StmtGenTidy, GenInit, ExprScoped, Named;
    if decs == [] {
      NoCode(sc, {}, 0, 0);
    } else {
      var before, d := GenGlobals(decs[..|decs| - 1]), decs[|decs| - 1];
      GlobalsTidy(sc, decs[..|decs| - 1]);
      assert d in decs;
      InitTidy(sc, d.op, d.length, d.init, {}, before.temps, before.labels);
      var g := GenInit(d.op, d.length, d.init, before.temps, before.labels);
      SequenceTidy(sc, GenS(before.code, [], before.temps, before.labels), g, {}, 0, 0);
      assert [] + g.decs == [];
    }
  }

  lemma CallVTidy(sc: Scope, name: string, t: int, l: int)
    ensures StmtGenTidy(sc, GenS([CallV(name)], [], t, l), {}, t, l)
    ensures StmtGenTidy(sc, GenS([RetI(Lit(0))], [], t, l), {}, t, l)
  {
    hide Tidy, StmtGenTidy;
    UnitStmtTidy(sc, CallV(name), {}, t, l);
    UnitStmtTidy(sc, RetI(Lit(0)), {}, t, l);
  }

  lemma FunctionTidy(sc: Scope, f: GenEeyore.Function, t: int, l: int)
    requires StmtScoped(sc, f.body, false)
    ensures var g := GenStmt(f.body, t, l, None, None);
            StmtGenTidy(sc, GenS(FunctionCode(f, g.code), g.decs, g.temps, g.labels), {}, t, l)
  {
    hide StmtGenTidy, GenStmt, StmtScoped;
    StmtTidy(sc, f.body, t, l, None, None, false);
    assert Targets(None, None) == {};
    var g := GenStmt(f.body, t, l, None, None);
    var code := g.code;
    CallVTidy(sc, INITIALIZER, t, l);
    if f.name == "main" {
      SequenceTidy(sc, GenS([CallV(INITIALIZER)], [], t, l), g, {}, t, l);
      assert [] + g.decs == g.decs;
      code := [CallV(INITIALIZER)] + code;
    }
    if f.isVoid {
      CallVTidy(sc, INITIALIZER, g.temps, g.labels);
      SequenceTidy(sc, GenS(code, g.decs, g.temps, g.labels), GenS([RetI(Lit(0))], [], g.temps, g.labels), {}, t, l);
      assert g.decs + [] == g.decs;
      code := code + [RetI(Lit(0))];
    }
    assert code == FunctionCode(f, g.code);
  }

  lemma {:induction false} GenFuncsAt(fs: seq<GenEeyore.Function>, t: int, l: int, i: nat)
    requires i < |fs|
    ensures |GenFuncs(fs, t, l).funcs| == |fs|
    ensures var b := GenFuncs(fs[..i], t, l); GenFuncs(fs, t, l).funcs[i] == GenFunction(fs[i], b.temps, b.labels)
  {
    hide GenFunction, GenStmt;
    GenFuncsLength(fs, t, l);
    GenFuncsLength(fs[..|fs| - 1], t, l);
    if i < |fs| - 1 {
      GenFuncsAt(fs[..|fs| - 1], t, l, i);
      assert fs[..|fs| - 1][..i] == fs[..i];
    }
  }

  lemma {:induction false} GenFuncsLength(fs: seq<GenEeyore.Function>, t: int, l: int)
    ensures |GenFuncs(fs, t, l).funcs| == |fs|
  {
    hide GenFunction, GenStmt;
    if fs != [] {
      GenFuncsLength(fs[..|fs| - 1], t, l);
    }
  }

  /** Well formed in its scope, with labels and temporaries from the ranges that the counters give it. */
  ghost predicate WellFormed(sc: Scope, f: Func, before: (int, int), after: (int, int)) {
    && before.0 <= after.0 && before.1 <= after.1
    && Tidy(sc, f.code, f.code, {}, before.1, after.1, before.0, after.0)
  }

  lemma GenerateLength(p: Program)
    ensures |Generate(p).funcs| == |p.funcs| + 1
  {
    hide GenFuncs, GenGlobals;
    GenFuncsLength(p.funcs, GenGlobals(p.globals).temps, GenGlobals(p.globals).labels);
  }

  /** Every function of a generated program is well formed: no label defined twice, no jump out of the
      function, no read of a temporary that it never writes, arguments right before their call. */
  lemma GeneratedWellFormed(p: Program, scs: seq<Scope>, i: nat)
    requires ProgramScoped(p, scs) && i <= |p.funcs|
    ensures |Generate(p).funcs| == |p.funcs| + 1
    ensures WellFormed(scs[i], Generate(p).funcs[i], CountersAt(p, i), CountersAt(p, i + 1))
  {
    hide StmtGenTidy, GenStmt, StmtScoped, Tidy, GenFuncs, GenGlobals, ExprScoped, Named, TempDecs, FunctionCode;
    GenerateLength(p);
    var g := GenGlobals(p.globals);
    if i == 0 {
      GlobalsTidy(scs[0], p.globals);
      RetVTidy(scs[0], {}, g.temps, g.labels);
      SequenceTidy(scs[0], GenS(g.code, [], g.temps, g.labels), GenS([RetV], [], g.temps, g.labels), {}, 0, 0);
      StmtMeans(scs[0], GenS(g.code + [RetV], [] + [], g.temps, g.labels), {}, 0, 0);
      NoFuncs(p.funcs, g.temps, g.labels);
    } else {
      var b := GenFuncs(p.funcs[..i - 1], g.temps, g.labels);
      var f := p.funcs[i - 1];
      GenFuncsAt(p.funcs, g.temps, g.labels, i - 1);
      assert StmtScoped(scs[i - 1 + 1], f.body, false);
      FunctionTidy(scs[i], f, b.temps, b.labels);
      var h := GenStmt(f.body, b.temps, b.labels, None, None);
      StmtMeans(scs[i], GenS(FunctionCode(f, h.code), h.decs, h.temps, h.labels), {}, b.temps, b.labels);
      NextCounters(p.funcs, i - 1, g.temps, g.labels);
    }
  }

  lemma NoFuncs(fs: seq<GenEeyore.Function>, t: int, l: int)
    ensures fs[..0] == [] && GenFuncs(fs[..0], t, l) == GenFs([], t, l)
  {
  }

  lemma NextCounters(fs: seq<GenEeyore.Function>, i: nat, t: int, l: int)
    requires i < |fs|
    ensures var b := GenFuncs(fs[..i], t, l);
            var g := GenStmt(fs[i].body, b.temps, b.labels, None, None);
            GenFuncs(fs[..i + 1], t, l).temps == g.temps && GenFuncs(fs[..i + 1], t, l).labels == g.labels
  {
    hide GenStmt, GenFunction;
    assert fs[..i + 1][..i] == fs[..i];
  }

  lemma {:induction false} CountersGrow(p: Program, scs: seq<Scope>, i: nat, j: nat)
    requires ProgramScoped(p, scs) && i <= j <= |p.funcs| + 1
    ensures CountersAt(p, i).0 <= CountersAt(p, j).0 && CountersAt(p, i).1 <= CountersAt(p, j).1
    decreases j - i
  {
    hide Tidy, ProgramScoped, CountersAt;
    if i < j {
      CountersGrow(p, scs, i, j - 1);
      GeneratedWellFormed(p, scs, j - 1);
    }
  }

  lemma LastCounters(p: Program)
    ensures CountersAt(p, |p.funcs| + 1).1 == Generate(p).labelCount
  {
    assert p.funcs[..|p.funcs|] == p.funcs;
  }

  /** A label is defined in one function only, and all are below the program's label count, so that
      labels handed out later are fresh. */
  lemma LabelsUnique(p: Program, scs: seq<Scope>, i: nat, j: nat, l: int)
    requires ProgramScoped(p, scs) && i <= |p.funcs| && j <= |p.funcs|
    requires |Generate(p).funcs| == |p.funcs| + 1
    requires Label(l) in Generate(p).funcs[i].code
    ensures 0 <= l < Generate(p).labelCount
    ensures Label(l) in Generate(p).funcs[j].code ==> i == j
  {
    hide Generate, ProgramScoped, CountersAt, DistinctLabels, UnitTidy, ArgsContiguous, ArgsFew;
    GeneratedWellFormed(p, scs, i);
    GeneratedWellFormed(p, scs, j);
    CountersGrow(p, scs, 0, i);
    CountersGrow(p, scs, i + 1, |p.funcs| + 1);
    LastCounters(p);
    FirstCounters(p);
    if i < j {
      CountersGrow(p, scs, i + 1, j);
    } else if j < i {
      CountersGrow(p, scs, j + 1, i);
    }
  }

  lemma FirstCounters(p: Program)
    ensures CountersAt(p, 0) == (0, 0)
  {
  }

  lemma TidyTemps(sc: Scope, code: seq<Unit>, ext: set<int>, lo: int, hi: int, t0: int, t1: int, u: Unit, t: int)
    requires Tidy(sc, code, code, ext, lo, hi, t0, t1) && u in code && Temp(t) in Ops(u)
    ensures t0 <= t < t1
  {
    hide LabelsWithin, ArgsContiguous, ArgsFew;
    assert UnitTidy(sc, code, ext, t0, t1, u);
    if Destination(u) != Some(Temp(t)) {
      OpsReadable(sc, code, ext, t0, t1, u, t);
      var v :| v in code && Destination(v) == Some(Temp(t));
      assert UnitTidy(sc, code, ext, t0, t1, v);
    }
  }

  lemma OpsReadable(sc: Scope, code: seq<Unit>, ext: set<int>, t0: int, t1: int, u: Unit, t: int)
    requires UnitTidy(sc, code, ext, t0, t1, u) && Temp(t) in Ops(u) && Destination(u) != Some(Temp(t))
    ensures Writes(code, t)
  {
    assert Temp(t) in ROps(u) || (u.ArrayWrite? && u.base == Temp(t));
    assert Readable(sc, code, Temp(t));
    hide Optimize.EeyoreShape, Writes;
  }

  /** Different functions use different temporaries. */
  lemma TempsDisjoint(p: Program, scs: seq<Scope>, i: nat, j: nat, u: Unit, v: Unit, t: int)
    requires ProgramScoped(p, scs) && i < j <= |p.funcs| && |Generate(p).funcs| == |p.funcs| + 1
    requires u in Generate(p).funcs[i].code && Temp(t) in Ops(u) && v in Generate(p).funcs[j].code
    ensures Temp(t) !in Ops(v)
  {
    hide Generate, ExprScoped, StmtScoped, Named, CountersAt, Tidy, Ops;
    GeneratedWellFormed(p, scs, i);
    GeneratedWellFormed(p, scs, j);
    var a, b := CountersAt(p, i), CountersAt(p, i + 1);
    TidyTemps(scs[i], Generate(p).funcs[i].code, {}, a.1, b.1, a.0, b.0, u, t);
    CountersGrow(p, scs, i + 1, j);
    if Temp(t) in Ops(v) {
      var a', b' := CountersAt(p, j), CountersAt(p, j + 1);
      TidyTemps(scs[j], Generate(p).funcs[j].code, {}, a'.1, b'.1, a'.0, b'.0, v, t);
    }
  }

  // ----- the initialiser as a function -----

  function Declares(decs: seq<Declaration>): (r: seq<Ast.Stmt>)
    ensures |r| == |decs| && forall i :: 0 <= i < |r| ==> r[i] == Ast.Declare(decs[i].op, decs[i].length, decs[i].init)
  {
    seq(|decs|, i requires 0 <= i < |decs| => Ast.Declare(decs[i].op, decs[i].length, decs[i].init))
  }

  /** What the initialiser means: the declarations of all globals in order, then a return. */
  function InitFunction(p: Program): GenEeyore.Function {
    GenEeyore.Function(false, INITIALIZER, 0, Ast.Block(Declares(p.globals) + [Ast.Return(None)]))
  }

  /** The source of function `k` of the generated program, the initialiser being function 0. */
  ghost function SourceOf(p: Program, k: nat): GenEeyore.Function
    requires k <= |p.funcs|
  {
    if k == 0 then InitFunction(p) else p.funcs[k - 1]
  }

  lemma {:induction false} GenBlockAppend(a: seq<Ast.Stmt>, x: Ast.Stmt, t: int, l: int)
    ensures var g := GenBlock(a, t, l, None, None);
            var h := GenStmt(x, g.temps, g.labels, None, None);
            GenBlock(a + [x], t, l, None, None) == GenS(g.code + h.code, g.decs + h.decs, h.temps, h.labels)
    decreases |a|
  {
    hide GenStmt;
    if a == [] {
      assert a + [x] == [x] && [x][1..] == [];
      var h := GenStmt(x, t, l, None, None);
      assert h.code + [] == h.code && h.decs + [] == h.decs && [] + h.code == h.code && [] + h.decs == h.decs;
    } else {
      var g0 := GenStmt(a[0], t, l, None, None);
      assert (a + [x])[1..] == a[1..] + [x];
      GenBlockAppend(a[1..], x, g0.temps, g0.labels);
      var g := GenBlock(a[1..], g0.temps, g0.labels, None, None);
      var h := GenStmt(x, g.temps, g.labels, None, None);
      assert g0.code + (g.code + h.code) == g0.code + g.code + h.code;
      assert g0.decs + (g.decs + h.decs) == g0.decs + g.decs + h.decs;
    }
  }

  lemma DeclareIs(d: Declaration, t: int, l: int)
    ensures GenStmt(Ast.Declare(d.op, d.length, d.init), t, l, None, None)
         == GenInit(d.op, d.length, d.init, t, l).(decs := [DeclarationCast(d.op, d.length)])
  {
    hide GenInit, DeclarationCast;
  }

  lemma DeclaresLast(decs: seq<Declaration>)
    requires decs != []
    ensures var d := decs[|decs| - 1]; Declares(decs) == Declares(decs[..|decs| - 1]) + [Ast.Declare(d.op, d.length, d.init)]
  {
  }

  lemma GlobalsLast(decs: seq<Declaration>)
    ensures GenGlobals([]) == GenS([], [], 0, 0)
    ensures decs != [] ==>
              var before, d := GenGlobals(decs[..|decs| - 1]), decs[|decs| - 1];
              var g := GenInit(d.op, d.length, d.init, before.temps, before.labels);
              GenGlobals(decs) == GenS(before.code + g.code, before.decs + [DeclarationCast(d.op, d.length)], g.temps, g.labels)
  {
    hide GenInit, DeclarationCast;
  }

  lemma NoBlock(t: int, l: int)
    ensures Declares([]) == [] && GenBlock([], t, l, None, None) == GenS([], [], t, l)
  {
  }

  lemma {:induction false} GlobalsAreBlock(decs: seq<Declaration>)
    ensures GenGlobals(decs) == GenBlock(Declares(decs), 0, 0, None, None)
  {
    hide *;
    GlobalsLast(decs);
    if decs == [] {
      NoBlock(0, 0);
    } else {
      var before, d := decs[..|decs| - 1], decs[|decs| - 1];
      GlobalsAreBlock(before);
      DeclaresLast(decs);
      GenBlockAppend(Declares(before), Ast.Declare(d.op, d.length, d.init), 0, 0);
      DeclareIs(d, GenGlobals(before).temps, GenGlobals(before).labels);
    }
  }

  /** The initialiser's code is that of a function with this body. */
  lemma InitializerIs(p: Program)
    ensures Initializer(GenGlobals(p.globals)).code == GenFunction(InitFunction(p), 0, 0).code
  {
    hide GenGlobals, GenBlock, TempDecs, Declares;
    GlobalsAreBlock(p.globals);
    GenBlockAppend(Declares(p.globals), Ast.Return(None), 0, 0);
    InitFunctionCode(p);
    var code := GenBlock(Declares(p.globals), 0, 0, None, None).code;
    assert [] + (code + [RetV]) + [] == code + [RetV];
  }

  lemma InitFunctionCode(p: Program)
    ensures var body := GenBlock(Declares(p.globals) + [Ast.Return(None)], 0, 0, None, None).code;
            GenFunction(InitFunction(p), 0, 0).code == [] + body + []
  {
    hide GenBlock, TempDecs, Declares;
  }
}
