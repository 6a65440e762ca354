/** The compiler from end to end, as the main program runs it: what it emits for every function is the code
    that the theorems are about. */
module Driver {
  import opened Wrappers
  import P = Pinkie
  import GP = GenProgram
  import O = Optimize
  import FX = FoldExact
  import Frames
  import B = Backend
  import D = Dashie
  import Peephole
  import R = RiscvOutput
  import CS = CompileStatic
  import Declared
  import opened GenStatic
  import opened EndToEnd

  /** The data section and the functions, in order. */
  datatype Assembly = Assembly(globals: seq<D.Global>, funcs: seq<R.Function>)

  /** What the emitted program has to be: a data word or array for every global, in order and large enough, and
      for every function, the initialiser first, its name and its machine code. */
  ghost predicate Emitted(p: GP.Program, a: Assembly) {
    && |a.globals| == |p.globals|
    && (forall i :: 0 <= i < |p.globals| ==> a.globals[i].id == i && Declared.SizedFor(a.globals[i].length, p.globals[i].length))
    && |a.funcs| == |p.funcs| + 1
    && forall k :: 0 <= k < |a.funcs| ==>
         Encoded(p, k) && a.funcs[k].name == GP.SourceOf(p, k).name && a.funcs[k].code == MachineCode(p, k)
  }

  lemma GlobalsEmitted(p: GP.Program)
    ensures var gs := B.GlobalList(GP.Generate(p).globals);
            |gs| == |p.globals| && forall i :: 0 <= i < |gs| ==> gs[i].id == i && Declared.SizedFor(gs[i].length, p.globals[i].length)
  {
    hide GP.Generate, Declared.SizedFor;
    Declared.GlobalsDeclared(p.globals);
    Declared.GeneratedGlobals(p);
  }

  /** The register code that the back end returns for function `k` is the one that the theorems follow. */
  lemma RegisterCode(p: GP.Program, scs: seq<Scope>, k: nat)
    requires Compiles(p, scs, k) && B.ProgOk(O.OptimizeProg(GP.Generate(p)).value)
    ensures k <= |p.funcs| && Encoded(p, k) && |O.OptimizeProg(GP.Generate(p)).value.funcs| == |p.funcs| + 1
    ensures var src := O.OptimizeProg(GP.Generate(p)).value;
            && |B.CompileFuncs(src, |src.funcs|)| == |p.funcs| + 1
            && B.CompileFuncs(src, |src.funcs|)[k] == RegisterFunc(CS.EnvAt(p, k), PinkieFunc(p, k))
            && B.CompileFuncs(src, |src.funcs|)[k].name == GP.SourceOf(p, k).name
  {
    hide *;
    CompilesMeans(p, scs, k);
    EncodedIs(p, scs, k);
    EncodedMeans(p, k);
    CompiledCode(p, scs, k);
    PinkieFuncIs(p, k);
    CS.EnvAtIs(p, k);
    var src := O.OptimizeProg(GP.Generate(p)).value;
    B.CompiledAt(src, |src.funcs|, k);
    B.FuncIs(B.GlobalTable(src.globals), src.funcs[k], src.labelCount + k);
    Declared.OptimizedSignature(p, k, P.Symb(P.Var(0), 0));
    RegisterFuncParts(CS.EnvAt(p, k), PinkieFunc(p, k));
  }

  lemma RegisterFuncParts(env: B.Env, f: P.Func)
    requires B.ParamsKnown(env, f.arity) && B.CodeOk(env, f.code)
    ensures RegisterFunc(env, f) == D.Function(f.name, f.arity, Frames.FrameOf(f), B.FunctionCode(env, f.arity, f.code))
  {
    hide B.FunctionCode, Frames.FrameOf, B.ParamsKnown, B.CodeOk;
  }

  lemma ShortFuncParts(f: D.Function)
    ensures ShortFunc(f) == f.(code := Peephole.Optimized(f.code))
  {
    hide Peephole.Optimized;
  }

  lemma ConvertKeepsName(f: D.Function)
    requires R.CodeEncodable(f.code)
    ensures R.ConvertFunc(f).name == f.name
  {
    hide R.Legalise, R.Selected, Frames.StackSize;
  }

  lemma CompilesIs(p: GP.Program, scs: seq<Scope>, k: nat)
    requires CS.FuncFits(p, scs, k) && O.OptimizeProg(GP.Generate(p)).Some?
    ensures Compiles(p, scs, k)
  {
    hide CS.FuncFits, O.OptimizeProg, GP.Generate;
  }

  /** What the last passes make of it is its machine code. */
  lemma FunctionEmitted(p: GP.Program, scs: seq<Scope>, k: nat)
    requires CS.FuncFits(p, scs, k) && O.OptimizeProg(GP.Generate(p)).Some? && B.ProgOk(O.OptimizeProg(GP.Generate(p)).value)
    ensures k <= |p.funcs| && Encoded(p, k) && |O.OptimizeProg(GP.Generate(p)).value.funcs| == |p.funcs| + 1
    ensures var src := O.OptimizeProg(GP.Generate(p)).value;
            var done := B.CompileFuncs(src, |src.funcs|);
            && |done| == |p.funcs| + 1
            && var f := done[k].(code := Peephole.Optimized(done[k].code));
               R.CodeEncodable(f.code) && R.ConvertFunc(f).name == GP.SourceOf(p, k).name && R.ConvertFunc(f).code == MachineCode(p, k)
  {
    hide *;
    CompilesIs(p, scs, k);
    RegisterCode(p, scs, k);
    EncodedMeans(p, k);
    var src := O.OptimizeProg(GP.Generate(p)).value;
    var g := B.CompileFuncs(src, |src.funcs|)[k];
    ShortFuncParts(g);
    ConvertKeepsName(ShortFunc(g));
  }

  lemma FoldsIff(prog: P.Prog)
    ensures O.OptimizeProg(prog).None? <==>
              exists f, i: nat :: f in prog.funcs && i < |f.code| && FX.Undefined(FX.Filled(f.code, i))
  {
    hide FX.Undefined, FX.Filled, O.OptimizeProg;
    FX.OptimizesIff(prog);
    if O.OptimizeProg(prog).None? {
      var k, i :| 0 <= k < |prog.funcs| && 0 <= i < |prog.funcs[k].code| && FX.Undefined(FX.Filled(prog.funcs[k].code, i));
      assert prog.funcs[k] in prog.funcs;
    }
  }

  /** Runs all passes. There is no result exactly when some function folds a division that C++ leaves
      undefined; otherwise every function is compiled to its machine code. */
  method CompileSource(p: GP.Program, ghost scs: seq<Scope>) returns (r: Option<Assembly>)
    requires forall k :: 0 <= k <= |p.funcs| ==> CS.FuncFits(p, scs, k)
    ensures r.None? <==> exists f, i: nat :: f in GP.Generate(p).funcs && i < |f.code| && FX.Undefined(FX.Filled(f.code, i))
    ensures r.Some? ==> Emitted(p, r.value)
  {
    hide *;
    var prog := GP.GenerateEeyore(p);
    var opt := O.OptimizePinkie(prog);
    FoldsIff(prog);
    if opt.None? {
      return None;
    }
    CS.ProgramCompiles(p, scs);
    var src := opt.value;
    var compiler := new B.PinkieCompiler(src.labelCount);
    var dashie := compiler.Compile(src);
    var short := Peephole.OptimizeProgram(dashie);
    CS.OptimizedGlobals(prog);
    GP.GenerateLength(p);
    FunctionEmitted(p, scs, 0);
    var funcs: seq<R.Function> := [];
    for k := 0 to |short.funcs|
      invariant |funcs| == k
      invariant forall j :: 0 <= j < k ==> Encoded(p, j) && funcs[j].name == GP.SourceOf(p, j).name && funcs[j].code == MachineCode(p, j)
    {
      FunctionEmitted(p, scs, k);
      funcs := funcs + [R.ConvertFunc(short.funcs[k])];
    }
    r := Some(Assembly(short.globals, funcs));
    GlobalsEmitted(p);
    EmittedIs(p, r.value);
  }

  lemma EmittedIs(p: GP.Program, a: Assembly)
    requires |a.globals| == |p.globals| && |a.funcs| == |p.funcs| + 1
    requires forall i :: 0 <= i < |p.globals| ==> a.globals[i].id == i && Declared.SizedFor(a.globals[i].length, p.globals[i].length)
    requires forall k :: 0 <= k < |a.funcs| ==>
               Encoded(p, k) && a.funcs[k].name == GP.SourceOf(p, k).name && a.funcs[k].code == MachineCode(p, k)
    ensures Emitted(p, a)
  {
    hide Declared.SizedFor, Encoded, GP.SourceOf, MachineCode;
  }
}
