/** The Pinkie optimiser as a whole: fold, remove dead temporaries, renumber, normalise. */
module Optimize {
  import opened Words
  import opened Wrappers
  import opened Primitive
  import opened Layout
  import opened Pinkie
  import opened ConstFold
  import opened ConstFoldCorrect
  import opened DeadTemps
  import opened ClearTemps
  import opened FlipBinops

  /** The code of one function after all passes, given the renaming built by the functions before it. */
  function OptimizeCode(r: Renaming, code: seq<Unit>): seq<Unit>
    requires Fold(code).Some?
  {
    Flip(RenameCode(r, RemoveUnused(Fold(code).value)))
  }

  function OptimizeProg(prog: Prog): Option<Prog> {
    match FoldFuncs(prog.funcs)
    case None => None
    case Some(fs) => Some(prog.(funcs := FlipFuncs(ClearFuncs(START, RemoveFuncs(fs)))))
  }

  method OptimizePinkie(prog: Prog) returns (r: Option<Prog>)
    ensures r == OptimizeProg(prog)
  {
    var p := FoldProg(prog);
    if p.None? {
      return None;
    }
    var q := UnusedTempRemove(p.value);
    q := ClearTemp(q);
    q := FlipBinop(q);
    r := Some(q);
  }

  lemma FoldKeepsShape(code: seq<Unit>, i: nat)
    requires Fold(code).Some? && i < |code|
    ensures |Fold(code).value| == |code|
    ensures Fold(code).value[i].JumpIf? ==>
              code[i].JumpIf? && Fold(code).value[i].bop == code[i].bop && Fold(code).value[i].src2 == code[i].src2
              && !(Fold(code).value[i].src1.Lit? && code[i].src2.Lit?)
    ensures Fold(code).value[i].Unary? ==> !Fold(code).value[i].src.Lit?
  {
    hide WriteCounts, FoldPrefix, Literalize;
    FoldedAt(code, i);
    hide At, Fold;
  }

  lemma FoldKeepsJumps(code: seq<Unit>)
    requires Fold(code).Some? && JumpsCompareLiterals(code)
    ensures JumpsCompareLiterals(Fold(code).value)
  {
    hide Fold;
    FoldKeepsLabels(code);
    forall u | u in Fold(code).value && u.JumpIf? ensures u.src2.Lit? {
      var i :| 0 <= i < |code| && Fold(code).value[i] == u;
      FoldKeepsShape(code, i);
      assert code[i] in code;
    }
  }

  /** Every unit that survives removal is a unit that was kept. */
  lemma RemovedFrom(code: seq<Unit>, u: Unit)
    requires u in RemoveUnused(code)
    ensures u in code && !Dropped(UsedTemps(code), u)
  {
    hide Dropped, UsedTemps;
    var q :| 0 <= q < |RemoveUnused(code)| && RemoveUnused(code)[q] == u;
    var i, j := Locate(Blocks(code), q);
    assert code[i] in code;
  }

  lemma RemoveKeepsJumps(code: seq<Unit>)
    requires JumpsCompareLiterals(code)
    ensures JumpsCompareLiterals(RemoveUnused(code))
  {
    hide RemoveUnused;
    forall u | u in RemoveUnused(code) && u.JumpIf? ensures u.src2.Lit? {
      RemovedFrom(code, u);
    }
  }

  lemma ImageObserved(code: seq<Unit>, s: State)
    requires s.pc <= |code|
    ensures Observe(Image(code, s)) == Observe(s)
  {
    hide Start, Blocks, UsedTemps;
    var env := Live(code, s.env);
    assert (map o | o in env && !o.Temp? :: env[o]) == (map o | o in s.env && !o.Temp? :: s.env[o]);
  }

  lemma MatchObserved(ids: map<int, int>, s: State, s': State)
    requires Matches(ids, s, s')
    ensures Observe(s') == Observe(s)
  {
    forall o: Operand | !o.Temp? ensures (o in s.env <==> o in s'.env) && (o in s.env ==> s'.env[o] == s.env[o]) {
      assert Rename(ids, o) == o;
    }
    hide Renamed;
    assert (map o | o in s.env && !o.Temp? :: s.env[o]) == (map o | o in s'.env && !o.Temp? :: s'.env[o]);
  }

  /** Whatever a run of the original shows without getting stuck, a run of the optimised code shows,
      in no more steps. */
  lemma OptimizeCorrect(r: Renaming, code: seq<Unit>, c: Context, s: State, n: nat) returns (k: nat)
    requires ContextOk(c) && Entry(s) && Injective(r)
    requires Fold(code).Some? && JumpsCompareLiterals(code)
    requires Run(code, c, s, n).status != Stuck
    ensures k <= n && Observe(Run(OptimizeCode(r, code), c, s, k)) == Observe(Run(code, c, s, n))
  {
    hide Step, Run, Fold, RemoveUnused, RenameCode, Image, Matches, Observe, Injective, JumpsCompareLiterals;
    var folded := Fold(code).value;
    var short := RemoveUnused(folded);
    FoldKeepsJumps(code);
    RemoveKeepsJumps(folded);
    FoldCorrect(code, c, s, n);
    k := RemoveUnusedCorrect(folded, c, s, n);
    ImageObserved(folded, Run(folded, c, s, n));
    ImageStatus(folded, Run(folded, c, s, n));
    RenameCorrect(r, short, c, s, k);
    MatchObserved(MeetCode(r, short).ids, Run(short, c, s, k), Run(RenameCode(r, short), c, s, k));
    FlipCorrect(RenameCode(r, short), c, s, k);
  }

  lemma ImageStatus(code: seq<Unit>, s: State)
    requires s.pc <= |code|
    ensures Image(code, s).status == s.status
  {
  }

  /** Conversely, whatever the optimised code shows, the original shows, unless it gets stuck. */
  lemma OptimizeReflects(r: Renaming, code: seq<Unit>, c: Context, s: State, k: nat) returns (n: nat)
    requires ContextOk(c) && Entry(s) && Injective(r)
    requires Fold(code).Some? && JumpsCompareLiterals(code)
    ensures Run(code, c, s, n).status != Stuck ==>
              Observe(Run(OptimizeCode(r, code), c, s, k)) == Observe(Run(code, c, s, n))
  {
    hide Step, Run, Fold, RemoveUnused, RenameCode, Image, Matches, Observe, Injective, JumpsCompareLiterals;
    var folded := Fold(code).value;
    var short := RemoveUnused(folded);
    FoldKeepsJumps(code);
    RemoveKeepsJumps(folded);
    n := RemoveUnusedReflects(folded, c, s, k);
    if Run(code, c, s, n).status != Stuck {
      FoldCorrect(code, c, s, n);
      ImageObserved(folded, Run(folded, c, s, n));
      ImageStatus(folded, Run(folded, c, s, n));
      RenameCorrect(r, short, c, s, k);
      MatchObserved(MeetCode(r, short).ids, Run(short, c, s, k), Run(RenameCode(r, short), c, s, k));
      FlipCorrect(RenameCode(r, short), c, s, k);
    }
  }

  // ----- the shapes the back end asserts -----

  /** What the translation from Eeyore produces: jumps on a variable being zero, and no no-ops. */
  ghost predicate EeyoreShape(u: Unit) {
    && !u.Nop?
    && (u.JumpIf? ==> u.bop == EQ && u.src2 == Lit(0) && !u.src1.Lit?)
  }

  /** What code generation asserts of every unit. */
  ghost predicate BackendShape(u: Unit) {
    EeyoreShape(u) && (u.Unary? ==> !u.src.Lit?)
  }

  lemma RenameFlipShape(ids: map<int, int>, u: Unit)
    ensures BackendShape(FlipUnit(RenameUnit(ids, u))) <==> BackendShape(u)
  {
  }

  lemma FoldedShape(code: seq<Unit>, u: Unit)
    requires Fold(code).Some? && (forall v :: v in code ==> EeyoreShape(v))
    requires u in Fold(code).value && !u.Nop?
    ensures BackendShape(u)
  {
    hide Fold;
    FoldKeepsLabels(code);
    var i :| 0 <= i < |code| && Fold(code).value[i] == u;
    FoldKeepsShape(code, i);
    assert code[i] in code;
  }

  /** For every program translated from Eeyore, the optimiser discharges the assertions of code generation. */
  lemma OptimizedShape(r: Renaming, code: seq<Unit>, u: Unit)
    requires Fold(code).Some? && (forall v :: v in code ==> EeyoreShape(v))
    requires u in OptimizeCode(r, code)
    ensures BackendShape(u)
  {
    hide Fold, RemoveUnused, RenameCode, EeyoreShape, BackendShape, FlipUnit, RenameUnit;
    var folded := Fold(code).value;
    var short := RemoveUnused(folded);
    var named := RenameCode(r, short);
    var i :| 0 <= i < |named| && FlipUnit(named[i]) == u;
    RenameLength(r, short);
    RenameCodeIs(r, short, i);
    RemovedFrom(folded, short[i]);
    FoldedShape(code, short[i]);
    RenameFlipShape(MeetCode(r, short).ids, short[i]);
  }

  // ----- the program -----

  lemma {:induction false} FoldFuncsAt(funcs: seq<Func>, i: nat)
    requires FoldFuncs(funcs).Some? && i < |funcs|
    ensures |FoldFuncs(funcs).value| == |funcs| && Fold(funcs[i].code).Some?
    ensures FoldFuncs(funcs).value[i] == funcs[i].(code := Fold(funcs[i].code).value)
  {
    hide Fold;
    FoldFuncsLength(funcs);
    FoldFuncsLength(funcs[..|funcs| - 1]);
    if i < |funcs| - 1 {
      FoldFuncsAt(funcs[..|funcs| - 1], i);
    }
  }

  lemma {:induction false} FoldFuncsLength(funcs: seq<Func>)
    ensures FoldFuncs(funcs).Some? ==> |FoldFuncs(funcs).value| == |funcs|
  {
    hide Fold;
    if funcs != [] {
      FoldFuncsLength(funcs[..|funcs| - 1]);
    }
  }

  lemma {:induction false} ClearFuncsLength(r: Renaming, funcs: seq<Func>)
    ensures |ClearFuncs(r, funcs)| == |funcs|
  {
    hide ClearFunc, MeetFuncs;
    if funcs != [] {
      ClearFuncsLength(r, funcs[..|funcs| - 1]);
    }
  }

  lemma {:induction false} ClearFuncsAt(r: Renaming, funcs: seq<Func>, i: nat)
    requires Injective(r) && i < |funcs|
    ensures |ClearFuncs(r, funcs)| == |funcs|
    ensures ClearFuncs(r, funcs)[i] == ClearFunc(MeetFuncs(r, funcs[..i]), funcs[i])
    ensures Injective(MeetFuncs(r, funcs[..i]))
  {
    hide ClearFunc, MeetFuncs, Injective;
    ClearFuncsLength(r, funcs);
    ClearFuncsLength(r, funcs[..|funcs| - 1]);
    MeetFuncsInjective(r, funcs[..i]);
    if i < |funcs| - 1 {
      ClearFuncsAt(r, funcs[..|funcs| - 1], i);
      assert funcs[..|funcs| - 1][..i] == funcs[..i];
    }
  }

  lemma {:induction false} MeetFuncsInjective(r: Renaming, funcs: seq<Func>)
    requires Injective(r)
    ensures Injective(MeetFuncs(r, funcs))
  {
    hide Injective, MeetCode;
    if funcs != [] {
      MeetFuncsInjective(r, funcs[..|funcs| - 1]);
      MeetCodeGrows(MeetFuncs(r, funcs[..|funcs| - 1]), funcs[|funcs| - 1].code);
    }
  }

  lemma {:induction false} MeetFuncsOnto(r: Renaming, funcs: seq<Func>)
    requires Onto(r)
    ensures Onto(MeetFuncs(r, funcs))
  {
    hide Onto, MeetCode;
    if funcs != [] {
      MeetFuncsOnto(r, funcs[..|funcs| - 1]);
      MeetCodeOnto(MeetFuncs(r, funcs[..|funcs| - 1]), funcs[|funcs| - 1].code);
    }
  }

  /** Over the whole program, renaming is a bijection from temporaries to the numbers below the count. */
  lemma RenamingBijective(funcs: seq<Func>)
    ensures Injective(MeetFuncs(START, funcs)) && Onto(MeetFuncs(START, funcs))
  {
    MeetFuncsInjective(START, funcs);
    MeetFuncsOnto(START, funcs);
  }

  /** Each function of the optimised program is the original with `OptimizeCode` applied, under a
      one-to-one renaming; its name and arity are unchanged. */
  lemma OptimizedFunc(prog: Prog, i: nat) returns (r: Renaming)
    requires OptimizeProg(prog).Some? && i < |prog.funcs|
    ensures |OptimizeProg(prog).value.funcs| == |prog.funcs| && Fold(prog.funcs[i].code).Some? && Injective(r)
    ensures var f := OptimizeProg(prog).value.funcs[i];
            f.name == prog.funcs[i].name && f.arity == prog.funcs[i].arity
            && f.code == OptimizeCode(r, prog.funcs[i].code)
  {
    hide Fold, RemoveUnused, RenameCode, MeetCode, MeetFuncs;
    FoldFuncsAt(prog.funcs, i);
    var fs := RemoveFuncs(FoldFuncs(prog.funcs).value);
    ClearFuncsAt(START, fs, i);
    r := MeetFuncs(START, fs[..i]);
  }
}
