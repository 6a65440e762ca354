/** When constant folding succeeds and what it leaves of each unit, in terms of running the units. */
module FoldExact {
  import opened Words
  import opened Wrappers
  import opened Primitive
  import opened Layout
  import opened Pinkie
  import opened ConstFold
  import opened ConstFoldCorrect
  import opened Optimize

  // ----- what folding should do -----

  /** The divisions that C++ leaves undefined. */
  predicate HostUndefined(op: BinaryOp, x: Word, y: Word) {
    (op == Div || op == Mod) && (y == 0 || (x == MIN_WORD && y == -1))
  }

  predicate Undefined(u: Unit) {
    match u
    case Binary(op, _, Lit(x), Lit(y)) => HostUndefined(op, x, y)
    case JumpIf(op, _, Lit(x), Lit(y)) => HostUndefined(op, x, y)
    case _ => false
  }

  /** A unit whose operands are literals becomes the copy of what running it computes, and a conditional
      jump is taken or dropped. */
  function Simplified(u: Unit): Unit {
    match u
    case Unary(op, dst, Lit(x)) => Copy(dst, Lit(EvalUnary(op, x)))
    case Binary(op, dst, Lit(x), Lit(y)) => Copy(dst, Lit(EvalBinary(op, x, y)))
    case JumpIf(op, l, Lit(x), Lit(y)) => if EvalBinary(op, x, y) != 0 then Jump(l) else Nop
    case _ => u
  }

  /** Exactly one unit writes the temporary. */
  ghost predicate WrittenOnce(code: seq<Unit>, t: int) {
    exists i :: 0 <= i < |code| && Writes(code[i], t) && forall j :: 0 <= j < |code| && Writes(code[j], t) ==> j == i
  }

  /** `u` with the known literals in place of the temporaries it reads. */
  function PutIn(known: map<int, Word>, u: Unit): Unit {
    MapOps(u, o => o, (o: Operand) => if o.Temp? && o.id in known then Lit(known[o.id]) else o)
  }

  /** The temporaries known to be literals before unit `i`: those written once, by a unit that simplifies
      to the copy of a literal. */
  ghost function Known(code: seq<Unit>, i: nat): map<int, Word>
    requires i <= |code|
  {
    if i == 0 then map[]
    else
      var before := Known(code, i - 1);
      var v := Simplified(PutIn(before, code[i - 1]));
      if v.Copy? && v.src.Lit? && v.dst.Temp? && WrittenOnce(code, v.dst.id) then before[v.dst.id := v.src.word]
      else before
  }

  /** Unit `i` with what is known put in. */
  ghost function Filled(code: seq<Unit>, i: nat): Unit
    requires i < |code|
  {
    PutIn(Known(code, i), code[i])
  }

  // ----- the counts count -----

  lemma {:induction false} CountedWrites(code: seq<Unit>, t: int)
    ensures Count(WriteCounts(code), t) >= 1 ==> exists i :: 0 <= i < |code| && Writes(code[i], t)
    ensures Count(WriteCounts(code), t) >= 2 ==> exists i, j :: 0 <= i < j < |code| && Writes(code[i], t) && Writes(code[j], t)
  {
    if code != [] {
      var n := |code| - 1;
      CountedWrites(code[..n], t);
      if Count(WriteCounts(code), t) >= 2 && Writes(code[n], t) {
        var i :| 0 <= i < n && Writes(code[..n][i], t);
        assert Writes(code[i], t) && Writes(code[n], t);
      } else if Count(WriteCounts(code), t) >= 2 {
        var i, j :| 0 <= i < j < n && Writes(code[..n][i], t) && Writes(code[..n][j], t);
        assert Writes(code[i], t) && Writes(code[j], t);
      } else if Count(WriteCounts(code), t) >= 1 && !Writes(code[n], t) {
        var i :| 0 <= i < n && Writes(code[..n][i], t);
        assert Writes(code[i], t);
      }
    }
  }

  lemma CountOnce(code: seq<Unit>, t: int)
    ensures Count(WriteCounts(code), t) == 1 <==> WrittenOnce(code, t)
  {
    hide Count, WriteCounts, Writes;
    CountedWrites(code, t);
    if Count(WriteCounts(code), t) == 1 {
      var i :| 0 <= i < |code| && Writes(code[i], t);
      forall j | 0 <= j < |code| && Writes(code[j], t) ensures j == i {
        WritesCounted(code, t, i, j);
      }
    }
    if WrittenOnce(code, t) {
      var i :| 0 <= i < |code| && Writes(code[i], t) && forall j :: 0 <= j < |code| && Writes(code[j], t) ==> j == i;
      WritesCounted(code, t, i, i);
    }
  }

  // ----- one step -----

  lemma SubstituteIs(counts: map<int, nat>, lits: map<int, Word>, u: Unit)
    requires forall t :: t in lits ==> Count(counts, t) == 1
    ensures Substitute(counts, lits, u) == PutIn(lits, u)
  {
    hide Count;
  }

  /** What the pass makes of a unit once the literals are in. */
  lemma CalcIs(v: Unit)
    ensures LiteralCalc(v).Trap? <==> Undefined(v)
    ensures LiteralCalc(v).Literal? ==> FoldedUnit(v, LiteralCalc(v).word) == Simplified(v)
    ensures LiteralCalc(v).Literal? && !v.JumpIf? ==> Simplified(v) == Copy(v.dst, Lit(LiteralCalc(v).word))
    ensures LiteralCalc(v).Literal? && v.JumpIf? ==> !Simplified(v).Copy?
    ensures LiteralCalc(v).NoLiteral? ==> Simplified(v) == v && !(v.Copy? && v.src.Lit?)
  {
    match v {
      case Binary(op, _, Lit(x), Lit(y)) => ToOpAgrees(op, x, y);
      case JumpIf(op, _, Lit(x), Lit(y)) => ToOpAgrees(op, x, y);
      case _ =>
    }
    hide ToOp, EvalBinary, EvalUnary;
  }

  lemma StepIs(counts: map<int, nat>, f: Folding, u: Unit)
    requires f.Folding? && forall t :: t in f.lits ==> Count(counts, t) == 1
    ensures var v, g := PutIn(f.lits, u), FoldStep(counts, f, u);
            && (g.Trapped? <==> Undefined(v))
            && (g.Folding? ==>
                  && g.out == f.out + [Simplified(v)]
                  && g.lits == var w := Simplified(v);
                               if w.Copy? && w.src.Lit? && w.dst.Temp? && Count(counts, w.dst.id) == 1
                               then f.lits[w.dst.id := w.src.word] else f.lits)
  {
    var v := PutIn(f.lits, u);
    SubstituteIs(counts, f.lits, u);
    CalcIs(v);
    hide LiteralCalc, Undefined, Simplified, PutIn, Substitute, Count;
  }

  // ----- the whole pass -----

  lemma {:induction false} KnownOnce(code: seq<Unit>, i: nat, t: int)
    requires i <= |code| && t in Known(code, i)
    ensures WrittenOnce(code, t)
  {
    hide Simplified, PutIn, WrittenOnce;
    if i > 0 && t in Known(code, i - 1) {
      KnownOnce(code, i - 1, t);
    }
  }

  /** Up to unit `i` the pass has not failed exactly if no division so far was undefined, and then it knows
      the known literals and has simplified every unit. */
  lemma {:induction false} PrefixIs(code: seq<Unit>, i: nat)
    requires i <= |code|
    ensures At(code, i).Trapped? <==> exists j :: 0 <= j < i && Undefined(Filled(code, j))
    ensures At(code, i).Folding? ==>
              At(code, i).lits == Known(code, i) && |At(code, i).out| == i
              && forall j :: 0 <= j < i ==> At(code, i).out[j] == Simplified(Filled(code, j))
  {
    hide FoldStep, WriteCounts, Simplified, PutIn, Undefined, WrittenOnce, Count;
    if i == 0 {
      assert code[..0] == [];
    } else {
      PrefixIs(code, i - 1);
      AtNext(code, i - 1);
      var f := At(code, i - 1);
      if f.Trapped? {
        StaysTrapped(WriteCounts(code), f, code[i - 1]);
      } else {
        forall t | t in f.lits ensures Count(WriteCounts(code), t) == 1 {
          KnownOnce(code, i - 1, t);
          CountOnce(code, t);
        }
        StepIs(WriteCounts(code), f, code[i - 1]);
        var w := Simplified(Filled(code, i - 1));
        if w.Copy? && w.dst.Temp? {
          CountOnce(code, w.dst.id);
        }
      }
    }
  }

  lemma StaysTrapped(counts: map<int, nat>, f: Folding, u: Unit)
    requires f.Trapped?
    ensures FoldStep(counts, f, u) == f
  {
  }

  /** Folding fails exactly if some unit, with the literals known before it put in, divides literals in a
      way that C++ leaves undefined. Otherwise every unit whose operands are literals has become the copy
      of its value, every decided jump is taken or dropped, and all other units are as they were, with
      the known literals put in. */
  lemma FoldIs(code: seq<Unit>)
    ensures Fold(code).None? <==> exists i :: 0 <= i < |code| && Undefined(Filled(code, i))
    ensures Fold(code).Some? ==>
              |Fold(code).value| == |code| && forall i :: 0 <= i < |code| ==> Fold(code).value[i] == Simplified(Filled(code, i))
  {
    PrefixIs(code, |code|);
    assert code[..|code|] == code;
    hide FoldPrefix, WriteCounts, Simplified, PutIn, Undefined, Filled;
  }

  // ----- programs that always fold -----

  predicate Divides(u: Unit) {
    (u.Binary? || u.JumpIf?) && (u.bop == Div || u.bop == Mod)
  }

  predicate DivisionFree(code: seq<Unit>) {
    forall u :: u in code ==> !Divides(u)
  }

  lemma FilledDivides(known: map<int, Word>, u: Unit)
    requires Undefined(PutIn(known, u))
    ensures Divides(u)
  {
  }

  lemma DivisionFreeFolds(code: seq<Unit>)
    requires DivisionFree(code)
    ensures Fold(code).Some?
  {
    hide Fold, PutIn, Undefined, Known, Divides;
    FoldIs(code);
    if Fold(code).None? {
      var i :| 0 <= i < |code| && Undefined(Filled(code, i));
      assert code[i] in code;
      FilledDivides(Known(code, i), code[i]);
    }
  }

  lemma {:induction false} AllFold(funcs: seq<Func>)
    ensures FoldFuncs(funcs).Some? <==> forall i :: 0 <= i < |funcs| ==> Fold(funcs[i].code).Some?
  {
    hide Fold;
    if funcs != [] {
      AllFold(funcs[..|funcs| - 1]);
    }
  }

  /** The optimiser has a result exactly if no function folds an undefined division, and so for every
      program without divisions. */
  lemma OptimizesIff(prog: Prog)
    ensures OptimizeProg(prog).Some? <==>
              forall k, i :: 0 <= k < |prog.funcs| && 0 <= i < |prog.funcs[k].code| ==> !Undefined(Filled(prog.funcs[k].code, i))
    ensures (forall f :: f in prog.funcs ==> DivisionFree(f.code)) ==> OptimizeProg(prog).Some?
  {
    hide Fold, Undefined, Filled, DivisionFree;
    AllFold(prog.funcs);
    forall k | 0 <= k < |prog.funcs|
      ensures Fold(prog.funcs[k].code).Some? <==>
                forall i :: 0 <= i < |prog.funcs[k].code| ==> !Undefined(Filled(prog.funcs[k].code, i))
      ensures DivisionFree(prog.funcs[k].code) ==> Fold(prog.funcs[k].code).Some?
    {
      FoldIs(prog.funcs[k].code);
      if DivisionFree(prog.funcs[k].code) {
        DivisionFreeFolds(prog.funcs[k].code);
      }
    }
    OptimizesFolded(prog);
  }

  lemma OptimizesFolded(prog: Prog)
    ensures OptimizeProg(prog).Some? <==> FoldFuncs(prog.funcs).Some?
  {
  }
}
