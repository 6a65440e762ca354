/** Constant folding leaves every run exactly as it was, state by state. */
module ConstFoldCorrect {
  import opened Words
  import opened Wrappers
  import opened Primitive
  import opened Layout
  import opened Pinkie
  import opened ConstFold

  /** The literals agree with every temporary that has been written. */
  ghost predicate Sound(lits: map<int, Word>, env: map<Operand, Word>) {
    forall t :: t in lits && Temp(t) in env ==> env[Temp(t)] == lits[t]
  }

  ghost function Final(code: seq<Unit>): map<int, Word>
    requires Fold(code).Some?
  {
    AtDefined(code, |code|);
    At(code, |code|).lits
  }

  lemma LiteralizeValue(c: Context, env: map<Operand, Word>, counts: map<int, nat>, lits: map<int, Word>, o: Operand)
    requires ContextOk(c) && Sound(lits, env) && Value(c, env, o).Some?
    ensures Value(c, env, Literalize(counts, lits, o)) == Value(c, env, o)
  {
  }

  lemma SubstituteExec(code: seq<Unit>, c: Context, counts: map<int, nat>, lits: map<int, Word>, u: Unit, s: State)
    requires ContextOk(c) && Sound(lits, s.env)
    requires Exec(code, c, u, s).status != Stuck
    ensures Exec(code, c, Substitute(counts, lits, u), s) == Exec(code, c, u, s)
  {
    hide EvalUnary, EvalBinary, Wrap, IndexOf, AfterCall, Literalize, Value;
    forall o | Value(c, s.env, o).Some?
      ensures Value(c, s.env, Literalize(counts, lits, o)) == Value(c, s.env, o)
    {
      LiteralizeValue(c, s.env, counts, lits, o);
    }
  }

  lemma FoldedExec(code: seq<Unit>, c: Context, v: Unit, w: Word, s: State)
    requires LiteralCalc(v) == Literal(w)
    ensures Exec(code, c, FoldedUnit(v, w), s) == Exec(code, c, v, s)
  {
    hide EvalUnary, EvalBinary, ToOp, IndexOf;
    match v
    case Binary(op, _, Lit(x), Lit(y)) => ToOpAgrees(op, x, y);
    case JumpIf(op, _, Lit(x), Lit(y)) => ToOpAgrees(op, x, y);
    case _ =>
  }

  /** The unit the pass leaves at index `i`. */
  lemma FoldedAt(code: seq<Unit>, i: nat)
    requires i < |code| && Fold(code).Some?
    ensures |Fold(code).value| == |code| && At(code, i).Folding?
    ensures var v := Substitute(WriteCounts(code), At(code, i).lits, code[i]);
            && !LiteralCalc(v).Trap?
            && Fold(code).value[i] == if LiteralCalc(v).Literal? then FoldedUnit(v, LiteralCalc(v).word) else v
  {
    hide Substitute, LiteralCalc, FoldedUnit, Learn, WriteCounts;
    AtDefined(code, i);
    AtDefined(code, i + 1);
    AtNext(code, i);
    LiteralsGrow(code, i + 1, |code|);
    AtDefined(code, |code|);
    assert code[..|code|] == code;
    assert Fold(code).value[i] == At(code, i + 1).out[i];
  }

  lemma FoldKeepsLabels(code: seq<Unit>)
    requires Fold(code).Some?
    ensures |Fold(code).value| == |code|
    ensures forall l :: IndexOf(code, Label(l)) == IndexOf(Fold(code).value, Label(l))
  {
    hide Fold, At, WriteCounts, IndexOf;
    if |code| > 0 {
      FoldedAt(code, 0);
    } else {
      assert Fold(code).value == [] by { FoldEmpty(code); }
    }
    forall l ensures IndexOf(code, Label(l)) == IndexOf(Fold(code).value, Label(l)) {
      forall i | 0 <= i < |code| ensures code[i] == Label(l) <==> Fold(code).value[i] == Label(l) {
        FoldedAt(code, i);
      }
      IndexOfSame(code, Fold(code).value, Label(l));
    }
  }

  lemma FoldEmpty(code: seq<Unit>)
    requires code == []
    ensures Fold(code) == Some([])
  {
  }

  /** Each step of the folded code is the step of the original. */
  lemma StepSame(code: seq<Unit>, c: Context, s: State)
    requires ContextOk(c) && Fold(code).Some? && Sound(Final(code), s.env)
    requires Step(code, c, s).status != Stuck
    ensures Step(Fold(code).value, c, s) == Step(code, c, s)
  {
    FoldKeepsLabels(code);
    if s.status == Running && s.pc < |code| {
      hide Fold, At, WriteCounts, IndexOf, Exec, Substitute, LiteralCalc;
      var i := s.pc;
      FoldedAt(code, i);
      LiteralsGrow(code, i, |code|);
      var counts, lits := WriteCounts(code), At(code, i).lits;
      assert Extends(lits, Final(code));
      var v := Substitute(counts, lits, code[i]);
      SubstituteExec(code, c, counts, lits, code[i], s);
      if LiteralCalc(v).Literal? {
        FoldedExec(code, c, v, LiteralCalc(v).word, s);
      }
      ExecSameLabels(code, Fold(code).value, c, Fold(code).value[i], s);
    }
  }

  /** A step keeps the literals right: the only unit that writes a known temporary writes its literal. */
  lemma StepSound(code: seq<Unit>, c: Context, s: State)
    requires ContextOk(c) && Fold(code).Some? && Sound(Final(code), s.env)
    requires Step(code, c, s).status != Stuck
    ensures Sound(Final(code), Step(code, c, s).env)
  {
    StepSame(code, c, s);
    FoldKeepsLabels(code);
    if s.status == Running && s.pc < |code| {
      var e := Step(code, c, s).env;
      forall t | t in Final(code) && Temp(t) in e ensures e[Temp(t)] == Final(code)[t] {
        LiteralStays(code, c, s, t);
      }
    }
  }

  lemma LiteralStays(code: seq<Unit>, c: Context, s: State, t: int)
    requires ContextOk(c) && Fold(code).Some? && Sound(Final(code), s.env)
    requires s.status == Running && s.pc < |code| == |Fold(code).value|
    requires Step(code, c, s).status != Stuck && Step(Fold(code).value, c, s) == Step(code, c, s)
    requires t in Final(code) && Temp(t) in Step(code, c, s).env
    ensures Step(code, c, s).env[Temp(t)] == Final(code)[t]
  {
    hide WriteCounts, IndexOf, FoldPrefix;
    AtDefined(code, |code|);
    var k := LiteralOrigin(code, |code|, t);
    assert code[..|code|] == code;
    assert Fold(code).value[k] == Copy(Temp(t), Lit(Final(code)[t]));
    if Writes(code[s.pc], t) {
      WritesCounted(code, t, k, s.pc);
      assert Step(Fold(code).value, c, s) == Assign(c, s, Temp(t), Some(Final(code)[t]));
    } else {
      ExecFrame(code, c, code[s.pc], s, t);
    }
  }

  /** Any run of the original that does not get stuck is, at every step, the run of the folded code. */
  lemma {:induction false} FoldCorrect(code: seq<Unit>, c: Context, s: State, n: nat)
    requires ContextOk(c) && Fold(code).Some? && Entry(s)
    requires Run(code, c, s, n).status != Stuck
    ensures Run(Fold(code).value, c, s, n) == Run(code, c, s, n)
    ensures Sound(Final(code), Run(code, c, s, n).env)
  {
    hide Step, Fold, At, FoldPrefix;
    if n > 0 {
      NeverStuck(code, c, s, n - 1, n);
      FoldCorrect(code, c, s, n - 1);
      StepSame(code, c, Run(code, c, s, n - 1));
      StepSound(code, c, Run(code, c, s, n - 1));
    }
  }
}
