/** Constant folding over arbitrarily jumping code: the first pass of the Pinkie optimiser. */
module ConstFold {
  import opened Words
  import opened Wrappers
  import opened Primitive
  import opened Layout
  import opened Pinkie

  // ----- the pass -----

  /** What `literal_calc` finds: no literal result, a literal, or a division the host cannot do. */
  datatype Calc = NoLiteral | Literal(word: Word) | Trap

  function LiteralCalc(u: Unit): Calc {
    match u
    case Unary(op, _, Lit(x)) => Literal(EvalUnary(op, x))
    case Copy(_, Lit(x)) => Literal(x)
    case Binary(op, _, Lit(x), Lit(y)) => FromHost(ToOp(op, x, y))
    case JumpIf(op, _, Lit(x), Lit(y)) => FromHost(ToOp(op, x, y))
    case _ => NoLiteral
  }

  function FromHost(v: Option<Word>): Calc {
    match v
    case None => Trap
    case Some(w) => Literal(w)
  }

  function Count(counts: map<int, nat>, t: int): nat {
    if t in counts then counts[t] else 0
  }

  /** `counts` with one more write for the destination of `u`, if that is a temporary. */
  function Bump(counts: map<int, nat>, u: Unit): map<int, nat> {
    if |WOps(u)| > 0 && WOps(u)[0].Temp?
    then counts[WOps(u)[0].id := Count(counts, WOps(u)[0].id) + 1]
    else counts
  }

  /** How many units write each temporary. */
  function WriteCounts(code: seq<Unit>): map<int, nat> {
    if code == [] then map[] else Bump(WriteCounts(code[..|code| - 1]), code[|code| - 1])
  }

  /** A temporary written once whose literal is known becomes that literal. */
  function Literalize(counts: map<int, nat>, lits: map<int, Word>, o: Operand): Operand {
    if o.Temp? && Count(counts, o.id) == 1 && o.id in lits then Lit(lits[o.id]) else o
  }

  function Substitute(counts: map<int, nat>, lits: map<int, Word>, u: Unit): Unit {
    MapOps(u, o => o, o => Literalize(counts, lits, o))
  }

  function FoldedUnit(v: Unit, w: Word): Unit
    requires LiteralCalc(v) == Literal(w)
  {
    if v.JumpIf? then (if w != 0 then Jump(v.id) else Nop) else Copy(v.dst, Lit(w))
  }

  function Learn(counts: map<int, nat>, lits: map<int, Word>, v: Unit, w: Word): map<int, Word>
    requires LiteralCalc(v) == Literal(w)
  {
    if !v.JumpIf? && v.dst.Temp? && Count(counts, v.dst.id) == 1 then lits[v.dst.id := w] else lits
  }

  datatype Folding = Trapped | Folding(out: seq<Unit>, lits: map<int, Word>)

  function FoldStep(counts: map<int, nat>, f: Folding, u: Unit): Folding {
    if f.Trapped? then f
    else
      var v := Substitute(counts, f.lits, u);
      match LiteralCalc(v)
      case Trap => Trapped
      case NoLiteral => Folding(f.out + [v], f.lits)
      case Literal(w) => Folding(f.out + [FoldedUnit(v, w)], Learn(counts, f.lits, v, w))
  }

  /** The pass after the units of `code`, given the write counts of the whole function. */
  function FoldPrefix(counts: map<int, nat>, code: seq<Unit>): Folding {
    if code == [] then Folding([], map[])
    else FoldStep(counts, FoldPrefix(counts, code[..|code| - 1]), code[|code| - 1])
  }

  function Fold(code: seq<Unit>): Option<seq<Unit>> {
    match FoldPrefix(WriteCounts(code), code)
    case Trapped => None
    case Folding(out, _) => Some(out)
  }

  function FoldFuncs(funcs: seq<Func>): Option<seq<Func>> {
    if funcs == [] then Some([])
    else
      match (FoldFuncs(funcs[..|funcs| - 1]), Fold(funcs[|funcs| - 1].code))
      case (Some(done), Some(code)) => Some(done + [funcs[|funcs| - 1].(code := code)])
      case _ => None
  }

  method FoldCode(code: seq<Unit>) returns (r: Option<seq<Unit>>)
    ensures r == Fold(code)
  {
    var counts: map<int, nat> := map[];
    for i := 0 to |code|
      invariant counts == WriteCounts(code[..i])
    {
      assert code[..i + 1][..i] == code[..i];
      for k := 0 to |WOps(code[i])|
        invariant counts == if k == 0 then WriteCounts(code[..i]) else WriteCounts(code[..i + 1])
      {
        var op := WOps(code[i])[k];
        if op.Temp? {
          counts := counts[op.id := Count(counts, op.id) + 1];
        }
      }
    }
    assert code[..|code|] == code;
    var lits: map<int, Word> := map[];
    var out := [];
    for i := 0 to |code|
      invariant |out| == i
      invariant FoldPrefix(counts, code[..i]) == Folding(out, lits)
    {
      assert code[..i + 1][..i] == code[..i];
      var c := Substitute(counts, lits, code[i]);
      match LiteralCalc(c) {
        case Trap =>
          TrapPersists(counts, code, i + 1);
          return None;
        case NoLiteral =>
        case Literal(v) =>
          if c.JumpIf? {
            c := if v != 0 then Jump(c.id) else Nop;
          } else {
            c := Copy(c.dst, Lit(v));
            if c.dst.Temp? && Count(counts, c.dst.id) == 1 {
              lits := lits[c.dst.id := v];
            }
          }
      }
      out := out + [c];
    }
    r := Some(out);
  }

  method FoldProg(prog: Prog) returns (r: Option<Prog>)
    ensures r == match FoldFuncs(prog.funcs)
                 case None => None
                 case Some(fs) => Some(prog.(funcs := fs))
  {
    var done := [];
    for i := 0 to |prog.funcs|
      invariant FoldFuncs(prog.funcs[..i]) == Some(done)
    {
      assert prog.funcs[..i + 1][..i] == prog.funcs[..i];
      var code := FoldCode(prog.funcs[i].code);
      if code.None? {
        FuncTrapPersists(prog.funcs, i + 1);
        return None;
      }
      done := done + [prog.funcs[i].(code := code.value)];
    }
    assert prog.funcs[..|prog.funcs|] == prog.funcs;
    r := Some(prog.(funcs := done));
  }

  lemma {:induction false} TrapPersists(counts: map<int, nat>, code: seq<Unit>, i: nat)
    requires i <= |code| && FoldPrefix(counts, code[..i]).Trapped?
    ensures FoldPrefix(counts, code).Trapped?
    decreases |code| - i
  {
    if i < |code| {
      assert code[..i + 1][..i] == code[..i];
      TrapPersists(counts, code, i + 1);
    } else {
      assert code[..i] == code;
    }
  }

  lemma {:induction false} FuncTrapPersists(funcs: seq<Func>, i: nat)
    requires i <= |funcs| && FoldFuncs(funcs[..i]).None?
    ensures FoldFuncs(funcs).None?
    decreases |funcs| - i
  {
    if i < |funcs| {
      assert funcs[..i + 1][..i] == funcs[..i];
      FuncTrapPersists(funcs, i + 1);
    } else {
      assert funcs[..i] == funcs;
    }
  }

  // ----- what the counts and the literals mean -----

  ghost predicate Writes(u: Unit, t: int) {
    Temp(t) in WOps(u)
  }

  /** Two different units that write a temporary are counted twice. */
  lemma {:induction false} WritesCounted(code: seq<Unit>, t: int, i: nat, j: nat)
    requires i < |code| && Writes(code[i], t)
    requires j < |code| && Writes(code[j], t)
    ensures Count(WriteCounts(code), t) >= 1
    ensures i != j ==> Count(WriteCounts(code), t) >= 2
  {
    var n := |code| - 1;
    if i < n && j < n {
      WritesCounted(code[..n], t, i, j);
    } else if i < n {
      WritesCounted(code[..n], t, i, i);
    } else if j < n {
      WritesCounted(code[..n], t, j, j);
    }
  }

  /** The folding of the first `i` units of `code`. */
  ghost function At(code: seq<Unit>, i: nat): Folding
    requires i <= |code|
  {
    FoldPrefix(WriteCounts(code), code[..i])
  }

  lemma AtNext(code: seq<Unit>, i: nat)
    requires i < |code|
    ensures At(code, i + 1) == FoldStep(WriteCounts(code), At(code, i), code[i])
  {
    assert code[..i + 1][..i] == code[..i];
  }

  lemma {:induction false} AtDefined(code: seq<Unit>, i: nat)
    requires i <= |code| && Fold(code).Some?
    ensures At(code, i).Folding? && |At(code, i).out| == i
    decreases i
  {
    if At(code, i).Trapped? {
      TrapPersists(WriteCounts(code), code, i);
    } else if i > 0 {
      AtNext(code, i - 1);
      AtDefined(code, i - 1);
    }
  }

  /** One unit is appended, and the only literal it can teach is of the temporary it alone writes. */
  lemma FoldStepEffect(counts: map<int, nat>, f: Folding, u: Unit)
    requires f.Folding? && FoldStep(counts, f, u).Folding?
    ensures var g := FoldStep(counts, f, u);
            && |g.out| == |f.out| + 1 && g.out[..|f.out|] == f.out
            && (g.lits == f.lits
                || exists t :: Taught(counts, f, u, g, t))
  {
    var g := FoldStep(counts, f, u);
    var v := Substitute(counts, f.lits, u);
    if LiteralCalc(v).Literal? && !v.JumpIf? && v.dst.Temp? && Count(counts, v.dst.id) == 1 {
      assert Taught(counts, f, u, g, v.dst.id);
    }
  }

  ghost predicate Taught(counts: map<int, nat>, f: Folding, u: Unit, g: Folding, t: int)
    requires f.Folding? && g.Folding? && |g.out| == |f.out| + 1
  {
    && t in g.lits && g.lits == f.lits[t := g.lits[t]]
    && Writes(u, t) && Count(counts, t) == 1
    && g.out[|f.out|] == Copy(Temp(t), Lit(g.lits[t]))
  }

  /** Every known literal was learnt from the one unit that writes its temporary. */
  lemma {:induction false} LiteralOrigin(code: seq<Unit>, i: nat, t: int) returns (k: nat)
    requires i <= |code| && Fold(code).Some?
    requires At(code, i).Folding? && t in At(code, i).lits
    ensures k < i <= |At(code, i).out| && Writes(code[k], t) && Count(WriteCounts(code), t) == 1
    ensures At(code, i).out[k] == Copy(Temp(t), Lit(At(code, i).lits[t]))
    decreases i
  {
    hide FoldStep, Fold, WriteCounts;
    assert i > 0;
    AtDefined(code, i - 1);
    AtDefined(code, i);
    AtNext(code, i - 1);
    hide At;
    var f, g := At(code, i - 1), At(code, i);
    FoldStepEffect(WriteCounts(code), f, code[i - 1]);
    if Taught(WriteCounts(code), f, code[i - 1], g, t) {
      k := i - 1;
    } else {
      assert t in f.lits && f.lits[t] == g.lits[t];
      k := LiteralOrigin(code, i - 1, t);
      assert g.out[k] == g.out[..|f.out|][k];
    }
  }

  ghost predicate Extends(a: map<int, Word>, b: map<int, Word>) {
    forall t :: t in a ==> t in b && b[t] == a[t]
  }

  /** Literals are never forgotten or changed, and earlier output is never touched again. */
  lemma {:induction false} LiteralsGrow(code: seq<Unit>, i: nat, j: nat)
    requires i <= j <= |code| && Fold(code).Some?
    ensures At(code, i).Folding? && At(code, j).Folding?
    ensures At(code, i).out <= At(code, j).out
    ensures Extends(At(code, i).lits, At(code, j).lits)
    decreases j - i
  {
    hide FoldStep, Fold, WriteCounts;
    AtDefined(code, i);
    if i < j {
      AtDefined(code, j - 1);
      AtDefined(code, j);
      AtNext(code, j - 1);
      LiteralsGrow(code, i, j - 1);
      hide At;
      var f, g := At(code, j - 1), At(code, j);
      FoldStepEffect(WriteCounts(code), f, code[j - 1]);
      if g.lits != f.lits {
        var t :| Taught(WriteCounts(code), f, code[j - 1], g, t);
        if t in f.lits {
          var k := LiteralOrigin(code, j - 1, t);
          WritesCounted(code, t, k, j - 1);
        }
      }
    }
  }
}
