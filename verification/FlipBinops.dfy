/** Normalisation of binary operators: literals move to the right, and subtracting one becomes adding. */
module FlipBinops {
  import opened Words
  import opened Wrappers
  import opened Primitive
  import opened Layout
  import opened Pinkie

  function FlipUnit(u: Unit): Unit {
    match u
    case Binary(Plus, dst, Lit(x), src2) => Binary(Plus, dst, src2, Lit(x))
    case Binary(Mult, dst, Lit(x), src2) => Binary(Mult, dst, src2, Lit(x))
    case Binary(Minus, dst, src1, Lit(x)) => Binary(Plus, dst, src1, Lit(Wrap(0 - x)))
    case _ => u
  }

  function Flip(code: seq<Unit>): (r: seq<Unit>)
    ensures |r| == |code|
    ensures forall i :: 0 <= i < |r| ==> r[i] == FlipUnit(code[i])
  {
    seq(|code|, i requires 0 <= i < |code| => FlipUnit(code[i]))
  }

  function FlipFuncs(funcs: seq<Func>): (r: seq<Func>)
    ensures |r| == |funcs|
    ensures forall i :: 0 <= i < |r| ==> r[i] == funcs[i].(code := Flip(funcs[i].code))
  {
    seq(|funcs|, i requires 0 <= i < |funcs| => funcs[i].(code := Flip(funcs[i].code)))
  }

  /** One function's units are overwritten in place. */
  method FlipCode(code0: seq<Unit>) returns (code: seq<Unit>)
    ensures code == Flip(code0)
  {
    code := code0;
    for i := 0 to |code|
      invariant |code| == |code0|
      invariant forall k :: 0 <= k < |code| ==> code[k] == if k < i then FlipUnit(code0[k]) else code0[k]
    {
      var c := code[i];
      if c.Binary? {
        match c.bop {
          case Plus =>
            if c.src1.Lit? {
              code := code[i := Binary(c.bop, c.dst, c.src2, c.src1)];
            }
          case Mult =>
            if c.src1.Lit? {
              code := code[i := Binary(c.bop, c.dst, c.src2, c.src1)];
            }
          case Minus =>
            if c.src2.Lit? {
              code := code[i := Binary(Plus, c.dst, c.src1, Lit(Wrap(0 - c.src2.word)))];
            }
          case _ =>
        }
      }
    }
    assert code == Flip(code0);
  }

  method FlipBinop(prog: Prog) returns (r: Prog)
    ensures r == prog.(funcs := FlipFuncs(prog.funcs))
  {
    var funcs := prog.funcs;
    for i := 0 to |funcs|
      invariant |funcs| == |prog.funcs|
      invariant forall k :: 0 <= k < |funcs| ==> funcs[k] == if k < i then FlipFuncs(prog.funcs)[k] else prog.funcs[k]
    {
      var code := FlipCode(funcs[i].code);
      funcs := funcs[i := funcs[i].(code := code)];
    }
    assert funcs == FlipFuncs(prog.funcs);
    r := prog.(funcs := funcs);
  }

  /** Flipping never changes what a unit does, whatever the state and however large the literal. */
  lemma FlipExec(code: seq<Unit>, c: Context, u: Unit, s: State)
    ensures Exec(code, c, FlipUnit(u), s) == Exec(code, c, u, s)
  {
    hide Assign;
    match u
    case Binary(Minus, dst, src1, Lit(x)) =>
      if Value(c, s.env, src1).Some? {
        MinusIsPlusNegated(Value(c, s.env, src1).value, x);
      }
      hide EvalBinary;
    case _ =>
  }

  lemma FlipStep(code: seq<Unit>, c: Context, s: State)
    ensures Step(Flip(code), c, s) == Step(code, c, s)
  {
    hide Exec;
    if s.status == Running && s.pc < |code| {
      forall l ensures IndexOf(code, Label(l)) == IndexOf(Flip(code), Label(l)) {
        IndexOfSame(code, Flip(code), Label(l));
      }
      FlipExec(code, c, code[s.pc], s);
      ExecSameLabels(code, Flip(code), c, FlipUnit(code[s.pc]), s);
    }
  }

  /** The flipped code runs through exactly the states of the original. */
  lemma {:induction false} FlipCorrect(code: seq<Unit>, c: Context, s: State, n: nat)
    ensures Run(Flip(code), c, s, n) == Run(code, c, s, n)
  {
    hide Step;
    if n > 0 {
      FlipCorrect(code, c, s, n - 1);
      FlipStep(code, c, Run(code, c, s, n - 1));
    }
  }
}
