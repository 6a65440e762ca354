/** Where generated code and the language part, and exactly when they agree. */
module Exactness {
  import opened Words
  import opened Wrappers
  import opened Primitive
  import opened Layout
  import opened SemanticTypes
  import opened Pinkie
  import Ast
  import opened Embedding
  import opened GenEeyore
  import opened GenExprCorrect
  import D = Dashie
  import Peephole
  import PC = PeepholeCorrect
  import RO = ReadingOrder

  // ----- the value of a connective -----

  /** `&&` leaves the word of its second operand as it is instead of making it 0 or 1: the code has the
      language's value exactly when the first operand is 0 or that word is 0 or 1 already. */
  lemma AndValueIff(code: seq<Unit>, c: Context, e: Expr, t: int, l: int, s: State, st: Store) returns (n: nat, w: Word)
    requires ExprReady(code, c, e, t, l, s, st) && e.BinaryExpr? && e.bop == And
    ensures Computes(code, c, e, t, l, s, st, n, w) && Ast.Eval(c, e.ch0, st).Val?
    ensures w == Ast.Eval(c, e, st).word <==> Ast.Eval(c, e.ch0, st).word == 0 || SecondWord(c, e, st) in {0, 1}
  {
    hide *;
    n, w := AndCorrect(code, c, e, t, l, s, st);
    ConnectiveEval(code, c, e, t, l, s, st);
    BitIs(SecondWord(c, e, st));
  }

  /** `||` gives 1 for a true first operand and the word of the second as it is otherwise. */
  lemma OrValueIff(code: seq<Unit>, c: Context, e: Expr, t: int, l: int, s: State, st: Store) returns (n: nat, w: Word)
    requires ExprReady(code, c, e, t, l, s, st) && e.BinaryExpr? && e.bop == Or
    ensures Computes(code, c, e, t, l, s, st, n, w) && Ast.Eval(c, e.ch0, st).Val?
    ensures w == Ast.Eval(c, e, st).word <==> Ast.Eval(c, e.ch0, st).word != 0 || SecondWord(c, e, st) in {0, 1}
  {
    hide *;
    n, w := OrCorrect(code, c, e, t, l, s, st);
    ConnectiveEval(code, c, e, t, l, s, st);
    BitIs(SecondWord(c, e, st));
  }

  lemma BitIs(v: Word)
    ensures Bit(v != 0) == v <==> v in {0, 1}
  {
  }

  /** The word of a condition is as true as its value. */
  lemma {:induction false} CodeWordTruth(c: Context, e: Expr, st: Store)
    requires Ast.Eval(c, e, st).Val?
    ensures Ast.CodeWord(c, e, st) != 0 <==> Ast.Eval(c, e, st).word != 0
  {
    hide Ast.Found;
    if e.BinaryExpr? && Ast.Logical(e.bop) {
      var r := Ast.Eval(c, e.ch0, st);
      if !(e.bop == And && r.word == 0) && !(e.bop == Or && r.word != 0) {
        CodeWordTruth(c, e.ch1, r.st);
      }
    }
  }

  /** What the language says of a connective. */
  lemma ConnectiveEval(code: seq<Unit>, c: Context, e: Expr, t: int, l: int, s: State, st: Store)
    requires ExprReady(code, c, e, t, l, s, st) && e.BinaryExpr? && (e.bop == And || e.bop == Or)
    ensures Ast.Eval(c, e.ch0, st).Val?
    ensures var v := Ast.Eval(c, e.ch0, st).word;
            Ast.Eval(c, e, st).word
            == if e.bop == And then (if v == 0 then 0 else Bit(SecondWord(c, e, st) != 0))
               else if v != 0 then 1 else Bit(SecondWord(c, e, st) != 0)
  {
    ExprReadyMeans(code, c, e, t, l, s, st);
    hide Ast.Found, GenExpr, Ready, ExprReady, Ast.CodeWord;
    var r0 := Ast.Eval(c, e.ch0, st);
    if Ast.Eval(c, e.ch1, r0.st).Val? {
      CodeWordTruth(c, e.ch1, r0.st);
    }
  }

  /** `2 && 3` is 1 in the language, and the generated code computes 3. */
  lemma TwoAndThree(code: seq<Unit>, c: Context, t: int, l: int, s: State, st: Store) returns (n: nat)
    requires Ready(code, c, GenExpr(TWO_AND_THREE, t, l).code, s, st)
    ensures Ast.Eval(c, TWO_AND_THREE, st) == Ast.Val(1, st)
    ensures Run(code, c, s, n).pc == s.pc + |GenExpr(TWO_AND_THREE, t, l).code|
    ensures Value(c, Run(code, c, s, n).env, GenExpr(TWO_AND_THREE, t, l).result) == Some(3)
  {
    TwoAndThreeFacts(c, st);
    hide GenExpr, Ready, Ast.Eval, Run, Represents, KeepsTemps, Value, Ast.CodeWord;
    var w;
    n, w := AndCorrect(code, c, TWO_AND_THREE, t, l, s, st);
  }

  const TWO_AND_THREE: Expr := Ast.BinaryExpr(And, Ast.Literal(2), Ast.Literal(3))

  lemma TwoAndThreeFacts(c: Context, st: Store)
    ensures Ast.ExprOk(c, TWO_AND_THREE) && Ast.Condition(TWO_AND_THREE)
    ensures Ast.Eval(c, TWO_AND_THREE, st) == Ast.Val(1, st)
    ensures Ast.Eval(c, Ast.Literal(2), st) == Ast.Val(2, st) && SecondWord(c, TWO_AND_THREE, st) == 3
  {
  }

  // ----- a global read before a call -----

  const G := Var(0)
  const LATE_CALL: Expr := Ast.CallExpr(Ast.IntCall, "f", [])
  const LATE_SUM: Expr := Ast.BinaryExpr(Plus, Ast.Symbol(G, SCALAR), LATE_CALL)

  /** `g + f()` for a function that sets `g` to 1 and returns 0: with `g` at 0 it is 0 from left to right
      and 1 in the generated code. */
  lemma LateSumDiffers() returns (c: Context, st: Store)
    ensures ContextOk(c) && Ast.ExprOk(c, LATE_SUM) && Ast.Arith(LATE_SUM)
    ensures Ast.Eval(c, LATE_SUM, st, Ast.AtOnce).Val? && Ast.Eval(c, LATE_SUM, st, Ast.AtOnce).word == 0
    ensures Ast.Eval(c, LATE_SUM, st, Ast.AtUse).Val? && Ast.Eval(c, LATE_SUM, st, Ast.AtUse).word == 1
    ensures !RO.Harmless(c, LATE_SUM, st)
  {
    hide RO.Harmless, Ast.CallStore, Ast.CallWord, Ast.EvalArgs, EvalUnary;
    var set1 := (trace: seq<Event>) => Effect(0, map[G := 1 as Word], map[]);
    c, st := Context(map[], {G}, (name: string) => 0, set1), Ast.Store(map[G := 0 as Word], map[], []);
    LateCallSets(c, st, Ast.AtOnce);
    LateCallSets(c, st, Ast.AtUse);
    if RO.Harmless(c, LATE_SUM, st) {
      RO.OrdersAgree(c, LATE_SUM, st);
    }
  }

  lemma LateCallSets(c: Context, st: Store, ord: Ast.Reading)
    requires c.globals == {G} && G in st.vars && c.arity("f") == 0
    requires forall trace :: c.world(trace) == Effect(0, map[G := 1 as Word], map[])
    ensures var r := Ast.Eval(c, LATE_CALL, st, ord);
            r.Val? && r.word == 0 && G in r.st.vars && r.st.vars[G] == 1
  {
    hide CallEvent;
    assert Ast.EvalArgs(c, [], st, ord) == Ast.ArgsVal([], st);
  }

  // ----- a load into the zero register -----

  const ZERO_LOAD: seq<D.Unit> := [D.Rstk(D.Zero, 4), D.Rstk(D.Temp(1), 4), D.Ret]

  /** The slot tracker takes a load into the zero register for a copy of the slot: the next load from it
      becomes a copy of zero. This is why no unit may have the zero register as its destination. */
  lemma ZeroLoadBreaks(c: D.Context, s: D.State)
    requires s.pc == 0 && s.status == D.Running && 4 in s.frame && s.frame[4] == 7
    ensures Peephole.Rewrite(Peephole.Slot, ZERO_LOAD) == [D.Rstk(D.Zero, 4), D.Cr(D.Temp(1), D.Zero), D.Ret]
    ensures D.Read(D.Run(ZERO_LOAD, c, s, 2), D.Temp(1)) == Some(7)
    ensures D.Read(D.Run(Peephole.Rewrite(Peephole.Slot, ZERO_LOAD), c, s, 2), D.Temp(1)) == Some(0)
  {
    ZeroLoadBlocks();
    var after := [D.Rstk(D.Zero, 4), D.Cr(D.Temp(1), D.Zero), D.Ret];
    assert D.Run(ZERO_LOAD, c, s, 0) == s && D.Run(after, c, s, 0) == s;
    D.OneMore(ZERO_LOAD, c, s, 0, D.Rstk(D.Zero, 4));
    D.OneMore(after, c, s, 0, D.Rstk(D.Zero, 4));
    D.OneMore(ZERO_LOAD, c, s, 1, D.Rstk(D.Temp(1), 4));
    D.OneMore(after, c, s, 1, D.Cr(D.Temp(1), D.Zero));
    hide D.Run, Peephole.Rewrite;
  }

  lemma ZeroLoadBlocks()
    ensures Peephole.Rewrite(Peephole.Slot, ZERO_LOAD) == [D.Rstk(D.Zero, 4), D.Cr(D.Temp(1), D.Zero), D.Ret]
  {
    var code, pass := ZERO_LOAD, Peephole.Slot;
    var blocks := Peephole.Blocks(pass, code);
    assert Peephole.AliasAt(pass, code, 0) == map[];
    assert Peephole.AliasAt(pass, code, 1) == map[D.Zero := 4];
    Peephole.FirstAliasNone(map[], 4);
    assert Peephole.IsFirst(map[D.Zero := 4], 4, D.Zero);
    Peephole.FirstAliasIs(map[D.Zero := 4], 4, D.Zero);
    assert blocks == [[D.Rstk(D.Zero, 4)], [D.Cr(D.Temp(1), D.Zero)], [D.Ret]];
    Peephole.FlattenUnits(blocks, [D.Rstk(D.Zero, 4), D.Cr(D.Temp(1), D.Zero), D.Ret]);
  }
}
