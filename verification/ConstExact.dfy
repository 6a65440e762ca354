/** Which expressions are constant: exactly those whose names are constants and whose divisions the
    compiler can do get a value at compile time. */
module ConstExact {
  import opened Words
  import opened Wrappers
  import opened Primitive
  import opened SemanticTypes
  import opened Pinkie
  import opened Ast
  import opened ConstEval
  import FoldExact

  /** A name of a constant, an operation on scalars that are constant, or a subscript of something that is.
      Operands that a connective does not evaluate may be anything, and no division is undefined in C++.
      Operand values are those of run time. */
  ghost predicate Constant(c: Context, ks: Consts, e: Expr, st: Store) {
    match e
    case Literal(_) => true
    case Symbol(op, _) => op in ks
    case UnaryExpr(_, ch) => IsScalar(ch) && Constant(c, ks, ch, st)
    case BinaryExpr(op, ch0, ch1) =>
      && IsScalar(ch0) && Constant(c, ks, ch0, st)
      && (Decides(op, Eval(c, ch0, st)) || (
            && IsScalar(ch1) && Constant(c, ks, ch1, st)
            && Divisible(op, Eval(c, ch0, st), Eval(c, ch1, st))))
    case OffsetExpr(arr, off) =>
      !IsScalar(arr) && Constant(c, ks, arr, st) && IsScalar(off) && Constant(c, ks, off, st)
    case CallExpr(_, _, _) => false
  }

  /** The first operand decides the connective. */
  ghost predicate Decides(op: BinaryOp, r: Ast.Result) {
    r.Val? && ((op == And && r.word == 0) || (op == Or && r.word != 0))
  }

  ghost predicate Divisible(op: BinaryOp, r0: Ast.Result, r1: Ast.Result) {
    r0.Val? && r1.Val? ==> !FoldExact.HostUndefined(op, r0.word, r1.word)
  }

  /** What evaluation at compile time finds of it. */
  ghost predicate Found(c: Context, ks: Consts, e: Expr, st: Store) {
    && (KEval(ks, e).Pure? <==> Constant(c, ks, e, st) && IsScalar(e))
    && (KEval(ks, e).Offset? <==> Constant(c, ks, e, st) && !IsScalar(e))
  }

  /** The names of the constants, and where their values are. */
  ghost predicate Ready(c: Context, ks: Consts, st: Store) {
    ContextOk(c) && Held(c, ks, st) && forall op :: op in ks ==> op.Var?
  }

  lemma SymbolFound(c: Context, ks: Consts, e: Expr, st: Store)
    requires e.Symbol? && Ready(c, ks, st) && Bounded(ks, e)
    ensures Found(c, ks, e, st)
  {
    hide ElementsHeld, ValueAt, Value, ContextOk;
  }

  lemma UnaryFound(c: Context, ks: Consts, e: Expr, st: Store)
    requires e.UnaryExpr? && Found(c, ks, e.ch, st)
    ensures Found(c, ks, e, st)
  {
    hide EvalUnary;
  }

  lemma BinaryFound(c: Context, ks: Consts, e: Expr, st: Store)
    requires e.BinaryExpr? && Found(c, ks, e.ch0, st) && Found(c, ks, e.ch1, st)
    requires Agrees(c, ks, e.ch0, st, KEval(ks, e.ch0)) && Agrees(c, ks, e.ch1, st, KEval(ks, e.ch1))
    ensures Found(c, ks, e, st)
  {
    hide EvalBinary, ToOp, Eval;
    var a, b := KEval(ks, e.ch0), KEval(ks, e.ch1);
    if a.Pure? && b.Pure? {
      ToOpAgrees(e.bop, a.word, b.word);
    }
  }

  lemma OffsetFound(c: Context, ks: Consts, e: Expr, st: Store)
    requires e.OffsetExpr? && Found(c, ks, e.arr, st) && Found(c, ks, e.off, st)
    requires Agrees(c, ks, e.arr, st, KEval(ks, e.arr)) && Agrees(c, ks, e.off, st, KEval(ks, e.off))
    ensures Found(c, ks, e, st)
  {
    hide Eval, ExprType, ValueAt, IsScalar, Wrap;
    var a, i := KEval(ks, e.arr), KEval(ks, e.off);
    if a.Offset? && i.Pure? {
      OffsetTypes(e, ks[a.name].ty, a.pos);
    }
  }

  lemma {:induction false} FoundAll(c: Context, ks: Consts, e: Expr, st: Store)
    requires Ready(c, ks, st) && Bounded(ks, e)
    ensures Found(c, ks, e, st)
  {
    match e {
      case Literal(_) =>
      case Symbol(_, _) => SymbolFound(c, ks, e, st);
      case UnaryExpr(_, ch) =>
        FoundAll(c, ks, ch, st);
        UnaryFound(c, ks, e, st);
      case BinaryExpr(_, ch0, ch1) =>
        FoundAll(c, ks, ch0, st);
        FoundAll(c, ks, ch1, st);
        ConstantsAgree(c, ks, ch0, st);
        ConstantsAgree(c, ks, ch1, st);
        BinaryFound(c, ks, e, st);
      case OffsetExpr(arr, off) =>
        FoundAll(c, ks, arr, st);
        FoundAll(c, ks, off, st);
        ConstantsAgree(c, ks, arr, st);
        ConstantsAgree(c, ks, off, st);
        OffsetFound(c, ks, e, st);
      case CallExpr(_, _, _) =>
    }
    hide Held, ContextOk, ValueAt, Agrees;
  }

  /** A scalar expression gets a value at compile time exactly if it is constant, and then it is the value it
      has at run time. */
  lemma ConstantIff(c: Context, ks: Consts, e: Expr, st: Store)
    requires Ready(c, ks, st) && Bounded(ks, e) && IsScalar(e)
    ensures KEval(ks, e).Pure? <==> Constant(c, ks, e, st)
    ensures Constant(c, ks, e, st) ==> Eval(c, e, st) == Val(KEval(ks, e).word, st)
  {
    FoundAll(c, ks, e, st);
    ConstantsAgree(c, ks, e, st);
    hide Held, ContextOk, Eval, KEval, Bounded, IsScalar, Constant;
  }

  /** An initialiser is memorised exactly if there is one and all of it is constant, and then with the values
      its expressions have at run time. */
  lemma MemorisesIff(c: Context, ks: Consts, init: seq<Alignment>, st: Store)
    requires Ready(c, ks, st) && forall i :: 0 <= i < |init| ==> Bounded(ks, init[i].exp) && IsScalar(init[i].exp)
    ensures Memorised(ks, init).Some? <==> init != [] && forall i :: 0 <= i < |init| ==> Constant(c, ks, init[i].exp, st)
    ensures Memorised(ks, init).Some? ==>
              |Memorised(ks, init).value| == |init|
              && forall i :: 0 <= i < |init| ==>
                Memorised(ks, init).value[i].offset == init[i].offset
                && Eval(c, init[i].exp, st) == Val(Memorised(ks, init).value[i].value, st)
  {
    hide KEval, Ready, Bounded, IsScalar, Constant, Eval;
    forall i | 0 <= i < |init|
      ensures KEval(ks, init[i].exp).Pure? <==> Constant(c, ks, init[i].exp, st)
      ensures KEval(ks, init[i].exp).Pure? ==> Eval(c, init[i].exp, st) == Val(KEval(ks, init[i].exp).word, st)
    {
      ConstantIff(c, ks, init[i].exp, st);
    }
  }
}
