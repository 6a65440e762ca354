/** Constant evaluation at compile time, and its agreement with what generated code computes. */
module ConstEval {
  import opened Words
  import opened Wrappers
  import opened Primitive
  import opened SemanticTypes
  import opened Pinkie
  import opened Ast
  import opened ArrayAlign

  /** A constant declaration: its strides and the values memorised for its initialiser, sorted by offset
      with zeros left out for a global array, and in full for a local one. */
  datatype Const = Const(ty: SemanticType, values: seq<Entry>)

  datatype Entry = Entry(offset: int, value: Word)

  type Consts = map<Operand, Const>

  /** `eval_t`, or an exception: a missing name, the wrong kind of result, or a division the host cannot do. */
  datatype Result = Pure(word: Word) | Offset(name: Operand, pos: nat, offset: int) | Failed

  // ----- looking up an element -----

  ghost predicate Sorted(z: seq<Entry>) {
    forall i, j :: 0 <= i < j < |z| ==> z[i].offset < z[j].offset
  }

  /** The value at an offset: what the entry there holds, or zero. */
  ghost function ValueAt(z: seq<Entry>, off: int): Word {
    if exists k :: 0 <= k < |z| && z[k].offset == off then
      var k :| 0 <= k < |z| && z[k].offset == off;
      z[k].value
    else 0
  }

  lemma ValueAtIs(z: seq<Entry>, k: nat)
    requires Sorted(z) && k < |z|
    ensures ValueAt(z, z[k].offset) == z[k].value
  {
    var off := z[k].offset;
    assert forall j :: 0 <= j < |z| && z[j].offset == off ==> j == k;
  }

  /** `std::lower_bound`: the first entry that is not before `off`, found by halving. */
  method LowerBound(z: seq<Entry>, off: int) returns (first: nat)
    requires Sorted(z)
    ensures first <= |z|
    ensures forall k :: 0 <= k < first ==> z[k].offset < off
    ensures forall k :: first <= k < |z| ==> z[k].offset >= off
  {
    var count := |z|;
    first := 0;
    while count > 0
      invariant 0 <= count && first + count <= |z|
      invariant forall k :: 0 <= k < first ==> z[k].offset < off
      invariant forall k :: first + count <= k < |z| ==> z[k].offset >= off
    {
      var step := count / 2;
      if z[first + step].offset < off {
        first := first + step + 1;
        count := count - step - 1;
      } else {
        count := step;
      }
    }
  }

  /** The search of `clean_up` on sorted entries finds the value at the offset, dense or sparse. */
  method Search(z: seq<Entry>, off: int) returns (v: Word)
    requires Sorted(z)
    ensures v == ValueAt(z, off)
  {
    var it := LowerBound(z, off);
    if it == |z| || z[it].offset != off {
      return 0;
    }
    ValueAtIs(z, it);
    v := z[it].value;
  }

  /** Memorised values of an initialiser. */
  ghost predicate Memorises(z: seq<Entry>, list: seq<Alignment>, value: Expr -> Word) {
    |z| == |list| && forall k :: 0 <= k < |z| ==> z[k] == Entry(list[k].offset, value(list[k].exp))
  }

  /** A sparse initialiser and its zero-filled form read the same at every element, so constants need
      not be expanded; this holds of every initialiser that fits. */
  lemma SparseReadsDense(
    items: seq<Item>, ty: SemanticType, value: Expr -> Word, sparse: seq<Entry>, dense: seq<Entry>, off: int)
    requires |ty.offsets| == |ty.dimensions| && Nested(items, ty.offsets) && 0 <= off < ty.Length()
    requires Fits(items, ty.offsets, ty.Length()) && value(Literal(0)) == 0
    requires Memorises(sparse, Align(items, ty.offsets).list, value)
    requires Expand(Align(items, ty.offsets).list, ty.Length()).Some?
          && Memorises(dense, Expand(Align(items, ty.offsets).list, ty.Length()).value, value)
    ensures Sorted(sparse) && Sorted(dense)
    ensures ValueAt(sparse, off) == ValueAt(dense, off)
  {
    var list := Align(items, ty.offsets).list;
    AlignOrdered(items, ty.offsets, ty.Length());
    ExpandCorrect(items, ty);
    hide Align, Expand, Fits, Nested;
    ValueAtIs(dense, off);
    if exists k :: 0 <= k < |list| && list[k].offset == off {
      var k :| 0 <= k < |list| && list[k].offset == off;
      AtIs(list, k);
      ValueAtIs(sparse, k);
    }
  }

  // ----- evaluation -----

  ghost function CleanUp(ks: Consts, r: Result): Result {
    if r.Offset? && r.name in ks && r.pos == |ks[r.name].ty.offsets| then Pure(ValueAt(ks[r.name].values, r.offset)) else r
  }

  ghost function KEval(ks: Consts, e: Expr): Result {
    match e
    case Literal(v) => Pure(v)
    case Symbol(op, _) => if op in ks then CleanUp(ks, Offset(op, 0, 0)) else Failed
    case UnaryExpr(op, ch) =>
      (match KEval(ks, ch)
       case Pure(v) => Pure(EvalUnary(op, v))
       case _ => Failed)
    case BinaryExpr(op, ch0, ch1) =>
      (match KEval(ks, ch0)
       case Pure(v) =>
         if op == And && v == 0 then Pure(0)
         else if op == Or && v != 0 then Pure(1)
         else
           (match KEval(ks, ch1)
            case Pure(w) => (match ToOp(op, v, w) case Some(x) => Pure(x) case None => Failed)
            case _ => Failed)
       case _ => Failed)
    case OffsetExpr(arr, off) =>
      (match KEval(ks, off)
       case Pure(i) =>
         (match KEval(ks, arr)
          case Offset(d, pos, o) =>
            if d in ks && pos < |ks[d].ty.offsets| then CleanUp(ks, Offset(d, pos + 1, o + ks[d].ty.offsets[pos] * i)) else Failed
          case _ => Failed)
       case _ => Failed)
    case CallExpr(_, _, _) => Failed
  }

  ghost predicate AllSorted(ks: Consts) {
    forall op :: op in ks ==> Sorted(ks[op].values)
  }

  method CleanUpValue(ks: Consts, r: Result) returns (v: Result)
    requires AllSorted(ks)
    ensures v == CleanUp(ks, r)
  {
    v := r;
    if r.Offset? && r.name in ks && r.pos == |ks[r.name].ty.offsets| {
      var w := Search(ks[r.name].values, r.offset);
      v := Pure(w);
    }
  }

  /** `k_eval`. */
  method Evaluate(ks: Consts, e: Expr) returns (r: Result)
    requires AllSorted(ks)
    ensures r == KEval(ks, e)
    decreases e
  {
    hide AllSorted, ValueAt, EvalUnary, ToOp;
    match e {
      case Literal(v) => r := Pure(v);
      case Symbol(op, _) =>
        if op !in ks {
          return Failed;
        }
        r := CleanUpValue(ks, Offset(op, 0, 0));
      case UnaryExpr(op, ch) =>
        var v := Evaluate(ks, ch);
        r := if v.Pure? then Pure(EvalUnary(op, v.word)) else Failed;
      case BinaryExpr(op, ch0, ch1) =>
        var v := Evaluate(ks, ch0);
        if !v.Pure? {
          return Failed;
        }
        if op == And && v.word == 0 {
          return Pure(0);
        }
        if op == Or && v.word != 0 {
          return Pure(1);
        }
        var w := Evaluate(ks, ch1);
        if !w.Pure? {
          return Failed;
        }
        var x := ToOp(op, v.word, w.word);
        r := if x.Some? then Pure(x.value) else Failed;
      case OffsetExpr(arr, off) =>
        var i := Evaluate(ks, off);
        if !i.Pure? {
          return Failed;
        }
        var a := Evaluate(ks, arr);
        if !a.Offset? || a.name !in ks || a.pos >= |ks[a.name].ty.offsets| {
          return Failed;
        }
        r := CleanUpValue(ks, Offset(a.name, a.pos + 1, a.offset + ks[a.name].ty.offsets[a.pos] * i.word));
      case CallExpr(_, _, _) => r := Failed;
    }
  }

  /** The values of a constant's initialiser; none when it is missing or some part has no constant value. */
  ghost function Memorised(ks: Consts, init: seq<Alignment>): Option<seq<Entry>> {
    if init != [] && forall i :: 0 <= i < |init| ==> KEval(ks, init[i].exp).Pure? then
      Some(seq(|init|, i requires 0 <= i < |init| && KEval(ks, init[i].exp).Pure? => Entry(init[i].offset, KEval(ks, init[i].exp).word)))
    else None
  }

  method Memorise(ks: Consts, init: seq<Alignment>) returns (z: Option<seq<Entry>>)
    requires AllSorted(ks)
    ensures z == Memorised(ks, init)
    ensures z.Some? <==> init != [] && forall i :: 0 <= i < |init| ==> KEval(ks, init[i].exp).Pure?
    ensures z.Some? ==>
              |z.value| == |init|
              && forall i :: 0 <= i < |init| ==> z.value[i] == Entry(init[i].offset, KEval(ks, init[i].exp).word)
  {
    hide AllSorted, KEval;
    if init == [] {
      return None;
    }
    var done := [];
    for i := 0 to |init|
      invariant |done| == i
      invariant forall j :: 0 <= j < i ==>
                  KEval(ks, init[j].exp).Pure? && done[j] == Entry(init[j].offset, KEval(ks, init[j].exp).word)
    {
      var r := Evaluate(ks, init[i].exp);
      if !r.Pure? {
        return None;
      }
      done := done + [Entry(init[i].offset, r.word)];
    }
    z := Some(done);
    assert done == Memorised(ks, init).value;
  }

  // ----- agreement with run time -----

  ghost predicate ElementsHeld(c: Context, st: Store, op: Operand, k: Const) {
    op in c.arrays && |k.ty.offsets| == |k.ty.dimensions|
    && forall off :: 0 <= off < k.ty.Length() ==>
      Wrap(c.arrays[op] + 4 * off) in st.mem && st.mem[Wrap(c.arrays[op] + 4 * off)] == ValueAt(k.values, off)
  }

  /** The store holds every constant: scalars as variables, array elements in memory. */
  ghost predicate Held(c: Context, ks: Consts, st: Store) {
    forall op :: op in ks ==>
      && |ks[op].ty.offsets| == |ks[op].ty.dimensions|
      && (if ks[op].ty.IsArray() then op in c.arrays && ElementsHeld(c, st, op, ks[op])
          else Value(c, st.vars, op) == Some(ValueAt(ks[op].values, 0)))
  }

  /** Symbols carry the types of their constants and subscripts stay inside the arrays. */
  ghost predicate Bounded(ks: Consts, e: Expr) {
    match e
    case Symbol(op, ty) => op in ks ==> ty == ks[op].ty
    case UnaryExpr(_, ch) => Bounded(ks, ch)
    case BinaryExpr(_, ch0, ch1) => Bounded(ks, ch0) && Bounded(ks, ch1)
    case OffsetExpr(arr, off) =>
      && Bounded(ks, arr) && Bounded(ks, off)
      && (var a, i := KEval(ks, arr), KEval(ks, off);
          a.Offset? && i.Pure? && a.name in ks && a.pos + 1 == |ks[a.name].ty.offsets| == |ks[a.name].ty.dimensions| ==>
            0 <= a.offset + ks[a.name].ty.offsets[a.pos] * i.word < ks[a.name].ty.Length())
    case _ => true
  }

  /** What an evaluation result says about the run-time value. */
  ghost predicate Agrees(c: Context, ks: Consts, e: Expr, st: Store, r: Result) {
    match r
    case Pure(v) => Eval(c, e, st) == Val(v, st)
    case Offset(d, pos, off) =>
      && d in ks && ks[d].ty.IsArray() && pos < |ks[d].ty.offsets| == |ks[d].ty.dimensions|
      && ExprType(e) == SemanticType(ks[d].ty.dimensions[pos..], ks[d].ty.offsets[pos..])
      && d in c.arrays && Eval(c, e, st) == Val(Wrap(c.arrays[d] + 4 * off), st)
    case Failed => true
  }

  lemma SymbolAgrees(c: Context, ks: Consts, e: Expr, st: Store)
    requires e.Symbol? && ContextOk(c) && Held(c, ks, st) && Bounded(ks, e)
    requires forall op :: op in ks ==> op.Var?
    ensures Agrees(c, ks, e, st, KEval(ks, e))
  {
    var op := e.op;
    if op in ks {
      var ty := ks[op].ty;
      assert ty.dimensions[0..] == ty.dimensions && ty.offsets[0..] == ty.offsets;
    }
    hide ElementsHeld, ValueAt;
  }

  lemma ElementAgrees(base: Word, off: int, stride: int, i: Word)
    ensures ElementAddress(Wrap(base + 4 * off), stride, i) == Wrap(base + 4 * (off + stride * i))
  {
    WrapAdd(base + 4 * off, 4 * stride * i);
    assert base + 4 * off + 4 * stride * i == base + 4 * (off + stride * i);
  }

  lemma OffsetEval(c: Context, e: Expr, st: Store, base: Word, i: Word)
    requires e.OffsetExpr? && Eval(c, e.arr, st) == Val(base, st) && Eval(c, e.off, st) == Val(i, st)
    requires |ExprType(e.arr).offsets| > 0
    ensures var addr := ElementAddress(base, ExprType(e.arr).offsets[0], i);
            && (!IsScalar(e) ==> Eval(c, e, st) == Val(addr, st))
            && (IsScalar(e) && addr in st.mem ==> Eval(c, e, st) == Val(st.mem[addr], st))
  {
    hide ElementAddress, ExprType, IsScalar;
  }

  lemma OffsetTypes(e: Expr, ty: SemanticType, pos: nat)
    requires e.OffsetExpr? && |ty.offsets| == |ty.dimensions| && pos < |ty.offsets|
    requires ExprType(e.arr) == SemanticType(ty.dimensions[pos..], ty.offsets[pos..])
    ensures ExprType(e.arr).offsets[0] == ty.offsets[pos]
    ensures ExprType(e) == SemanticType(ty.dimensions[pos + 1..], ty.offsets[pos + 1..])
    ensures IsScalar(e) <==> pos + 1 == |ty.offsets|
  {
    assert ty.dimensions[pos..][1..] == ty.dimensions[pos + 1..] && ty.offsets[pos..][1..] == ty.offsets[pos + 1..];
  }

  lemma ElementHeld(c: Context, ks: Consts, st: Store, d: Operand, off: int)
    requires Held(c, ks, st) && d in ks && ks[d].ty.IsArray() && 0 <= off < ks[d].ty.Length()
    ensures d in c.arrays && Wrap(c.arrays[d] + 4 * off) in st.mem
    ensures st.mem[Wrap(c.arrays[d] + 4 * off)] == ValueAt(ks[d].values, off)
  {
    hide ValueAt, Wrap;
    assert ElementsHeld(c, st, d, ks[d]);
  }

  lemma OffsetAgrees(c: Context, ks: Consts, e: Expr, st: Store)
    requires e.OffsetExpr? && Held(c, ks, st) && Bounded(ks, e)
    requires Agrees(c, ks, e.arr, st, KEval(ks, e.arr)) && Agrees(c, ks, e.off, st, KEval(ks, e.off))
    ensures Agrees(c, ks, e, st, KEval(ks, e))
  {
    hide Eval, ExprType, ElementsHeld, ValueAt, IsScalar, Wrap, ElementAddress;
    var a, i := KEval(ks, e.arr), KEval(ks, e.off);
    if a.Offset? && i.Pure? {
      var ty, off := ks[a.name].ty, a.offset + ks[a.name].ty.offsets[a.pos] * i.word;
      OffsetTypes(e, ty, a.pos);
      OffsetEval(c, e, st, Wrap(c.arrays[a.name] + 4 * a.offset), i.word);
      ElementAgrees(c.arrays[a.name], a.offset, ty.offsets[a.pos], i.word);
      if a.pos + 1 == |ty.offsets| {
        ElementHeld(c, ks, st, a.name, off);
      }
    }
  }

  lemma BinaryAgrees(c: Context, ks: Consts, e: Expr, st: Store)
    requires e.BinaryExpr?
    requires Agrees(c, ks, e.ch0, st, KEval(ks, e.ch0)) && Agrees(c, ks, e.ch1, st, KEval(ks, e.ch1))
    ensures Agrees(c, ks, e, st, KEval(ks, e))
  {
    hide ExprType, Wrap, EvalBinary, ToOp, Found;
    var a, b := KEval(ks, e.ch0), KEval(ks, e.ch1);
    if a.Pure? && b.Pure? {
      ToOpAgrees(e.bop, a.word, b.word);
      FoundRightAway(c, e.ch0, st);
    }
  }

  /** A constant expression has at run time the value it was given at compile time, whatever array
      elements it reads, as long as its subscripts stay inside the arrays. */
  lemma {:induction false} ConstantsAgree(c: Context, ks: Consts, e: Expr, st: Store)
    requires ContextOk(c) && Held(c, ks, st) && Bounded(ks, e) && forall op :: op in ks ==> op.Var?
    ensures Agrees(c, ks, e, st, KEval(ks, e))
  {
    match e {
      case Literal(_) =>
      case Symbol(_, _) => SymbolAgrees(c, ks, e, st);
      case UnaryExpr(_, ch) => ConstantsAgree(c, ks, ch, st);
      case BinaryExpr(_, ch0, ch1) =>
        ConstantsAgree(c, ks, ch0, st);
        ConstantsAgree(c, ks, ch1, st);
        BinaryAgrees(c, ks, e, st);
      case OffsetExpr(arr, off) =>
        ConstantsAgree(c, ks, arr, st);
        ConstantsAgree(c, ks, off, st);
        OffsetAgrees(c, ks, e, st);
      case CallExpr(_, _, _) =>
    }
    hide Held, ContextOk, ValueAt;
  }

  // ----- the address of a nested subscript -----

  /** `op[i0][i1]...` */
  function Subscripts(op: Operand, ty: SemanticType, index: seq<Expr>): Expr {
    if index == [] then Symbol(op, ty) else OffsetExpr(Subscripts(op, ty, index[..|index| - 1]), index[|index| - 1])
  }

  lemma {:induction false} SubscriptsType(op: Operand, ty: SemanticType, index: seq<Expr>)
    requires |ty.offsets| == |ty.dimensions| && |index| <= |ty.offsets|
    ensures ExprType(Subscripts(op, ty, index)) == SemanticType(ty.dimensions[|index|..], ty.offsets[|index|..])
  {
    if index == [] {
      assert ty.dimensions[0..] == ty.dimensions && ty.offsets[0..] == ty.offsets;
    } else {
      var n := |index| - 1;
      SubscriptsType(op, ty, index[..n]);
      assert ty.dimensions[n..][1..] == ty.dimensions[n + 1..] && ty.offsets[n..][1..] == ty.offsets[n + 1..];
    }
  }

  lemma {:induction false} FlatOffsetSnoc(offsets: seq<int>, index: seq<int>)
    requires 0 < |index| <= |offsets|
    ensures FlatOffset(offsets, index)
         == FlatOffset(offsets, index[..|index| - 1]) + index[|index| - 1] * offsets[|index| - 1]
  {
    if |index| > 1 {
      FlatOffsetSnoc(offsets[1..], index[1..]);
      assert index[1..][..|index| - 2] == index[..|index| - 1][1..];
    } else {
      assert index[1..] == [] && index[..0] == [];
    }
  }

  ghost function Numbers(words: seq<Word>): (r: seq<int>)
    ensures |r| == |words| && forall i :: 0 <= i < |r| ==> r[i] == words[i]
  {
    seq(|words|, i requires 0 <= i < |words| => words[i])
  }

  /** Arguments evaluated up to the last, then the last. */
  lemma {:induction false} EvalArgsSnoc(c: Context, args: seq<Expr>, st: Store)
    requires args != [] && EvalArgs(c, args, st).ArgsVal?
    ensures var a := EvalArgs(c, args[..|args| - 1], st);
            && a.ArgsVal? && Eval(c, args[|args| - 1], a.st).Val?
            && EvalArgs(c, args, st).words == a.words + [Eval(c, args[|args| - 1], a.st).word]
            && EvalArgs(c, args, st).st == Eval(c, args[|args| - 1], a.st).st
            && |a.words| == |args| - 1
  {
    hide Eval;
    if |args| > 1 {
      EvalArgsSnoc(c, args[1..], Eval(c, args[0], st).st);
      assert args[1..][..|args| - 2] == args[..|args| - 1][1..];
    } else {
      assert args[..0] == [] && args[1..] == [];
    }
  }

  lemma SubscriptStep(c: Context, e: Expr, st: Store, base: Word, st0: Store, i: Word, st1: Store)
    requires e.OffsetExpr? && Eval(c, e.arr, st) == Val(base, st0) && Eval(c, e.off, st0) == Val(i, st1)
    requires |ExprType(e.arr).offsets| > 0
    ensures var addr := ElementAddress(base, ExprType(e.arr).offsets[0], i);
            Eval(c, e, st)
            == if !IsScalar(e) then Val(addr, st1) else if addr in st1.mem then Val(st1.mem[addr], st1) else Undef
  {
    hide ElementAddress, ExprType, IsScalar;
  }

  lemma SubscriptsLast(op: Operand, ty: SemanticType, index: seq<Expr>)
    requires index != []
    ensures Subscripts(op, ty, index) == OffsetExpr(Subscripts(op, ty, index[..|index| - 1]), index[|index| - 1])
  {
  }

  lemma NumbersLast(words: seq<Word>, w: Word)
    ensures Numbers(words + [w])[..|words|] == Numbers(words) && Numbers(words + [w])[|words|] == w
  {
  }

  /** The flat offset of evaluated subscripts. */
  ghost function FlatOf(ty: SemanticType, words: seq<Word>): int
    requires |words| <= |ty.offsets|
  {
    FlatOffset(ty.offsets, Numbers(words))
  }

  lemma FlatOfLast(ty: SemanticType, words: seq<Word>, w: Word)
    requires |words| < |ty.offsets|
    ensures FlatOf(ty, words + [w]) == FlatOf(ty, words) + ty.offsets[|words|] * w
  {
    FlatOffsetSnoc(ty.offsets, Numbers(words + [w]));
    NumbersLast(words, w);
  }

  /** Where nested subscripts lead: to the address base + 4 times their flat offset while they leave a
      sub-array, and to the word there once they name an element. */
  ghost function Subscripted(c: Context, op: Operand, ty: SemanticType, words: seq<Word>, st: Store): Ast.Result
    requires op in c.arrays && |words| <= |ty.offsets|
  {
    var addr := Wrap(c.arrays[op] + 4 * FlatOf(ty, words));
    if |words| < |ty.offsets| then Val(addr, st)
    else if addr in st.mem then Val(st.mem[addr], st)
    else Undef
  }

  /** Nested subscripts, evaluated from left to right, lead to base + 4 times their flat offset, and the
      constant evaluation of the same subscripts accumulates the very same offset. */
  lemma SubscriptAddress(c: Context, ks: Consts, op: Operand, ty: SemanticType, index: seq<Expr>, st: Store)
    requires ContextOk(c) && op in c.arrays && |ty.offsets| == |ty.dimensions| && 0 < |ty.offsets| && |index| <= |ty.offsets|
    requires EvalArgs(c, index, st).ArgsVal?
    ensures var a := EvalArgs(c, index, st);
            && |a.words| == |index|
            && Eval(c, Subscripts(op, ty, index), st) == Subscripted(c, op, ty, a.words, a.st)
            && (op in ks && ks[op].ty == ty && (forall i :: 0 <= i < |index| ==> KEval(ks, index[i]) == Pure(a.words[i])) ==>
                  KEval(ks, Subscripts(op, ty, index))
                  == if |index| < |ty.offsets| then Offset(op, |index|, FlatOf(ty, a.words))
                     else Pure(ValueAt(ks[op].values, FlatOf(ty, a.words))))
  {
    hide *;
    RunTimeAddress(c, op, ty, index, st);
    var words := EvalArgs(c, index, st).words;
    if op in ks && ks[op].ty == ty && forall i :: 0 <= i < |index| ==> KEval(ks, index[i]) == Pure(words[i]) {
      ConstantOffset(ks, op, index, words);
    }
  }

  lemma {:induction false} RunTimeAddress(c: Context, op: Operand, ty: SemanticType, index: seq<Expr>, st: Store)
    requires ContextOk(c) && op in c.arrays && |ty.offsets| == |ty.dimensions| && 0 < |ty.offsets| && |index| <= |ty.offsets|
    requires EvalArgs(c, index, st).ArgsVal?
    ensures var a := EvalArgs(c, index, st);
            |a.words| == |index| && Eval(c, Subscripts(op, ty, index), st) == Subscripted(c, op, ty, a.words, a.st)
    decreases |index|
  {
    hide *;
    if index == [] {
      EmptySubscripts(c, op, ty, st);
    } else {
      var n := |index| - 1;
      EvalArgsSnoc(c, index, st);
      RunTimeAddress(c, op, ty, index[..n], st);
      SubscriptsType(op, ty, index[..n]);
      SubscriptsLast(op, ty, index);
      var e, a := Subscripts(op, ty, index), EvalArgs(c, index[..n], st);
      SubscriptedIs(c, op, ty, a.words, a.st);
      OffsetTypes(e, ty, n);
      var i, off := Eval(c, index[n], a.st), FlatOf(ty, a.words);
      SubscriptStep(c, e, st, Wrap(c.arrays[op] + 4 * off), a.st, i.word, i.st);
      ElementAgrees(c.arrays[op], off, ty.offsets[n], i.word);
      FlatOfLast(ty, a.words, i.word);
      SubscriptedIs(c, op, ty, a.words + [i.word], i.st);
    }
  }

  lemma SubscriptedIs(c: Context, op: Operand, ty: SemanticType, words: seq<Word>, st: Store)
    requires op in c.arrays && |words| <= |ty.offsets|
    ensures var addr := Wrap(c.arrays[op] + 4 * FlatOf(ty, words));
            && (|words| < |ty.offsets| ==> Subscripted(c, op, ty, words, st) == Val(addr, st))
            && (|words| == |ty.offsets| ==>
                  Subscripted(c, op, ty, words, st) == if addr in st.mem then Val(st.mem[addr], st) else Undef)
  {
    hide FlatOf, Wrap;
  }

  /** What `k_eval` accumulates over nested constant subscripts. */
  lemma {:induction false} ConstantOffset(ks: Consts, op: Operand, index: seq<Expr>, words: seq<Word>)
    requires op in ks && 0 < |ks[op].ty.offsets| && |words| == |index| <= |ks[op].ty.offsets|
    requires forall i :: 0 <= i < |index| ==> KEval(ks, index[i]) == Pure(words[i])
    ensures var ty := ks[op].ty;
            KEval(ks, Subscripts(op, ty, index))
            == if |index| < |ty.offsets| then Offset(op, |index|, FlatOf(ty, words))
               else Pure(ValueAt(ks[op].values, FlatOf(ty, words)))
    decreases |index|
  {
    hide ValueAt, FlatOf, Subscripts;
    var ty := ks[op].ty;
    if index == [] {
      NoSubscripts(op, ty);
      assert words == [];
    } else {
      var n := |index| - 1;
      ConstantOffset(ks, op, index[..n], words[..n]);
      SubscriptsLast(op, ty, index);
      FlatOfLast(ty, words[..n], words[n]);
      assert words[..n] + [words[n]] == words;
    }
  }

  lemma NoSubscripts(op: Operand, ty: SemanticType)
    ensures Subscripts(op, ty, []) == Symbol(op, ty) && FlatOf(ty, []) == 0
  {
  }

  lemma EmptySubscripts(c: Context, op: Operand, ty: SemanticType, st: Store)
    requires ContextOk(c) && op in c.arrays && 0 < |ty.offsets|
    ensures EvalArgs(c, [], st) == ArgsVal([], st)
    ensures Eval(c, Subscripts(op, ty, []), st) == Subscripted(c, op, ty, [], st)
  {
  }
}
