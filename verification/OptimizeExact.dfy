/** What the Pinkie optimiser achieves: which units go, which stay, and what operands are left. */
module OptimizeExact {
  import opened Words
  import opened Wrappers
  import opened Primitive
  import opened Layout
  import opened Pinkie
  import opened ConstFold
  import opened DeadTemps
  import opened ClearTemps
  import opened FlipBinops
  import opened Optimize
  import FX = FoldExact

  // ----- dead temporaries -----

  /** Something reads the temporary; the base of an array write and the result of a call count as read. */
  ghost predicate ReadBy(u: Unit, t: int) {
    match u
    case Unary(_, _, src) => src == Temp(t)
    case Binary(_, _, src1, src2) => src1 == Temp(t) || src2 == Temp(t)
    case Copy(_, src) => src == Temp(t)
    case ArrayWrite(base, src, incr) => base == Temp(t) || src == Temp(t) || incr == Temp(t)
    case ArrayRead(_, base, incr) => base == Temp(t) || incr == Temp(t)
    case JumpIf(_, _, src1, _) => src1 == Temp(t)
    case Arg(val) => val == Temp(t)
    case RetI(val) => val == Temp(t)
    case CallI(_, dst) => dst == Temp(t)
    case _ => false
  }

  ghost predicate NeverRead(code: seq<Unit>, o: Operand) {
    o.Temp? && forall v :: v in code ==> !ReadBy(v, o.id)
  }

  /** A no-op, or a computation into a temporary that nothing reads. */
  ghost predicate Useless(code: seq<Unit>, u: Unit) {
    u.Nop? || ((u.Unary? || u.Binary? || u.Copy? || u.ArrayRead?) && NeverRead(code, u.dst))
  }

  /** The first `i` units without the useless ones. */
  ghost function Useful(code: seq<Unit>, i: nat): seq<Unit>
    requires i <= |code|
  {
    if i == 0 then [] else Useful(code, i - 1) + if Useless(code, code[i - 1]) then [] else [code[i - 1]]
  }

  lemma ReadIs(u: Unit, t: int)
    ensures ReadBy(u, t) <==> t in TempIds(HrOps(u))
  {
    assert t in TempIds(HrOps(u)) <==> Temp(t) in HrOps(u);
  }

  lemma {:induction false} UsedIs(code: seq<Unit>, t: int)
    ensures t in UsedTemps(code) <==> exists v :: v in code && ReadBy(v, t)
  {
    hide ReadBy, TempIds, HrOps;
    if code != [] {
      var n := |code| - 1;
      UsedIs(code[..n], t);
      ReadIs(code[n], t);
      assert code == code[..n] + [code[n]];
    }
  }

  lemma DroppedIs(code: seq<Unit>, u: Unit)
    ensures Dropped(UsedTemps(code), u) <==> Useless(code, u)
  {
    hide UsedTemps, ReadBy;
    if |WOps(u)| > 0 && WOps(u)[0].Temp? {
      UsedIs(code, WOps(u)[0].id);
    }
  }

  lemma {:induction false} UsefulPrefix(code: seq<Unit>, i: nat)
    requires i <= |code|
    ensures Flatten(DeadTemps.Blocks(code)[..i]) == Useful(code, i)
  {
    hide UsedTemps, Dropped, Useless;
    if i > 0 {
      UsefulPrefix(code, i - 1);
      DroppedIs(code, code[i - 1]);
      assert DeadTemps.Blocks(code)[..i][..i - 1] == DeadTemps.Blocks(code)[..i - 1];
    }
  }

  /** Removal takes out exactly the useless units and keeps the others in order. */
  lemma RemovesExactly(code: seq<Unit>)
    ensures RemoveUnused(code) == Useful(code, |code|)
  {
    hide Useful, UsedTemps, Dropped;
    UsefulPrefix(code, |code|);
    assert DeadTemps.Blocks(code)[..|code|] == DeadTemps.Blocks(code);
  }

  // ----- literals -----

  /** No literal where the optimiser moves, folds or negates it. */
  ghost predicate Normal(u: Unit) {
    && !u.Nop?
    && (u.Unary? ==> !u.src.Lit?)
    && (u.Binary? ==> !(u.src1.Lit? && u.src2.Lit?))
    && (u.Binary? && (u.bop == Plus || u.bop == Mult) ==> !u.src1.Lit?)
    && (u.Binary? && u.bop == Minus ==> !u.src2.Lit?)
    && (u.JumpIf? ==> !(u.src1.Lit? && u.src2.Lit?))
  }

  /** No operation on literals alone. */
  ghost predicate Folded(u: Unit) {
    && (u.Unary? ==> !u.src.Lit?)
    && (u.Binary? || u.JumpIf? ==> !(u.src1.Lit? && u.src2.Lit?))
  }

  lemma SimplifiedFolded(u: Unit)
    ensures Folded(FX.Simplified(u))
  {
  }

  lemma FlipNormal(ids: map<int, int>, u: Unit)
    requires Folded(u) && !u.Nop?
    ensures Normal(FlipUnit(RenameUnit(ids, u)))
  {
  }

  /** After the optimiser no unit computes with literals alone, literals stand on the right of sums and products,
      no literal is subtracted, and no no-op is left. */
  lemma OptimizedNormal(r: Renaming, code: seq<Unit>, u: Unit)
    requires Fold(code).Some? && u in OptimizeCode(r, code)
    ensures Normal(u)
  {
    hide Fold, RemoveUnused, RenameCode, Normal, FlipUnit, RenameUnit, Folded, FX.Simplified, FX.Filled, MeetCode;
    var folded := Fold(code).value;
    var short := RemoveUnused(folded);
    var named := RenameCode(r, short);
    var i :| 0 <= i < |named| && FlipUnit(named[i]) == u;
    RenameLength(r, short);
    RenameCodeIs(r, short, i);
    RemovedFrom(folded, short[i]);
    FX.FoldIs(code);
    var k :| 0 <= k < |folded| && folded[k] == short[i];
    SimplifiedFolded(FX.Filled(code, k));
    FlipNormal(MeetCode(r, short).ids, short[i]);
  }
}
