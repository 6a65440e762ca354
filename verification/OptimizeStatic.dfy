/** The Pinkie optimiser keeps the code well formed. */
module OptimizeStatic {
  import opened Words
  import opened Wrappers
  import opened Primitive
  import opened Layout
  import opened Pinkie
  import Ast
  import opened Embedding
  import G = GenEeyore
  import opened GenStatic
  import opened ConstFold
  import opened ConstFoldCorrect
  import opened DeadTemps
  import opened ClearTemps
  import opened FlipBinops
  import opened Optimize
  import Backend

  // ----- units -----

  /** What code generation needs of a unit, temporaries aside. */
  ghost predicate Usable(sc: Scope, u: Unit) {
    && (u.Binary? ==> !Ast.Logical(u.bop)) && (u.JumpIf? ==> u.bop == EQ && u.src2 == Lit(0))
    && (forall o :: o in ROps(u) ==> o.Lit? || o.Temp? || Named(sc, o))
    && (u.ArrayWrite? ==> u.base.Temp? || Named(sc, u.base))
    && (G.Destination(u).Some? ==>
          var o := G.Destination(u).value; o.Temp? || (Named(sc, o) && o in sc.scalars))
  }

  lemma TidyUsable(sc: Scope, whole: seq<Unit>, ext: set<int>, t0: int, t1: int, u: Unit)
    requires UnitTidy(sc, whole, ext, t0, t1, u)
    ensures Usable(sc, u) && EeyoreShape(u)
  {
    hide GenStatic.Writes, Named;
  }

  lemma SubstituteUsable(sc: Scope, counts: map<int, nat>, lits: map<int, Word>, u: Unit)
    requires Usable(sc, u)
    ensures Usable(sc, Substitute(counts, lits, u))
  {
    hide Count, Named;
    var v := Substitute(counts, lits, u);
    forall o | o in ROps(v) ensures o.Lit? || o.Temp? || Named(sc, o) {
      assert o.Lit? || o in ROps(u);
    }
  }

  lemma FoldedUsable(sc: Scope, v: Unit, w: Word)
    requires Usable(sc, v) && LiteralCalc(v) == Literal(w)
    ensures Usable(sc, FoldedUnit(v, w))
  {
    hide Named;
  }

  lemma RenameUsable(sc: Scope, ids: map<int, int>, u: Unit)
    requires Usable(sc, u)
    ensures Usable(sc, RenameUnit(ids, u))
  {
    hide Named;
    var v := RenameUnit(ids, u);
    forall o | o in ROps(v) ensures o.Lit? || o.Temp? || Named(sc, o) {
      assert o.Temp? || o in ROps(u);
    }
  }

  lemma FlipUsable(sc: Scope, u: Unit)
    requires Usable(sc, u)
    ensures Usable(sc, FlipUnit(u))
  {
    hide Named;
  }

  ghost predicate AllUsable(sc: Scope, code: seq<Unit>) {
    forall u :: u in code ==> Usable(sc, u)
  }

  // ----- units that keep their kind -----

  /** Labels, arguments and calls stay where they are. */
  ghost predicate SameKind(u: Unit, v: Unit) {
    (u.Label? || v.Label? ==> u == v) && (u.Arg? <==> v.Arg?) && (IsCall(u) <==> IsCall(v))
  }

  ghost predicate SameKinds(a: seq<Unit>, b: seq<Unit>) {
    |a| == |b| && forall i :: 0 <= i < |a| ==> SameKind(a[i], b[i])
  }

  lemma {:induction false} ParamsSame(a: seq<Unit>, b: seq<Unit>, i: nat)
    requires SameKinds(a, b) && i <= |a|
    ensures Backend.ParamAt(a, i) == Backend.ParamAt(b, i)
  {
    if i > 0 {
      ParamsSame(a, b, i - 1);
      assert SameKind(a[i - 1], b[i - 1]);
    }
  }

  /** Labels are distinct, and arguments stand right before their call, at most twelve of them. */
  ghost predicate Framed(code: seq<Unit>) {
    DistinctLabels(code) && ArgsContiguous(code) && ArgsFew(code)
  }

  lemma KindsFramed(a: seq<Unit>, b: seq<Unit>)
    requires SameKinds(a, b) && Framed(a)
    ensures Framed(b) && forall l :: Label(l) in b ==> Label(l) in a
  {
    forall i, j | 0 <= i < j < |b| && b[i].Label? ensures b[i] != b[j] {
      assert SameKind(a[i], b[i]) && SameKind(a[j], b[j]);
    }
    forall i | 0 <= i < |b| && b[i].Arg?
      ensures i + 1 < |b| && (b[i + 1].Arg? || IsCall(b[i + 1])) && Backend.ParamAt(b, i) < 12
    {
      assert SameKind(a[i], b[i]);
      assert SameKind(a[i + 1], b[i + 1]);
      ParamsSame(a, b, i);
    }
    forall l | Label(l) in b ensures Label(l) in a {
      var i :| 0 <= i < |b| && b[i] == Label(l);
      assert SameKind(a[i], b[i]);
    }
  }

  // ----- folding -----

  lemma FoldedKind(code: seq<Unit>, i: nat)
    requires Fold(code).Some? && i < |code|
    ensures |Fold(code).value| == |code| && SameKind(code[i], Fold(code).value[i])
  {
    hide WriteCounts, FoldPrefix, Literalize;
    FoldedAt(code, i);
    hide At, Fold;
  }

  lemma FoldStatic(sc: Scope, code: seq<Unit>)
    requires Fold(code).Some? && Framed(code) && AllUsable(sc, code)
    ensures var folded := Fold(code).value;
            Framed(folded) && AllUsable(sc, folded) && forall l :: Label(l) in folded ==> Label(l) in code
  {
    hide Fold, Usable, Framed, WriteCounts, At, SameKind, Substitute, FoldedUnit, LiteralCalc;
    var folded := Fold(code).value;
    FoldKeepsLabels(code);
    forall i | 0 <= i < |code| ensures SameKind(code[i], folded[i]) && Usable(sc, folded[i]) {
      FoldedKind(code, i);
      FoldedAt(code, i);
      assert code[i] in code;
      var v := Substitute(WriteCounts(code), At(code, i).lits, code[i]);
      SubstituteUsable(sc, WriteCounts(code), At(code, i).lits, code[i]);
      if LiteralCalc(v).Literal? {
        FoldedUsable(sc, v, LiteralCalc(v).word);
      }
    }
    KindsFramed(code, folded);
  }

  // ----- removal -----

  lemma KeptAlways(used: set<int>, u: Unit)
    requires Dropped(used, u)
    ensures !u.Label? && !u.Arg? && !IsCall(u)
  {
  }

  lemma {:induction false} ParamsKept(code: seq<Unit>, i: nat)
    requires i <= |code|
    ensures Start(DeadTemps.Blocks(code), i) <= |RemoveUnused(code)|
    ensures Backend.ParamAt(RemoveUnused(code), Start(DeadTemps.Blocks(code), i)) == Backend.ParamAt(code, i)
  {
    hide UsedTemps, Dropped, Start, Flatten;
    var blocks := DeadTemps.Blocks(code);
    StartMonotone(blocks, i, |code|);
    if i == 0 {
      StartNone(blocks);
    } else {
      ParamsKept(code, i - 1);
      BlockAt(blocks, i - 1);
      if Dropped(UsedTemps(code), code[i - 1]) {
        KeptAlways(UsedTemps(code), code[i - 1]);
      }
    }
  }

  lemma StartNone<T>(blocks: seq<seq<T>>)
    ensures Start(blocks, 0) == 0
  {
    assert blocks[..0] == [];
  }

  /** Every unit left was at some index, and the one behind it follows unless dropped. */
  lemma LeftFrom(code: seq<Unit>, q: nat) returns (i: nat)
    requires q < |RemoveUnused(code)|
    ensures i < |code| && code[i] == RemoveUnused(code)[q] && q == Start(DeadTemps.Blocks(code), i)
    ensures i + 1 < |code| && (code[i + 1].Arg? || IsCall(code[i + 1])) ==>
              q + 1 < |RemoveUnused(code)| && RemoveUnused(code)[q + 1] == code[i + 1]
  {
    hide UsedTemps, Start, Flatten, Dropped, IsCall;
    var blocks := DeadTemps.Blocks(code);
    var j: nat;
    i, j := Locate(blocks, q);
    BlockAt(blocks, i);
    if i + 1 < |code| && (code[i + 1].Arg? || IsCall(code[i + 1])) {
      if Dropped(UsedTemps(code), code[i + 1]) {
        KeptAlways(UsedTemps(code), code[i + 1]);
      }
      BlockAt(blocks, i + 1);
    }
  }

  lemma RemoveStatic(sc: Scope, code: seq<Unit>)
    requires Framed(code) && AllUsable(sc, code)
    ensures var short := RemoveUnused(code);
            Framed(short) && AllUsable(sc, short) && forall l :: Label(l) in short ==> Label(l) in code
  {
    hide RemoveUnused, Usable, Start, DeadTemps.Blocks;
    var short := RemoveUnused(code);
    forall p, q | 0 <= p < q < |short| && short[p].Label? ensures short[p] != short[q] {
      var i := LeftFrom(code, p);
      var j := LeftFrom(code, q);
      LabelFound(code, i, short[p].id);
      if short[q].Label? {
        LabelFound(code, j, short[q].id);
      }
    }
    forall q | 0 <= q < |short| && short[q].Arg?
      ensures q + 1 < |short| && (short[q + 1].Arg? || IsCall(short[q + 1])) && Backend.ParamAt(short, q) < 12
    {
      var i := LeftFrom(code, q);
      ParamsKept(code, i);
    }
    forall u | u in short ensures u in code {
      var q :| 0 <= q < |short| && short[q] == u;
      var i := LeftFrom(code, q);
    }
  }

  // ----- renaming and flipping -----

  lemma RenameStatic(sc: Scope, r: Renaming, code: seq<Unit>)
    requires Framed(code) && AllUsable(sc, code)
    ensures var named := RenameCode(r, code);
            Framed(named) && AllUsable(sc, named) && forall l :: Label(l) in named ==> Label(l) in code
  {
    hide RenameCode, MeetCode, Usable, Framed, SameKind, RenameUnit;
    var named := RenameCode(r, code);
    RenameLength(r, code);
    forall i | 0 <= i < |code| ensures SameKind(code[i], named[i]) && Usable(sc, named[i]) {
      RenameCodeIs(r, code, i);
      RenameKind(MeetCode(r, code).ids, code[i]);
      assert code[i] in code;
      RenameUsable(sc, MeetCode(r, code).ids, code[i]);
    }
    KindsFramed(code, named);
  }

  lemma RenameKind(ids: map<int, int>, u: Unit)
    ensures SameKind(u, RenameUnit(ids, u))
  {
  }

  lemma FlipKind(u: Unit)
    ensures SameKind(u, FlipUnit(u))
  {
  }

  lemma FlipStatic(sc: Scope, code: seq<Unit>)
    requires Framed(code) && AllUsable(sc, code)
    ensures Framed(Flip(code)) && AllUsable(sc, Flip(code)) && forall l :: Label(l) in Flip(code) ==> Label(l) in code
  {
    hide Usable, Framed, SameKind, FlipUnit;
    forall i | 0 <= i < |code| ensures SameKind(code[i], Flip(code)[i]) && Usable(sc, Flip(code)[i]) {
      FlipKind(code[i]);
      assert code[i] in code;
      FlipUsable(sc, code[i]);
    }
    KindsFramed(code, Flip(code));
  }

  /** What the optimiser is given, it passes on: labels defined once and none new, arguments right
      before their calls, and operands of the function's scope. */
  lemma OptimizeStatic(sc: Scope, r: Renaming, code: seq<Unit>)
    requires Fold(code).Some? && Framed(code) && AllUsable(sc, code)
    ensures var code' := OptimizeCode(r, code);
            Framed(code') && AllUsable(sc, code') && forall l :: Label(l) in code' ==> Label(l) in code
  {
    hide *;
    FoldStatic(sc, code);
    RemoveStatic(sc, Fold(code).value);
    RenameStatic(sc, r, RemoveUnused(Fold(code).value));
    FlipStatic(sc, RenameCode(r, RemoveUnused(Fold(code).value)));
    OptimizeCodeIs(r, code);
  }

  lemma OptimizeCodeIs(r: Renaming, code: seq<Unit>)
    requires Fold(code).Some?
    ensures OptimizeCode(r, code) == Flip(RenameCode(r, RemoveUnused(Fold(code).value)))
  {
    hide Fold, RemoveUnused, RenameCode, Flip;
  }

  // ----- temporaries are declared -----

  lemma FlipOps(u: Unit, o: Operand)
    requires o in Ops(FlipUnit(u)) && o.Temp?
    ensures o in Ops(u)
  {
  }

  lemma RenameOps(ids: map<int, int>, u: Unit, o: Operand) returns (p: Operand)
    requires o in Ops(RenameUnit(ids, u)) && o.Temp?
    ensures p in Ops(u) && p.Temp? && o == Rename(ids, p)
  {
    p := o;
    match u
    case Binary(_, dst, src1, src2) =>
      p := if o == Rename(ids, dst) then dst else if o == Rename(ids, src1) then src1 else src2;
    case ArrayWrite(dst, src1, src2) =>
      p := if o == Rename(ids, dst) then dst else if o == Rename(ids, src1) then src1 else src2;
    case ArrayRead(dst, src1, src2) =>
      p := if o == Rename(ids, dst) then dst else if o == Rename(ids, src1) then src1 else src2;
    case Unary(_, dst, src) => p := if o == Rename(ids, dst) then dst else src;
    case Copy(dst, src) => p := if o == Rename(ids, dst) then dst else src;
    case JumpIf(_, _, src, _) => p := src;
    case Arg(val) => p := val;
    case RetI(val) => p := val;
    case CallI(_, dst) => p := dst;
    case _ =>
  }

  /** Every temporary of an optimised function is declared there, if no earlier function used it. */
  lemma TempDeclared(r: Renaming, f: Func, u: Unit, o: Operand)
    requires Injective(r) && u in Flip(RenameCode(r, f.code)) && o in Ops(u) && o.Temp?
    requires forall t :: Occurs(f.code, t) ==> t !in r.ids
    ensures Declares(ClearFunc(r, f).decl, o.id)
  {
    hide ClearFunc, MeetCode, RenameCode, Injective, FlipUnit, RenameUnit, Ops, Declares, Rename;
    var named := RenameCode(r, f.code);
    RenameLength(r, f.code);
    var i :| 0 <= i < |named| && Flip(named)[i] == u;
    FlipOps(named[i], o);
    RenameCodeIs(r, f.code, i);
    var p := RenameOps(MeetCode(r, f.code).ids, f.code[i], o);
    assert Temp(p.id) in Ops(f.code[i]);
    assert Occurs(f.code, p.id);
    DeclaredIffNew(r, f, p.id);
    RenamedIs(MeetCode(r, f.code).ids, p);
  }

  lemma RenamedIs(ids: map<int, int>, p: Operand)
    requires p.Temp? && p.id in ids
    ensures Rename(ids, p) == Temp(ids[p.id])
  {
  }
}
