/** Popping, appending, splitting and lookup on finger trees refine the same operations on plain sequences. */
module FingerTreeOps {
  import opened Wrappers
  import opened FingerTree

  function Levels(s: Seq): nat {
    match s
    case Deep(_, _, m, _) => Levels(m) + 1
    case _ => 0
  }

  // ----- popping -----

  lemma DigFront(d: Dig, level: nat)
    requires DigOk(d, level)
    ensures FlatDig(d) == FlatTree(d.t0) + FlatTrees(Trees(d)[1..])
    ensures d.Dig1? ==> FlatDig(d) == FlatTree(d.t0)
    ensures d.Dig2? ==> Trees(d)[1..] == [d.t1]
    ensures d.Dig3? ==> Trees(d)[1..] == [d.t1, d.t2]
    ensures d.Dig4? ==> Trees(d)[1..] == [d.t1, d.t2, d.t3]
  {
    FlatOne(d.t0);
  }

  lemma DigBack(d: Dig, level: nat)
    requires DigOk(d, level)
    ensures d.Dig1? ==> FlatDig(d) == FlatTree(d.t0)
    ensures d.Dig2? ==> FlatDig(d) == FlatTrees([d.t0]) + FlatTree(d.t1)
    ensures d.Dig3? ==> FlatDig(d) == FlatTrees([d.t0, d.t1]) + FlatTree(d.t2)
    ensures d.Dig4? ==> FlatDig(d) == FlatTrees([d.t0, d.t1, d.t2]) + FlatTree(d.t3)
  {
    var ts := Trees(d);
    var n := |ts| - 1;
    FlatTreesAppend(ts[..n], ts[n..]);
    assert ts[..n] + ts[n..] == ts && ts[n..] == [ts[n]];
    FlatOne(ts[n]);
    FlatOne(d.t0);
    assert d.Dig2? ==> ts[..n] == [d.t0];
    assert d.Dig3? ==> ts[..n] == [d.t0, d.t1];
    assert d.Dig4? ==> ts[..n] == [d.t0, d.t1, d.t2];
  }

  lemma LevelsBelow(s: Seq)
    requires s.Deep?
    ensures Levels(s) == Levels(s.m) + 1
  {
  }

  /** Takes the first tree off; the mutual recursion with `DeepLeft` goes one level down each time. */
  method PopFront(s: Seq, ghost level: nat) returns (rest: Seq, t: Tree)
    requires SeqOk(s, level) && !s.Nil?
    ensures SeqOk(rest, level) && TreeOk(t, level) && FlatTree(t) + FlatSeq(rest) == FlatSeq(s)
    decreases Levels(s), 0
  {
    hide *;
    match s {
      case Single(_, t0) =>
        SingleParts(s, level);
        EmptyOk(level);
        rest, t := Nil, t0;
      case Deep(_, l, m, r) =>
        DeepParts(s, level);
        DigParts(l, level);
        DigFront(l, level);
        LevelsBelow(s);
        t := l.t0;
        match l {
          case Dig1(_, _) => rest := DeepLeft(m, r, level);
          case Dig2(_, _, t1) => rest := NewDeep(NewDig1(t1, level), m, r, level);
          case Dig3(_, _, t1, t2) => rest := NewDeep(NewDig2(t1, t2, level), m, r, level);
          case Dig4(_, _, t1, t2, t3) => rest := NewDeep(NewDig3(t1, t2, t3, level), m, r, level);
        }
        Regroup(FlatTree(t), FlatTrees(Trees(l)[1..]), FlatSeq(m), FlatDig(r));
    }
  }

  /** A sequence without its left digit: the first tree of the middle becomes one. */
  method DeepLeft(m: Seq, r: Dig, ghost level: nat) returns (s: Seq)
    requires SeqOk(m, level + 1) && DigOk(r, level)
    ensures SeqOk(s, level) && FlatSeq(s) == FlatSeq(m) + FlatDig(r)
    decreases Levels(m), 1
  {
    hide *;
    if m.Nil? {
      EmptyOk(level);
      s := DigToSeq(r, level);
    } else {
      var rest, t := PopFront(m, level + 1);
      s := NewDeep(TreeToDig(t, level), rest, r, level);
    }
  }

  method PopBack(s: Seq, ghost level: nat) returns (rest: Seq, t: Tree)
    requires SeqOk(s, level) && !s.Nil?
    ensures SeqOk(rest, level) && TreeOk(t, level) && FlatSeq(rest) + FlatTree(t) == FlatSeq(s)
    decreases Levels(s), 0
  {
    hide *;
    match s {
      case Single(_, t0) =>
        SingleParts(s, level);
        EmptyOk(level);
        rest, t := Nil, t0;
      case Deep(_, l, m, r) =>
        DeepParts(s, level);
        DigParts(r, level);
        DigBack(r, level);
        LevelsBelow(s);
        match r {
          case Dig1(_, t0) =>
            t := t0;
            rest := DeepRight(l, m, level);
          case Dig2(_, t0, t1) =>
            t := t1;
            rest := NewDeep(l, m, NewDig1(t0, level), level);
            Regroup(FlatDig(l), FlatSeq(m), FlatTrees([t0]), FlatTree(t));
          case Dig3(_, t0, t1, t2) =>
            t := t2;
            rest := NewDeep(l, m, NewDig2(t0, t1, level), level);
            Regroup(FlatDig(l), FlatSeq(m), FlatTrees([t0, t1]), FlatTree(t));
          case Dig4(_, t0, t1, t2, t3) =>
            t := t3;
            rest := NewDeep(l, m, NewDig3(t0, t1, t2, level), level);
            Regroup(FlatDig(l), FlatSeq(m), FlatTrees([t0, t1, t2]), FlatTree(t));
        }
    }
  }

  /** A sequence without its right digit. */
  method DeepRight(l: Dig, m: Seq, ghost level: nat) returns (s: Seq)
    requires DigOk(l, level) && SeqOk(m, level + 1)
    ensures SeqOk(s, level) && FlatSeq(s) == FlatDig(l) + FlatSeq(m)
    decreases Levels(m), 1
  {
    hide *;
    if m.Nil? {
      EmptyOk(level);
      s := DigToSeq(l, level);
    } else {
      var rest, t := PopBack(m, level + 1);
      s := NewDeep(l, rest, TreeToDig(t, level), level);
    }
  }

  lemma LeafIs(t: Tree)
    requires TreeOk(t, 0)
    ensures t.Leaf? && FlatTree(t) == [t.frag]
  {
    LeafLevel(t, 0);
  }

  lemma NilIffEmpty(s: Seq, level: nat)
    requires SeqOk(s, level)
    ensures s.Nil? <==> FlatSeq(s) == []
  {
    if s.Single? {
      TreeNotEmpty(s.t0, level);
    } else if s.Deep? {
      TreeNotEmpty(s.l.t0, level) by { DigParts(s.l, level); }
      DigFront(s.l, level);
    }
  }

  /** `_seq_pop_front`: an error exactly on the empty sequence, else head and tail. */
  method SeqPopFront(s: Seq) returns (rest: Seq, f: Option<Frag>)
    requires SeqOk(s, 0)
    ensures SeqOk(rest, 0) && (f.None? <==> FlatSeq(s) == [])
    ensures f.Some? ==> FlatSeq(s) == [f.value] + FlatSeq(rest)
  {
    NilIffEmpty(s, 0);
    if s.Nil? {
      return s, None;
    }
    var t;
    rest, t := PopFront(s, 0);
    LeafIs(t);
    f := Some(t.frag);
  }

  method SeqPopBack(s: Seq) returns (rest: Seq, f: Option<Frag>)
    requires SeqOk(s, 0)
    ensures SeqOk(rest, 0) && (f.None? <==> FlatSeq(s) == [])
    ensures f.Some? ==> FlatSeq(s) == FlatSeq(rest) + [f.value]
  {
    NilIffEmpty(s, 0);
    if s.Nil? {
      return s, None;
    }
    var t;
    rest, t := PopBack(s, 0);
    LeafIs(t);
    f := Some(t.frag);
  }

  /** Pushing a fragment is cons in front and snoc at the back. */
  lemma PushedFragment(s: Seq, f: Frag)
    requires SeqOk(s, 0) && TreeOk(Leaf(f), 0)
    ensures FlatSeq(PushFront(s, Leaf(f), 0)) == [f] + FlatSeq(s)
    ensures FlatSeq(PushBack(s, Leaf(f), 0)) == FlatSeq(s) + [f]
  {
    hide *;
    LeafIs(Leaf(f));
  }

  // ----- splitting -----

  ghost function FlatOption(d: Option<Dig>): seq<Frag> {
    match d
    case None => []
    case Some(x) => FlatDig(x)
  }

  ghost predicate OptionOk(d: Option<Dig>, level: nat) {
    d.Some? ==> DigOk(d.value, level)
  }

  lemma OptionIs(level: nat)
    ensures OptionOk(None, level) && FlatOption(None) == []
    ensures forall d :: FlatOption(Some(d)) == FlatDig(d) && (DigOk(d, level) ==> OptionOk(Some(d), level))
  {
    hide DigOk, FlatDig;
  }

  /** Dividing the trees of a digit at tree `i`. */
  lemma DigAt(d: Dig, i: nat, level: nat)
    requires DigOk(d, level) && i < |Trees(d)|
    ensures FlatDig(d) == FlatTrees(Trees(d)[..i]) + FlatTree(Trees(d)[i]) + FlatTrees(Trees(d)[i + 1..])
    ensures TreeOk(Trees(d)[i], level)
  {
    var ts := Trees(d);
    assert ts == ts[..i] + [ts[i]] + ts[i + 1..];
    FlatTreesAppend(ts[..i] + [ts[i]], ts[i + 1..]);
    FlatTreesAppend(ts[..i], [ts[i]]);
    FlatOne(ts[i]);
    assert ts[i] in ts;
  }

  lemma NoTrees()
    ensures FlatTrees([]) == []
  {
  }

  lemma TotalTwo(t0: Tree, t1: Tree, level: nat)
    requires TreeOk(t0, level) && TreeOk(t1, level)
    ensures Total(FlatTrees([t0])) == TreeLength(t0)
    ensures Total(FlatTrees([t0, t1])) == TreeLength(t0) + TreeLength(t1)
    ensures Total([]) == 0
  {
    FlatOne(t0);
    FlatTwo(t0, t1);
    TotalAppend(FlatTree(t0), FlatTree(t1));
  }

  lemma TotalThree(t0: Tree, t1: Tree, t2: Tree, level: nat)
    requires TreeOk(t0, level) && TreeOk(t1, level) && TreeOk(t2, level)
    ensures Total(FlatTrees([t0, t1, t2])) == TreeLength(t0) + TreeLength(t1) + TreeLength(t2)
  {
    FlatThree(t0, t1, t2);
    TotalAppend(FlatTree(t0), FlatTree(t1));
    TotalAppend(FlatTree(t0) + FlatTree(t1), FlatTree(t2));
  }

  lemma DigTotal(d: Dig, level: nat)
    requires DigOk(d, level)
    ensures d.Dig1? ==> d.len == TreeLength(d.t0)
    ensures d.Dig2? ==> d.len == TreeLength(d.t0) + TreeLength(d.t1)
    ensures d.Dig3? ==> d.len == TreeLength(d.t0) + TreeLength(d.t1) + TreeLength(d.t2)
    ensures d.Dig4? ==> d.len == TreeLength(d.t0) + TreeLength(d.t1) + TreeLength(d.t2) + TreeLength(d.t3)
  {
    hide *;
    DigParts(d, level);
    if d.Dig1? {
      TotalTwo(d.t0, d.t0, level);
    } else if d.Dig2? {
      TotalTwo(d.t0, d.t1, level);
    } else if d.Dig3? {
      TotalThree(d.t0, d.t1, d.t2, level);
    } else {
      FlatFour(d.t0, d.t1, d.t2, d.t3);
      FlatThree(d.t0, d.t1, d.t2);
      TotalThree(d.t0, d.t1, d.t2, level);
      TotalAppend(FlatTree(d.t0) + FlatTree(d.t1) + FlatTree(d.t2), FlatTree(d.t3));
      TotalTwo(d.t3, d.t3, level);
      FlatOne(d.t3);
    }
  }

  method DigSplit(d: Dig, idx0: nat, ghost level: nat) returns (idx: nat, l: Option<Dig>, r: Option<Dig>, t: Tree)
    requires DigOk(d, level) && idx0 < d.len
    ensures OptionOk(l, level) && OptionOk(r, level) && TreeOk(t, level)
    ensures FlatOption(l) + FlatTree(t) + FlatOption(r) == FlatDig(d)
    ensures idx0 == Total(FlatOption(l)) + idx && idx < TreeLength(t)
  {
    hide *;
    DigParts(d, level);
    DigTotal(d, level);
    OptionIs(level);
    NoTrees();
    TotalTwo(d.t0, d.t0, level);
    ghost var ts := Trees(d);
    idx := idx0;
    match d {
      case Dig1(_, t0) =>
        DigAt(d, 0, level);
        assert ts[..0] == [] && ts[1..] == [];
        l, r, t := None, None, t0;
      case Dig2(_, t0, t1) =>
        var len := TreeLength(t0);
        if idx < len {
          DigAt(d, 0, level);
          assert ts[..0] == [] && ts[1..] == [t1];
          l, r, t := None, Some(NewDig1(t1, level)), t0;
        } else {
          DigAt(d, 1, level);
          assert ts[..1] == [t0] && ts[2..] == [];
          idx := idx - len;
          l, r, t := Some(NewDig1(t0, level)), None, t1;
        }
      case Dig3(_, t0, t1, t2) =>
        TotalTwo(t0, t1, level);
        var len := TreeLength(t0);
        if idx < len {
          DigAt(d, 0, level);
          assert ts[..0] == [] && ts[1..] == [t1, t2];
          l, r, t := None, Some(NewDig2(t1, t2, level)), t0;
          return;
        }
        idx := idx - len;
        len := TreeLength(t1);
        if idx < len {
          DigAt(d, 1, level);
          assert ts[..1] == [t0] && ts[2..] == [t2];
          l, r, t := Some(NewDig1(t0, level)), Some(NewDig1(t2, level)), t1;
        } else {
          DigAt(d, 2, level);
          assert ts[..2] == [t0, t1] && ts[3..] == [];
          idx := idx - len;
          l, r, t := Some(NewDig2(t0, t1, level)), None, t2;
        }
      case Dig4(_, t0, t1, t2, t3) =>
        TotalTwo(t0, t1, level);
        TotalThree(t0, t1, t2, level);
        var len := TreeLength(t0);
        if idx < len {
          DigAt(d, 0, level);
          assert ts[..0] == [] && ts[1..] == [t1, t2, t3];
          l, r, t := None, Some(NewDig3(t1, t2, t3, level)), t0;
          return;
        }
        idx := idx - len;
        len := TreeLength(t1);
        if idx < len {
          DigAt(d, 1, level);
          assert ts[..1] == [t0] && ts[2..] == [t2, t3];
          l, r, t := Some(NewDig1(t0, level)), Some(NewDig2(t2, t3, level)), t1;
          return;
        }
        idx := idx - len;
        len := TreeLength(t2);
        if idx < len {
          DigAt(d, 2, level);
          assert ts[..2] == [t0, t1] && ts[3..] == [t3];
          l, r, t := Some(NewDig2(t0, t1, level)), Some(NewDig1(t3, level)), t2;
        } else {
          DigAt(d, 3, level);
          assert ts[..3] == [t0, t1, t2] && ts[4..] == [];
          idx := idx - len;
          l, r, t := Some(NewDig3(t0, t1, t2, level)), None, t3;
        }
    }
  }

  lemma TotalParts(a: seq<Frag>, b: seq<Frag>, c: seq<Frag>)
    ensures Total(a + b + c) == Total(a) + Total(b) + Total(c)
    ensures Total(a + b) == Total(a) + Total(b)
    ensures Total([]) == 0
  {
    TotalAppend(a + b, c);
    TotalAppend(a, b);
  }

  /** What a split promises: the parts in order, and the index as a position in the middle one. */
  ghost predicate SplitOk(s: Seq, idx0: nat, level: nat, idx: nat, l: Seq, r: Seq, t: Tree) {
    && SeqOk(l, level) && SeqOk(r, level) && TreeOk(t, level)
    && FlatSeq(l) + FlatTree(t) + FlatSeq(r) == FlatSeq(s)
    && idx0 == Total(FlatSeq(l)) + idx && idx < TreeLength(t)
  }

  lemma SplitIs(s: Seq, idx0: nat, level: nat, idx: nat, l: Seq, r: Seq, t: Tree)
    requires SeqOk(l, level) && SeqOk(r, level) && TreeOk(t, level)
    requires FlatSeq(l) + FlatTree(t) + FlatSeq(r) == FlatSeq(s)
    requires idx0 == Total(FlatSeq(l)) + idx && idx < TreeLength(t)
    ensures SplitOk(s, idx0, level, idx, l, r, t)
  {
  }

  lemma SplitMeans(s: Seq, idx0: nat, level: nat, idx: nat, l: Seq, r: Seq, t: Tree)
    requires SplitOk(s, idx0, level, idx, l, r, t)
    ensures SeqOk(l, level) && SeqOk(r, level) && TreeOk(t, level)
    ensures FlatSeq(l) + FlatTree(t) + FlatSeq(r) == FlatSeq(s)
    ensures idx0 == Total(FlatSeq(l)) + idx && idx < TreeLength(t)
  {
  }

  lemma LeftParts<T>(a: seq<T>, b: seq<T>, c: seq<T>, m: seq<T>, r: seq<T>)
    ensures a + b + (c + m + r) == (a + b + c) + m + r
    ensures a + b + (m + r) == (a + b) + m + r
  {
  }

  lemma RightParts<T>(l: seq<T>, m: seq<T>, a: seq<T>, b: seq<T>, c: seq<T>)
    ensures (l + m + a) + b + c == l + m + (a + b + c)
    ensures (l + m) + b + c == l + m + (b + c)
  {
  }

  lemma MiddleParts<T>(l: seq<T>, a: seq<T>, x: seq<T>, t: seq<T>, y: seq<T>, b: seq<T>, r: seq<T>)
    ensures (l + a + x) + t + (y + b + r) == l + (a + (x + t + y) + b) + r
    ensures (l + a) + t + (y + b + r) == l + (a + (t + y) + b) + r
    ensures (l + a + x) + t + (b + r) == l + (a + (x + t) + b) + r
  {
  }

  /** The split falls in the left digit. */
  method SplitInLeft(s: Seq, idx0: nat, ghost level: nat) returns (idx: nat, l: Seq, r: Seq, t: Tree)
    requires SeqOk(s, level) && s.Deep? && idx0 < s.l.len
    ensures SplitOk(s, idx0, level, idx, l, r, t)
  {
    hide *;
    DeepParts(s, level);
    EmptyOk(level);
    OptionIs(level);
    var dl, dr;
    idx, dl, dr, t := DigSplit(s.l, idx0, level);
    LeftParts(FlatOption(dl), FlatTree(t), FlatOption(dr), FlatSeq(s.m), FlatDig(s.r));
    if dr.Some? {
      OptionMeans(dr, level);
      r := NewDeep(dr.value, s.m, s.r, level);
    } else {
      r := DeepLeft(s.m, s.r, level);
    }
    if dl.Some? {
      OptionMeans(dl, level);
      l := DigToSeq(dl.value, level);
    } else {
      l := Nil;
    }
    SplitIs(s, idx0, level, idx, l, r, t);
  }

  lemma OptionMeans(d: Option<Dig>, level: nat)
    requires OptionOk(d, level) && d.Some?
    ensures DigOk(d.value, level) && FlatOption(d) == FlatDig(d.value)
  {
    hide DigOk, FlatDig;
  }

  method SplitInRight(s: Seq, idx1: nat, ghost level: nat, ghost idx0: nat) returns (idx: nat, l: Seq, r: Seq, t: Tree)
    requires SeqOk(s, level) && s.Deep? && idx1 < s.r.len && idx0 == s.l.len + SeqLength(s.m) + idx1
    ensures SplitOk(s, idx0, level, idx, l, r, t)
  {
    hide *;
    DeepParts(s, level);
    EmptyOk(level);
    OptionIs(level);
    var dl, dr;
    idx, dl, dr, t := DigSplit(s.r, idx1, level);
    RightParts(FlatDig(s.l), FlatSeq(s.m), FlatOption(dl), FlatTree(t), FlatOption(dr));
    TotalParts(FlatDig(s.l), FlatSeq(s.m), FlatOption(dl));
    if dl.Some? {
      OptionMeans(dl, level);
      l := NewDeep(s.l, s.m, dl.value, level);
    } else {
      l := DeepRight(s.l, s.m, level);
    }
    if dr.Some? {
      OptionMeans(dr, level);
      r := DigToSeq(dr.value, level);
    } else {
      r := Nil;
    }
    SplitIs(s, idx0, level, idx, l, r, t);
  }

  lemma NodeTotal(t: Tree, level: nat)
    requires TreeOk(t, level) && !t.Leaf?
    ensures t.Node2? ==> t.len == TreeLength(t.t0) + TreeLength(t.t1)
    ensures t.Node3? ==> t.len == TreeLength(t.t0) + TreeLength(t.t1) + TreeLength(t.t2)
    ensures t.len == TreeLength(t)
  {
    NodeParts(t, level);
    if t.Node2? {
      TotalTwo(t.t0, t.t1, level - 1);
      FlatTwo(t.t0, t.t1);
    } else {
      TotalThree(t.t0, t.t1, t.t2, level - 1);
      FlatThree(t.t0, t.t1, t.t2);
    }
  }

  /** The middle tree that the split of the middle sequence found is divided in turn. */
  method SplitNode(s: Seq, idx1: nat, l1: Seq, r1: Seq, t1: Tree, ghost level: nat, ghost idx0: nat)
    returns (idx: nat, l: Seq, r: Seq, t: Tree)
    requires SeqOk(s, level) && s.Deep? && idx1 < TreeLength(t1)
    requires SeqOk(l1, level + 1) && SeqOk(r1, level + 1) && TreeOk(t1, level + 1)
    requires FlatSeq(l1) + FlatTree(t1) + FlatSeq(r1) == FlatSeq(s.m)
    requires idx0 == s.l.len + Total(FlatSeq(l1)) + idx1
    ensures SplitOk(s, idx0, level, idx, l, r, t)
  {
    hide *;
    LeafLevel(t1, level + 1);
    if t1.Node2? {
      idx, l, r, t := SplitNode2(s, idx1, l1, r1, t1, level, idx0);
    } else {
      idx, l, r, t := SplitNode3(s, idx1, l1, r1, t1, level, idx0);
    }
  }

  method SplitNode2(s: Seq, idx1: nat, l1: Seq, r1: Seq, t1: Tree, ghost level: nat, ghost idx0: nat)
    returns (idx: nat, l: Seq, r: Seq, t: Tree)
    requires SeqOk(s, level) && s.Deep? && idx1 < TreeLength(t1) && t1.Node2?
    requires SeqOk(l1, level + 1) && SeqOk(r1, level + 1) && TreeOk(t1, level + 1)
    requires FlatSeq(l1) + FlatTree(t1) + FlatSeq(r1) == FlatSeq(s.m)
    requires idx0 == s.l.len + Total(FlatSeq(l1)) + idx1
    ensures SplitOk(s, idx0, level, idx, l, r, t)
  {
    hide *;
    DeepParts(s, level);
    NodeParts(t1, level + 1);
    NodeTotal(t1, level + 1);
    var t0, t2 := t1.t0, t1.t1;
    FlatOne(t0);
    FlatOne(t2);
    TotalTwo(t0, t2, level);
    TotalParts(FlatDig(s.l), FlatSeq(l1), FlatTree(t0));
    idx := idx1;
    var len := TreeLength(t0);
    if idx < len {
      MiddleParts(FlatDig(s.l), FlatSeq(l1), [], FlatTree(t0), FlatTree(t2), FlatSeq(r1), FlatDig(s.r));
      l := DeepRight(s.l, l1, level);
      r := NewDeep(NewDig1(t2, level), r1, s.r, level);
      t := t0;
    } else {
      MiddleParts(FlatDig(s.l), FlatSeq(l1), FlatTree(t0), FlatTree(t2), [], FlatSeq(r1), FlatDig(s.r));
      idx := idx - len;
      l := NewDeep(s.l, l1, NewDig1(t0, level), level);
      r := DeepLeft(r1, s.r, level);
      t := t2;
    }
    SplitIs(s, idx0, level, idx, l, r, t);
  }

  method SplitNode3(s: Seq, idx1: nat, l1: Seq, r1: Seq, t1: Tree, ghost level: nat, ghost idx0: nat)
    returns (idx: nat, l: Seq, r: Seq, t: Tree)
    requires SeqOk(s, level) && s.Deep? && idx1 < TreeLength(t1) && t1.Node3?
    requires SeqOk(l1, level + 1) && SeqOk(r1, level + 1) && TreeOk(t1, level + 1)
    requires FlatSeq(l1) + FlatTree(t1) + FlatSeq(r1) == FlatSeq(s.m)
    requires idx0 == s.l.len + Total(FlatSeq(l1)) + idx1
    ensures SplitOk(s, idx0, level, idx, l, r, t)
  {
    hide *;
    DeepParts(s, level);
    NodeParts(t1, level + 1);
    NodeTotal(t1, level + 1);
    var t0, t2, t3 := t1.t0, t1.t1, t1.t2;
    Node3Parts(t0, t2, t3, level);
    idx := idx1;
    var len := TreeLength(t0);
    if idx < len {
      MiddleParts(FlatDig(s.l), FlatSeq(l1), [], FlatTree(t0), FlatTrees([t2, t3]), FlatSeq(r1), FlatDig(s.r));
      TotalParts(FlatDig(s.l), FlatSeq(l1), []);
      l := DeepRight(s.l, l1, level);
      r := NewDeep(NewDig2(t2, t3, level), r1, s.r, level);
      t := t0;
    } else {
      idx := idx - len;
      len := TreeLength(t2);
      if idx < len {
        MiddleParts(FlatDig(s.l), FlatSeq(l1), FlatTree(t0), FlatTree(t2), FlatTree(t3), FlatSeq(r1), FlatDig(s.r));
        TotalParts(FlatDig(s.l), FlatSeq(l1), FlatTree(t0));
        l := NewDeep(s.l, l1, NewDig1(t0, level), level);
        r := NewDeep(NewDig1(t3, level), r1, s.r, level);
        t := t2;
      } else {
        MiddleParts(FlatDig(s.l), FlatSeq(l1), FlatTrees([t0, t2]), FlatTree(t3), [], FlatSeq(r1), FlatDig(s.r));
        TotalParts(FlatDig(s.l), FlatSeq(l1), FlatTrees([t0, t2]));
        idx := idx - len;
        l := NewDeep(s.l, l1, NewDig2(t0, t2, level), level);
        r := DeepLeft(r1, s.r, level);
        t := t3;
      }
    }
    SplitIs(s, idx0, level, idx, l, r, t);
  }

  lemma Node3Parts(t0: Tree, t2: Tree, t3: Tree, level: nat)
    requires TreeOk(t0, level) && TreeOk(t2, level) && TreeOk(t3, level)
    ensures FlatTrees([t0]) == FlatTree(t0) && FlatTrees([t3]) == FlatTree(t3)
    ensures FlatTree(t0) + FlatTree(t2) + FlatTree(t3) == FlatTree(t0) + FlatTrees([t2, t3])
    ensures FlatTree(t0) + FlatTree(t2) + FlatTree(t3) == FlatTrees([t0, t2]) + FlatTree(t3)
    ensures Total(FlatTree(t0)) == TreeLength(t0) && Total(FlatTrees([t0, t2])) == TreeLength(t0) + TreeLength(t2)
  {
    hide *;
    FlatOne(t0);
    FlatOne(t3);
    FlatTwo(t0, t2);
    FlatTwo(t2, t3);
    TotalTwo(t0, t2, level);
  }

  /** Splits at any index inside, through every digit and level. */
  method SeqSplit(s: Seq, idx0: nat, ghost level: nat) returns (idx: nat, l: Seq, r: Seq, t: Tree)
    requires SeqOk(s, level) && idx0 < SeqLength(s)
    ensures SplitOk(s, idx0, level, idx, l, r, t)
    decreases s
  {
    hide *;
    LengthIs(s);
    match s {
      case Single(_, t0) =>
        SingleParts(s, level);
        EmptyOk(level);
        TotalParts([], [], []);
        idx, l, r, t := idx0, Nil, Nil, t0;
        SplitIs(s, idx0, level, idx, l, r, t);
      case Deep(_, ld, m, rd) =>
        DeepParts(s, level);
        idx := idx0;
        var len := ld.len;
        if idx < len {
          idx, l, r, t := SplitInLeft(s, idx, level);
          return;
        }
        idx := idx - len;
        len := SeqLength(m);
        if idx < len {
          var l1, r1, t1;
          idx, l1, r1, t1 := SeqSplit(m, idx, level + 1);
          SplitMeans(m, idx0 - ld.len, level + 1, idx, l1, r1, t1);
          idx, l, r, t := SplitNode(s, idx, l1, r1, t1, level, idx0);
          return;
        }
        idx := idx - len;
        idx, l, r, t := SplitInRight(s, idx, level, idx0);
    }
  }

  lemma LengthIs(s: Seq)
    ensures SeqLength(s) == if s.Nil? then 0 else s.len
  {
  }

  /** `_seq_split`: an error exactly out of bounds; otherwise left part, fragment and right part make up
      the sequence, and the index returned is the position inside the fragment. It finds what looking the
      index up finds. */
  method Split(s: Seq, idx0: nat) returns (l: Seq, f: Option<Frag>, idx: nat, r: Seq)
    requires SeqOk(s, 0)
    ensures f.None? <==> idx0 >= Total(FlatSeq(s))
    ensures f.Some? ==>
              && SeqOk(l, 0) && SeqOk(r, 0) && FlatSeq(s) == FlatSeq(l) + [f.value] + FlatSeq(r)
              && idx0 == Total(FlatSeq(l)) + idx && idx < f.value.len
    ensures Find(FlatSeq(s), idx0) == if f.Some? then Some(Spot(f.value, idx)) else None
  {
    if idx0 >= SeqLength(s) {
      return Nil, None, idx0, Nil;
    }
    var t;
    idx, l, r, t := SeqSplit(s, idx0, 0);
    SplitMeans(s, idx0, 0, idx, l, r, t);
    LeafIs(t);
    f := Some(t.frag);
    SplitFinds(FlatSeq(s), FlatSeq(l), t.frag, FlatSeq(r), idx0, idx);
  }

  // ----- appending -----

  lemma OneMoreTree(a: seq<Tree>, t: Tree, level: nat)
    requires TreesOk(a, level) && TreeOk(t, level)
    ensures TreesOk(a + [t], level) && FlatTrees(a + [t]) == FlatTrees(a) + FlatTree(t)
  {
    FlatTreesAppend(a, [t]);
    FlatOne(t);
    hide TreeOk;
  }

  lemma TreesParts(a: seq<Tree>, b: seq<Tree>, c: seq<Tree>)
    ensures FlatTrees(a + b + c) == FlatTrees(a) + FlatTrees(b) + FlatTrees(c)
    ensures forall level: nat :: TreesOk(a, level) && TreesOk(b, level) && TreesOk(c, level) ==> TreesOk(a + b + c, level)
  {
    FlatTreesAppend(a + b, c);
    FlatTreesAppend(a, b);
    hide TreeOk;
  }

  /** Copies the trees of a digit behind the first `len` of the gather buffer. */
  method Gather(d: Dig, n: array<Tree>, len: nat) returns (len': nat)
    requires len + |Trees(d)| <= n.Length
    modifies n
    ensures len' == len + |Trees(d)| && n[..len'] == old(n[..len]) + Trees(d)
  {
    len' := len;
    n[len'] := d.t0;
    len' := len' + 1;
    if !d.Dig1? {
      n[len'] := d.t1;
      len' := len' + 1;
      if !d.Dig2? {
        n[len'] := d.t2;
        len' := len' + 1;
        if !d.Dig3? {
          n[len'] := d.t3;
          len' := len' + 1;
        }
      }
    }
  }

  /** `len` trees starting at `i` grouped so far into `m[..mLen]`. */
  ghost predicate Grouping(all: seq<Tree>, n: seq<Tree>, i: nat, len: nat, m: seq<Tree>, level: nat) {
    && n == all && |all| <= 12 && i + len == |all| && i == 3 * |m| && len >= 2
    && TreesOk(all, level) && TreesOk(m, level + 1)
    && FlatTrees(m) + FlatTrees(all[i..]) == FlatTrees(all)
  }

  lemma TakeTrees(all: seq<Tree>, i: nat, k: nat, level: nat)
    requires i + k <= |all| && TreesOk(all, level)
    ensures FlatTrees(all[i..]) == FlatTrees(all[i..i + k]) + FlatTrees(all[i + k..])
    ensures forall j :: i <= j < |all| ==> TreeOk(all[j], level)
    ensures k == 2 ==> all[i..i + k] == [all[i], all[i + 1]]
    ensures k == 3 ==> all[i..i + k] == [all[i], all[i + 1], all[i + 2]]
  {
    hide TreeOk;
    assert all[i..] == all[i..i + k] + all[i + k..];
    FlatTreesAppend(all[i..i + k], all[i + k..]);
  }

  /** One group of three put behind the groups so far. */
  lemma GroupThree(all: seq<Tree>, i: nat, len: nat, m: seq<Tree>, t: Tree, level: nat)
    requires Grouping(all, all, i, len, m, level) && len >= 3
    requires TreeOk(t, level + 1) && FlatTree(t) == FlatTrees([all[i], all[i + 1], all[i + 2]])
    ensures TreesOk(m + [t], level + 1) && FlatTrees(m + [t]) + FlatTrees(all[i + 3..]) == FlatTrees(all)
    ensures len >= 5 ==> Grouping(all, all, i + 3, len - 3, m + [t], level)
  {
    hide *;
    GroupingMeans(all, all, i, len, m, level);
    TakeTrees(all, i, 3, level);
    OneMoreTree(m, t, level + 1);
    if len >= 5 {
      GroupingIs(all, i + 3, len - 3, m + [t], level);
    }
  }

  lemma GroupingIs(all: seq<Tree>, i: nat, len: nat, m: seq<Tree>, level: nat)
    requires |all| <= 12 && i + len == |all| && i == 3 * |m| && len >= 2
    requires TreesOk(all, level) && TreesOk(m, level + 1) && FlatTrees(m) + FlatTrees(all[i..]) == FlatTrees(all)
    ensures Grouping(all, all, i, len, m, level)
  {
    hide TreeOk, FlatTrees;
  }

  lemma GroupTwo(all: seq<Tree>, i: nat, m: seq<Tree>, t: Tree, level: nat)
    requires TreesOk(all, level) && TreesOk(m, level + 1) && i + 2 <= |all|
    requires FlatTrees(m) + FlatTrees(all[i..]) == FlatTrees(all)
    requires TreeOk(t, level + 1) && FlatTree(t) == FlatTrees([all[i], all[i + 1]])
    ensures TreesOk(m + [t], level + 1) && FlatTrees(m + [t]) + FlatTrees(all[i + 2..]) == FlatTrees(all)
  {
    hide *;
    TakeTrees(all, i, 2, level);
    OneMoreTree(m, t, level + 1);
  }

  lemma GroupingMeans(all: seq<Tree>, n: seq<Tree>, i: nat, len: nat, m: seq<Tree>, level: nat)
    requires Grouping(all, n, i, len, m, level)
    ensures n == all && |all| <= 12 && i + len == |all| && i == 3 * |m| && len >= 2
    ensures TreesOk(all, level) && TreesOk(m, level + 1) && FlatTrees(m) + FlatTrees(all[i..]) == FlatTrees(all)
    ensures forall j :: i <= j < |all| ==> TreeOk(all[j], level)
  {
    hide TreeOk, FlatTrees;
  }

  lemma GroupingStarts(all: seq<Tree>, level: nat)
    requires TreesOk(all, level) && 2 <= |all| <= 12
    ensures Grouping(all, all, 0, |all|, [], level)
  {
    assert all[0..] == all;
    NoTrees();
    hide TreeOk;
  }

  lemma NoneLeft(all: seq<Tree>, m: seq<Tree>)
    requires FlatTrees(m) + FlatTrees(all[|all|..]) == FlatTrees(all)
    ensures FlatTrees(m) == FlatTrees(all)
  {
    NoTrees();
    assert all[|all|..] == [];
  }

  /** Groups between two and twelve trees by threes and twos; the middle buffer never needs more than
      its four places. */
  method Regroup12(n: array<Tree>, nLen: nat, m: array<Tree>, ghost level: nat) returns (mLen: nat)
    requires n.Length == 12 && m.Length == 4 && n != m && 2 <= nLen <= 12 && TreesOk(n[..nLen], level)
    modifies m
    ensures 1 <= mLen <= 4 && TreesOk(m[..mLen], level + 1) && FlatTrees(m[..mLen]) == FlatTrees(n[..nLen])
  {
    hide *;
    ghost var all := n[..nLen];
    mLen := 0;
    var i, left := 0, nLen;
    GroupingStarts(all, level);
    assert m[..0] == [];
    while left > 5
      invariant mLen <= 3 && n[..nLen] == all && Grouping(all, n[..nLen], i, left, m[..mLen], level)
      invariant 2 <= left
    {
      GroupingMeans(all, n[..nLen], i, left, m[..mLen], level);
      assert n[i] == all[i] && n[i + 1] == all[i + 1] && n[i + 2] == all[i + 2];
      var t := NewNode3(n[i], n[i + 1], n[i + 2], level);
      GroupThree(all, i, left, m[..mLen], t, level);
      m[mLen] := t;
      mLen := mLen + 1;
      assert m[..mLen] == m[..mLen - 1] + [t];
      left, i := left - 3, i + 3;
      GroupingMeans(all, n[..nLen], i, left, m[..mLen], level);
    }
    GroupingMeans(all, n[..nLen], i, left, m[..mLen], level);
    assert n[i] == all[i] && n[i + 1] == all[i + 1];
    if left == 2 || left == 4 {
      var t := NewNode2(n[i], n[i + 1], level);
      GroupTwo(all, i, m[..mLen], t, level);
      m[mLen] := t;
      mLen := mLen + 1;
      assert m[..mLen] == m[..mLen - 1] + [t];
      if left == 4 {
        assert n[i + 2] == all[i + 2] && n[i + 3] == all[i + 3];
        var t' := NewNode2(n[i + 2], n[i + 3], level);
        GroupTwo(all, i + 2, m[..mLen], t', level);
        m[mLen] := t';
        mLen := mLen + 1;
        assert m[..mLen] == m[..mLen - 1] + [t'];
      }
    } else {
      assert n[i + 2] == all[i + 2];
      var t := NewNode3(n[i], n[i + 1], n[i + 2], level);
      GroupThree(all, i, left, m[..mLen], t, level);
      m[mLen] := t;
      mLen := mLen + 1;
      assert m[..mLen] == m[..mLen - 1] + [t];
      if left == 5 {
        assert n[i + 3] == all[i + 3] && n[i + 4] == all[i + 4];
        var t' := NewNode2(n[i + 3], n[i + 4], level);
        GroupTwo(all, i + 3, m[..mLen], t', level);
        m[mLen] := t';
        mLen := mLen + 1;
        assert m[..mLen] == m[..mLen - 1] + [t'];
      }
    }
    NoneLeft(all, m[..mLen]);
  }

  /** The trees between two sequences become at most four trees of the next level. */
  method AppendMiddle(s: Dig, m: array<Tree>, mLen: nat, t: Dig, ghost level: nat) returns (mLen': nat)
    requires m.Length == 4 && mLen <= 4 && DigOk(s, level) && DigOk(t, level) && TreesOk(m[..mLen], level)
    modifies m
    ensures 1 <= mLen' <= 4 && TreesOk(m[..mLen'], level + 1)
    ensures FlatTrees(m[..mLen']) == FlatDig(s) + FlatTrees(old(m[..mLen])) + FlatDig(t)
  {
    hide *;
    DigParts(s, level);
    DigParts(t, level);
    var n := new Tree[12](_ => s.t0);
    var nLen := Gather(s, n, 0);
    assert n[..nLen] == Trees(s);
    ghost var before := nLen;
    for i := 0 to mLen
      invariant nLen == before + i && n[..nLen] == Trees(s) + m[..i] && m[..] == old(m[..])
    {
      n[nLen] := m[i];
      nLen := nLen + 1;
    }
    nLen := Gather(t, n, nLen);
    TreesParts(Trees(s), m[..mLen], Trees(t));
    mLen' := Regroup12(n, nLen, m, level);
  }

  lemma LastTrees(m: seq<Tree>, i: nat)
    requires 0 < i <= |m|
    ensures FlatTrees(m[i - 1..]) == FlatTree(m[i - 1]) + FlatTrees(m[i..])
    ensures FlatTrees(m[..i]) == FlatTrees(m[..i - 1]) + FlatTree(m[i - 1])
  {
    assert m[i - 1..][1..] == m[i..];
    assert m[..i] == m[..i - 1] + [m[i - 1]];
    FlatTreesAppend(m[..i - 1], [m[i - 1]]);
    FlatOne(m[i - 1]);
  }

  lemma TreeIn(m: seq<Tree>, i: nat, level: nat)
    requires TreesOk(m, level) && i < |m|
    ensures TreeOk(m[i], level)
  {
    hide TreeOk;
  }

  method PushAllFront(t0: Seq, m: array<Tree>, mLen: nat, ghost level: nat) returns (t: Seq)
    requires mLen <= m.Length && SeqOk(t0, level) && TreesOk(m[..mLen], level)
    ensures SeqOk(t, level) && FlatSeq(t) == FlatTrees(m[..mLen]) + FlatSeq(t0)
  {
    hide *;
    t := t0;
    ghost var ts := m[..mLen];
    NoTrees();
    assert ts[mLen..] == [] && ts[0..] == ts;
    for i := 0 to mLen
      invariant SeqOk(t, level) && FlatSeq(t) == FlatTrees(ts[mLen - i..]) + FlatSeq(t0)
    {
      TreeIn(ts, mLen - i - 1, level);
      LastTrees(ts, mLen - i);
      assert m[mLen - i - 1] == ts[mLen - i - 1];
      t := PushFront(t, m[mLen - i - 1], level);
    }
  }

  method PushAllBack(s0: Seq, m: array<Tree>, mLen: nat, ghost level: nat) returns (s: Seq)
    requires mLen <= m.Length && SeqOk(s0, level) && TreesOk(m[..mLen], level)
    ensures SeqOk(s, level) && FlatSeq(s) == FlatSeq(s0) + FlatTrees(m[..mLen])
  {
    hide *;
    s := s0;
    ghost var ts := m[..mLen];
    NoTrees();
    assert ts[..0] == [] && ts[..mLen] == ts;
    for i := 0 to mLen
      invariant SeqOk(s, level) && FlatSeq(s) == FlatSeq(s0) + FlatTrees(ts[..i])
    {
      TreeIn(ts, i, level);
      LastTrees(ts, i + 1);
      assert m[i] == ts[i];
      s := PushBack(s, m[i], level);
    }
  }

  lemma AppendParts<T>(l: seq<T>, a: seq<T>, x: seq<T>, m: seq<T>, y: seq<T>, b: seq<T>, r: seq<T>)
    ensures l + (a + (x + m + y) + b) + r == (l + a + x) + m + (y + b + r)
  {
  }

  /** Appends two sequences with the trees of the buffer between them. */
  method SeqAppend(s: Seq, m: array<Tree>, mLen: nat, t: Seq, ghost level: nat) returns (u: Seq)
    requires m.Length == 4 && mLen <= 4 && SeqOk(s, level) && SeqOk(t, level) && TreesOk(m[..mLen], level)
    modifies m
    ensures SeqOk(u, level) && FlatSeq(u) == FlatSeq(s) + FlatTrees(old(m[..mLen])) + FlatSeq(t)
    decreases s
  {
    hide *;
    EmptyOk(level);
    if !s.Deep? {
      u := PushAllFront(t, m, mLen, level);
      if s.Single? {
        SingleParts(s, level);
        u := PushFront(u, s.t0, level);
      }
    } else if !t.Deep? {
      u := PushAllBack(s, m, mLen, level);
      if t.Single? {
        SingleParts(t, level);
        u := PushBack(u, t.t0, level);
      }
    } else {
      DeepParts(s, level);
      DeepParts(t, level);
      ghost var ms := m[..mLen];
      var mLen' := AppendMiddle(s.r, m, mLen, t.l, level);
      var v := SeqAppend(s.m, m, mLen', t.m, level + 1);
      u := NewDeep(s.l, v, t.r, level);
      AppendParts(FlatDig(s.l), FlatSeq(s.m), FlatDig(s.r), FlatTrees(ms), FlatDig(t.l), FlatSeq(t.m), FlatDig(t.r));
    }
  }

  /** `_seq_append` is concatenation. */
  method Append(s: Seq, t: Seq) returns (u: Seq)
    requires SeqOk(s, 0) && SeqOk(t, 0)
    ensures SeqOk(u, 0) && FlatSeq(u) == FlatSeq(s) + FlatSeq(t)
  {
    hide *;
    var m := new Tree[4](_ => Leaf(Frag(0, 0)));
    assert m[..0] == [];
    NoTrees();
    NoTreesOk(0);
    u := SeqAppend(s, m, 0, t, 0);
  }

  lemma NoTreesOk(level: nat)
    ensures TreesOk([], level)
  {
  }

  // ----- lookup -----

  datatype Spot = Spot(frag: Frag, inner: nat)

  /** The fragment that holds element `idx`, and the position inside it. */
  function Find(fs: seq<Frag>, idx: nat): (r: Option<Spot>)
    ensures r.Some? <==> idx < Total(fs)
    ensures r.Some? ==> r.value.inner < r.value.frag.len && r.value.frag in fs
  {
    if fs == [] then None
    else if idx < fs[0].len then Some(Spot(fs[0], idx))
    else Find(fs[1..], idx - fs[0].len)
  }

  lemma {:induction false} FindAppend(a: seq<Frag>, b: seq<Frag>, idx: nat)
    ensures Total(a + b) == Total(a) + Total(b)
    ensures Find(a + b, idx) == if idx < Total(a) then Find(a, idx) else Find(b, idx - Total(a))
  {
    TotalAppend(a, b);
    if a == [] {
      assert a + b == b;
    } else {
      assert (a + b)[1..] == a[1..] + b;
      TotalAppend(a[1..], b);
      if idx >= a[0].len {
        FindAppend(a[1..], b, idx - a[0].len);
      }
    }
  }

  lemma FindLeaf(t: Tree, idx: nat)
    requires t.Leaf?
    ensures Find(FlatTree(t), idx) == if idx < t.frag.len then Some(Spot(t.frag, idx)) else None
    ensures Total(FlatTree(t)) == t.frag.len
  {
    assert FlatTree(t)[1..] == [];
  }

  lemma FindNode(t: Tree, level: nat, idx: nat)
    requires TreeOk(t, level) && !t.Leaf?
    ensures level > 0 && TreeOk(t.t0, level - 1) && TreeOk(t.t1, level - 1) && (t.Node3? ==> TreeOk(t.t2, level - 1))
    ensures var n := TreeLength(t.t0);
            && (idx < n ==> Find(FlatTree(t), idx) == Find(FlatTree(t.t0), idx))
            && (idx >= n && t.Node2? ==> Find(FlatTree(t), idx) == Find(FlatTree(t.t1), idx - n))
            && (idx >= n && t.Node3? ==>
                  var k := TreeLength(t.t1);
                  Find(FlatTree(t), idx)
                  == if idx - n < k then Find(FlatTree(t.t1), idx - n) else Find(FlatTree(t.t2), idx - n - k))
  {
    hide *;
    NodeParts(t, level);
    TreeTotal(t.t0, level - 1);
    TreeTotal(t.t1, level - 1);
    if t.Node2? {
      FindAppend(FlatTree(t.t0), FlatTree(t.t1), idx);
    } else {
      FindAppend(FlatTree(t.t0) + FlatTree(t.t1), FlatTree(t.t2), idx);
      FindAppend(FlatTree(t.t0), FlatTree(t.t1), idx);
    }
  }

  lemma TreeTotal(t: Tree, level: nat)
    requires TreeOk(t, level)
    ensures TreeLength(t) == Total(FlatTree(t))
  {
  }

  /** Walks down from a tree, leaving earlier subtrees behind. */
  method TreeLookup(t0: Tree, idx0: nat, ghost level0: nat) returns (r: Option<Spot>)
    requires TreeOk(t0, level0)
    ensures r == Find(FlatTree(t0), idx0)
  {
    hide *;
    var t, idx: nat := t0, idx0;
    ghost var level := level0;
    while !t.Leaf?
      invariant TreeOk(t, level) && Find(FlatTree(t), idx) == Find(FlatTree(t0), idx0)
      decreases t
    {
      FindNode(t, level, idx);
      level := level - 1;
      var len := TreeLength(t.t0);
      if idx < len {
        t := t.t0;
      } else {
        idx := idx - len;
        if t.Node2? {
          t := t.t1;
        } else {
          len := TreeLength(t.t1);
          if idx < len {
            t := t.t1;
          } else {
            idx := idx - len;
            t := t.t2;
          }
        }
      }
    }
    FindLeaf(t, idx);
    r := if idx < t.frag.len then Some(Spot(t.frag, idx)) else None;
  }

  lemma {:induction false} FindTrees(ts: seq<Tree>, level: nat, idx: nat)
    requires TreesOk(ts, level)
    ensures Find(FlatTrees(ts), idx)
         == if ts == [] then None
            else if idx < TreeLength(ts[0]) then Find(FlatTree(ts[0]), idx)
            else Find(FlatTrees(ts[1..]), idx - TreeLength(ts[0]))
  {
    if ts != [] {
      TreeIn(ts, 0, level);
      TreeTotal(ts[0], level);
      FindAppend(FlatTree(ts[0]), FlatTrees(ts[1..]), idx);
    }
    hide TreeOk, TreesOk;
  }

  lemma FindRest(ts: seq<Tree>, i: nat, level: nat, idx: nat)
    requires TreesOk(ts, level) && i < |ts|
    ensures i + 1 == |ts| ==> Find(FlatTrees(ts[i..]), idx) == Find(FlatTree(ts[i]), idx)
    ensures i + 1 < |ts| ==>
              Find(FlatTrees(ts[i..]), idx)
              == if idx < TreeLength(ts[i]) then Find(FlatTree(ts[i]), idx)
                 else Find(FlatTrees(ts[i + 1..]), idx - TreeLength(ts[i]))
  {
    hide *;
    TreesTail(ts, i, level);
    FindTrees(ts[i..], level, idx);
    assert ts[i..][1..] == ts[i + 1..] && ts[i..][0] == ts[i];
    if i + 1 == |ts| {
      FlatOne(ts[i]);
      assert ts[i..] == [ts[i]];
    }
  }

  lemma TreesTail(ts: seq<Tree>, i: nat, level: nat)
    requires TreesOk(ts, level) && i <= |ts|
    ensures TreesOk(ts[i..], level)
  {
    hide TreeOk;
  }

  method DigLookup(d: Dig, idx0: nat, ghost level: nat) returns (r: Option<Spot>)
    requires DigOk(d, level)
    ensures r == Find(FlatDig(d), idx0)
  {
    hide *;
    DigParts(d, level);
    ghost var ts := Trees(d);
    assert ts[0..] == ts;
    var idx: nat := idx0;
    FindRest(ts, 0, level, idx);
    var len := TreeLength(d.t0);
    if d.Dig1? || idx < len {
      r := TreeLookup(d.t0, idx, level);
      return;
    }
    idx := idx - len;
    FindRest(ts, 1, level, idx);
    len := TreeLength(d.t1);
    if d.Dig2? || idx < len {
      r := TreeLookup(d.t1, idx, level);
      return;
    }
    idx := idx - len;
    FindRest(ts, 2, level, idx);
    len := TreeLength(d.t2);
    if d.Dig3? || idx < len {
      r := TreeLookup(d.t2, idx, level);
      return;
    }
    idx := idx - len;
    FindRest(ts, 3, level, idx);
    r := TreeLookup(d.t3, idx, level);
  }

  lemma FindDeep(s: Seq, level: nat, idx: nat)
    requires SeqOk(s, level) && s.Deep?
    ensures Find(FlatSeq(s), idx)
         == if idx < s.l.len then Find(FlatDig(s.l), idx)
            else if idx - s.l.len < SeqLength(s.m) then Find(FlatSeq(s.m), idx - s.l.len)
            else Find(FlatDig(s.r), idx - s.l.len - SeqLength(s.m))
  {
    hide *;
    DeepParts(s, level);
    FindAppend(FlatDig(s.l) + FlatSeq(s.m), FlatDig(s.r), idx);
    FindAppend(FlatDig(s.l), FlatSeq(s.m), idx);
  }

  lemma FindNone(idx: nat)
    ensures Find([], idx) == None
  {
  }

  /** `_seq_lookup`: the fragment and position of every element, an error exactly out of range. */
  method SeqLookup(s0: Seq, idx0: nat) returns (r: Option<Spot>)
    requires SeqOk(s0, 0)
    ensures r == Find(FlatSeq(s0), idx0)
  {
    hide *;
    var s, idx: nat := s0, idx0;
    ghost var level := 0;
    while s.Deep?
      invariant SeqOk(s, level) && Find(FlatSeq(s), idx) == Find(FlatSeq(s0), idx0)
      decreases s
    {
      DeepParts(s, level);
      FindDeep(s, level, idx);
      var len := s.l.len;
      if idx < len {
        r := DigLookup(s.l, idx, level);
        return;
      }
      idx := idx - len;
      len := SeqLength(s.m);
      if idx >= len {
        idx := idx - len;
        r := DigLookup(s.r, idx, level);
        return;
      }
      s := s.m;
      level := level + 1;
    }
    if s.Nil? {
      EmptyOk(level);
      FindNone(idx);
      return None;
    }
    SingleParts(s, level);
    TreeTotal(s.t0, level);
    if idx < s.len {
      r := TreeLookup(s.t0, idx, level);
    } else {
      FoundInside(FlatTree(s.t0), idx);
      r := None;
    }
  }

  lemma FoundInside(fs: seq<Frag>, idx: nat)
    ensures Find(fs, idx).Some? <==> idx < Total(fs)
  {
  }

  /** Splitting finds what looking up finds. */
  lemma SplitFinds(flat: seq<Frag>, l: seq<Frag>, f: Frag, r: seq<Frag>, idx0: nat, idx: nat)
    requires flat == l + [f] + r && idx0 == Total(l) + idx && idx < f.len
    ensures Find(flat, idx0) == Some(Spot(f, idx))
  {
    assert [f][1..] == [];
    FindAppend(l + [f], r, idx0);
    FindAppend(l, [f], idx0);
    assert Find([f], idx) == Some(Spot(f, idx)) && Total([f]) == f.len;
  }
}
