/** Persistent sequences as finger trees of fragments: nodes, their invariant, and pushing. */
module FingerTree {

  /** A fragment stands for `len` consecutive elements. */
  datatype Frag = Frag(data: int, len: nat)

  datatype Tree = Leaf(frag: Frag) | Node2(len: nat, t0: Tree, t1: Tree) | Node3(len: nat, t0: Tree, t1: Tree, t2: Tree)

  datatype Dig =
    | Dig1(len: nat, t0: Tree)
    | Dig2(len: nat, t0: Tree, t1: Tree)
    | Dig3(len: nat, t0: Tree, t1: Tree, t2: Tree)
    | Dig4(len: nat, t0: Tree, t1: Tree, t2: Tree, t3: Tree)

  datatype Seq = Nil | Single(len: nat, t0: Tree) | Deep(len: nat, l: Dig, m: Seq, r: Dig)

  function TreeLength(t: Tree): nat {
    match t
    case Leaf(f) => f.len
    case _ => t.len
  }

  function SeqLength(s: Seq): nat {
    if s.Nil? then 0 else s.len
  }

  // ----- the sequence a node stands for -----

  function FlatTree(t: Tree): seq<Frag> {
    match t
    case Leaf(f) => [f]
    case Node2(_, t0, t1) => FlatTree(t0) + FlatTree(t1)
    case Node3(_, t0, t1, t2) => FlatTree(t0) + FlatTree(t1) + FlatTree(t2)
  }

  function Trees(d: Dig): (r: seq<Tree>)
    ensures 1 <= |r| <= 4
  {
    match d
    case Dig1(_, t0) => [t0]
    case Dig2(_, t0, t1) => [t0, t1]
    case Dig3(_, t0, t1, t2) => [t0, t1, t2]
    case Dig4(_, t0, t1, t2, t3) => [t0, t1, t2, t3]
  }

  function FlatTrees(ts: seq<Tree>): seq<Frag> {
    if ts == [] then [] else FlatTree(ts[0]) + FlatTrees(ts[1..])
  }

  function FlatDig(d: Dig): seq<Frag> {
    FlatTrees(Trees(d))
  }

  function FlatSeq(s: Seq): seq<Frag> {
    match s
    case Nil => []
    case Single(_, t) => FlatTree(t)
    case Deep(_, l, m, r) => FlatDig(l) + FlatSeq(m) + FlatDig(r)
  }

  /** The number of elements of a list of fragments. */
  function Total(fs: seq<Frag>): nat {
    if fs == [] then 0 else fs[0].len + Total(fs[1..])
  }

  lemma {:induction false} TotalAppend(a: seq<Frag>, b: seq<Frag>)
    ensures Total(a + b) == Total(a) + Total(b)
  {
    if a == [] {
      assert a + b == b;
    } else {
      assert (a + b)[1..] == a[1..] + b;
      TotalAppend(a[1..], b);
    }
  }

  lemma {:induction false} FlatTreesAppend(a: seq<Tree>, b: seq<Tree>)
    ensures FlatTrees(a + b) == FlatTrees(a) + FlatTrees(b)
  {
    if a == [] {
      assert a + b == b;
    } else {
      assert (a + b)[1..] == a[1..] + b;
      FlatTreesAppend(a[1..], b);
    }
  }

  // ----- the invariant -----

  /** `tree_verify`: a perfect tree of the level, with no empty fragment. */
  predicate TreeVerify(t: Tree, level: int) {
    match t
    case Leaf(f) => f.len != 0 && level == 0
    case Node2(_, t0, t1) => TreeVerify(t0, level - 1) && TreeVerify(t1, level - 1)
    case Node3(_, t0, t1, t2) => TreeVerify(t0, level - 1) && TreeVerify(t1, level - 1) && TreeVerify(t2, level - 1)
  }

  predicate DigVerify(d: Dig, level: int) {
    forall t :: t in Trees(d) ==> TreeVerify(t, level)
  }

  predicate SeqVerify(s: Seq, level: int) {
    match s
    case Nil => true
    case Single(_, t) => TreeVerify(t, level)
    case Deep(_, l, m, r) => DigVerify(l, level) && SeqVerify(m, level + 1) && DigVerify(r, level)
  }

  /** Every node caches the number of elements below it. */
  ghost predicate TreeCached(t: Tree) {
    TreeLength(t) == Total(FlatTree(t))
    && match t
       case Leaf(_) => true
       case Node2(_, t0, t1) => TreeCached(t0) && TreeCached(t1)
       case Node3(_, t0, t1, t2) => TreeCached(t0) && TreeCached(t1) && TreeCached(t2)
  }

  ghost predicate DigCached(d: Dig) {
    d.len == Total(FlatDig(d)) && forall t :: t in Trees(d) ==> TreeCached(t)
  }

  ghost predicate SeqCached(s: Seq) {
    SeqLength(s) == Total(FlatSeq(s))
    && match s
       case Nil => true
       case Single(_, t) => TreeCached(t)
       case Deep(_, l, m, r) => DigCached(l) && SeqCached(m) && DigCached(r)
  }

  ghost predicate TreeOk(t: Tree, level: nat) { TreeVerify(t, level) && TreeCached(t) }

  ghost predicate DigOk(d: Dig, level: nat) { DigVerify(d, level) && DigCached(d) }

  ghost predicate SeqOk(s: Seq, level: nat) { SeqVerify(s, level) && SeqCached(s) }

  ghost predicate TreesOk(ts: seq<Tree>, level: nat) {
    forall t :: t in ts ==> TreeOk(t, level)
  }

  /** No valid tree is empty. */
  lemma {:induction false} TreeNotEmpty(t: Tree, level: nat)
    requires TreeOk(t, level)
    ensures FlatTree(t) != [] && TreeLength(t) > 0
  {
    if !t.Leaf? {
      VerifiedLevel(t, level);
      TreeNotEmpty(t.t0, level - 1);
      if t.Node2? {
        TotalAppend(FlatTree(t.t0), FlatTree(t.t1));
      } else {
        TotalAppend(FlatTree(t.t0), FlatTree(t.t1));
        TotalAppend(FlatTree(t.t0) + FlatTree(t.t1), FlatTree(t.t2));
      }
    }
  }

  /** A node's level is positive, so its children have one below. */
  lemma {:induction false} VerifiedLevel(t: Tree, level: int)
    requires TreeVerify(t, level)
    ensures level >= 0 && (!t.Leaf? ==> level > 0)
  {
    if !t.Leaf? {
      VerifiedLevel(t.t0, level - 1);
    }
  }

  // ----- node constructors -----

  function NewNode2(t0: Tree, t1: Tree, ghost level: nat): (r: Tree)
    requires TreeOk(t0, level) && TreeOk(t1, level)
    ensures TreeOk(r, level + 1) && FlatTree(r) == FlatTrees([t0, t1]) && r.Node2? && r.t0 == t0 && r.t1 == t1
  {
    TotalAppend(FlatTree(t0), FlatTree(t1));
    FlatTwo(t0, t1);
    Node2(TreeLength(t0) + TreeLength(t1), t0, t1)
  }

  function NewNode3(t0: Tree, t1: Tree, t2: Tree, ghost level: nat): (r: Tree)
    requires TreeOk(t0, level) && TreeOk(t1, level) && TreeOk(t2, level)
    ensures TreeOk(r, level + 1) && FlatTree(r) == FlatTrees([t0, t1, t2])
    ensures r.Node3? && r.t0 == t0 && r.t1 == t1 && r.t2 == t2
  {
    TotalAppend(FlatTree(t0), FlatTree(t1));
    TotalAppend(FlatTree(t0) + FlatTree(t1), FlatTree(t2));
    FlatThree(t0, t1, t2);
    Node3(TreeLength(t0) + TreeLength(t1) + TreeLength(t2), t0, t1, t2)
  }

  lemma FlatCons(t: Tree, ts: seq<Tree>)
    ensures FlatTrees([t] + ts) == FlatTree(t) + FlatTrees(ts)
  {
    hide FlatTree;
    assert ([t] + ts)[1..] == ts;
  }

  lemma FlatNone()
    ensures FlatTrees([]) == []
  {
  }

  lemma FlatOne(t0: Tree)
    ensures FlatTrees([t0]) == FlatTree(t0)
  {
    hide *;
    FlatNone();
    FlatCons(t0, []);
    assert [t0] + [] == [t0];
  }

  lemma FlatTwo(t0: Tree, t1: Tree)
    ensures FlatTrees([t0, t1]) == FlatTree(t0) + FlatTree(t1)
  {
    hide *;
    FlatOne(t1);
    FlatCons(t0, [t1]);
    assert [t0] + [t1] == [t0, t1];
  }

  lemma FlatThree(t0: Tree, t1: Tree, t2: Tree)
    ensures FlatTrees([t0, t1, t2]) == FlatTree(t0) + FlatTree(t1) + FlatTree(t2)
  {
    hide *;
    FlatTwo(t1, t2);
    FlatCons(t0, [t1, t2]);
    assert [t0] + [t1, t2] == [t0, t1, t2];
  }

  lemma FlatFour(t0: Tree, t1: Tree, t2: Tree, t3: Tree)
    ensures FlatTrees([t0, t1, t2, t3]) == FlatTree(t0) + FlatTree(t1) + FlatTree(t2) + FlatTree(t3)
  {
    hide *;
    FlatThree(t1, t2, t3);
    FlatCons(t0, [t1, t2, t3]);
    assert [t0] + [t1, t2, t3] == [t0, t1, t2, t3];
  }

  function NewDig1(t0: Tree, ghost level: nat): (r: Dig)
    requires TreeOk(t0, level)
    ensures DigOk(r, level) && Trees(r) == [t0] && FlatDig(r) == FlatTrees([t0])
  {
    FlatOne(t0);
    Dig1(TreeLength(t0), t0)
  }

  function NewDig2(t0: Tree, t1: Tree, ghost level: nat): (r: Dig)
    requires TreeOk(t0, level) && TreeOk(t1, level)
    ensures DigOk(r, level) && Trees(r) == [t0, t1] && FlatDig(r) == FlatTrees([t0, t1])
  {
    FlatTwo(t0, t1);
    TotalAppend(FlatTree(t0), FlatTree(t1));
    Dig2(TreeLength(t0) + TreeLength(t1), t0, t1)
  }

  function NewDig3(t0: Tree, t1: Tree, t2: Tree, ghost level: nat): (r: Dig)
    requires TreeOk(t0, level) && TreeOk(t1, level) && TreeOk(t2, level)
    ensures DigOk(r, level) && Trees(r) == [t0, t1, t2] && FlatDig(r) == FlatTrees([t0, t1, t2])
  {
    FlatThree(t0, t1, t2);
    TotalAppend(FlatTree(t0), FlatTree(t1));
    TotalAppend(FlatTree(t0) + FlatTree(t1), FlatTree(t2));
    Dig3(TreeLength(t0) + TreeLength(t1) + TreeLength(t2), t0, t1, t2)
  }

  function NewDig4(t0: Tree, t1: Tree, t2: Tree, t3: Tree, ghost level: nat): (r: Dig)
    requires TreeOk(t0, level) && TreeOk(t1, level) && TreeOk(t2, level) && TreeOk(t3, level)
    ensures DigOk(r, level) && Trees(r) == [t0, t1, t2, t3] && FlatDig(r) == FlatTrees([t0, t1, t2, t3])
  {
    FlatFour(t0, t1, t2, t3);
    TotalAppend(FlatTree(t0), FlatTree(t1));
    TotalAppend(FlatTree(t0) + FlatTree(t1), FlatTree(t2));
    TotalAppend(FlatTree(t0) + FlatTree(t1) + FlatTree(t2), FlatTree(t3));
    Dig4(TreeLength(t0) + TreeLength(t1) + TreeLength(t2) + TreeLength(t3), t0, t1, t2, t3)
  }

  function NewSingle(t0: Tree, ghost level: nat): (r: Seq)
    requires TreeOk(t0, level)
    ensures SeqOk(r, level) && FlatSeq(r) == FlatTree(t0) && r.Single? && r.t0 == t0
  {
    Single(TreeLength(t0), t0)
  }

  function NewDeep(l: Dig, m: Seq, r: Dig, ghost level: nat): (s: Seq)
    requires DigOk(l, level) && SeqOk(m, level + 1) && DigOk(r, level)
    ensures SeqOk(s, level) && FlatSeq(s) == FlatDig(l) + FlatSeq(m) + FlatDig(r)
    ensures s.Deep? && s.l == l && s.m == m && s.r == r
  {
    TotalAppend(FlatDig(l), FlatSeq(m));
    TotalAppend(FlatDig(l) + FlatSeq(m), FlatDig(r));
    Deep(l.len + SeqLength(m) + r.len, l, m, r)
  }

  lemma EmptyOk(level: nat)
    ensures SeqOk(Nil, level) && FlatSeq(Nil) == []
  {
  }

  /** What a valid node is made of. */
  lemma DeepParts(s: Seq, level: nat)
    requires SeqOk(s, level) && s.Deep?
    ensures DigOk(s.l, level) && SeqOk(s.m, level + 1) && DigOk(s.r, level)
    ensures FlatSeq(s) == FlatDig(s.l) + FlatSeq(s.m) + FlatDig(s.r)
    ensures s.len == s.l.len + SeqLength(s.m) + s.r.len
    ensures s.len == Total(FlatSeq(s)) && s.l.len == Total(FlatDig(s.l)) && SeqLength(s.m) == Total(FlatSeq(s.m))
    ensures s.r.len == Total(FlatDig(s.r))
  {
    TotalAppend(FlatDig(s.l), FlatSeq(s.m));
    TotalAppend(FlatDig(s.l) + FlatSeq(s.m), FlatDig(s.r));
  }

  lemma SingleParts(s: Seq, level: nat)
    requires SeqOk(s, level) && s.Single?
    ensures TreeOk(s.t0, level) && FlatSeq(s) == FlatTree(s.t0) && s.len == TreeLength(s.t0)
  {
  }

  lemma DigParts(d: Dig, level: nat)
    requires DigOk(d, level)
    ensures TreesOk(Trees(d), level) && d.len == Total(FlatDig(d)) && FlatDig(d) == FlatTrees(Trees(d))
    ensures TreeOk(d.t0, level) && (!d.Dig1? ==> TreeOk(d.t1, level))
    ensures (d.Dig3? || d.Dig4? ==> TreeOk(d.t2, level)) && (d.Dig4? ==> TreeOk(d.t3, level))
    ensures d.Dig1? ==> Trees(d) == [d.t0]
    ensures d.Dig2? ==> Trees(d) == [d.t0, d.t1]
    ensures d.Dig3? ==> Trees(d) == [d.t0, d.t1, d.t2]
    ensures d.Dig4? ==> Trees(d) == [d.t0, d.t1, d.t2, d.t3]
  {
    assert d.t0 in Trees(d);
  }

  lemma NodeParts(t: Tree, level: nat)
    requires TreeOk(t, level) && !t.Leaf?
    ensures level > 0 && TreeOk(t.t0, level - 1) && TreeOk(t.t1, level - 1) && (t.Node3? ==> TreeOk(t.t2, level - 1))
    ensures t.Node2? ==> FlatTree(t) == FlatTree(t.t0) + FlatTree(t.t1)
    ensures t.Node3? ==> FlatTree(t) == FlatTree(t.t0) + FlatTree(t.t1) + FlatTree(t.t2)
  {
    VerifiedLevel(t, level);
  }

  lemma LeafLevel(t: Tree, level: nat)
    requires TreeOk(t, level)
    ensures t.Leaf? <==> level == 0
  {
    VerifiedLevel(t, level);
  }

  // ----- conversion -----

  lemma Regroup<T>(a: seq<T>, b: seq<T>, c: seq<T>, d: seq<T>)
    ensures (a + b) + c + d == a + (b + c + d)
    ensures a + b + (c + d) == a + b + c + d
    ensures a + (b + c) + d == a + b + c + d
  {
  }

  function TreeToDig(t: Tree, ghost level: nat): (d: Dig)
    requires TreeOk(t, level + 1)
    ensures DigOk(d, level) && FlatDig(d) == FlatTree(t)
  {
    hide *;
    LeafLevel(t, level + 1);
    NodeParts(t, level + 1);
    match t
    case Node2(_, t0, t1) =>
      FlatTwo(t0, t1);
      NewDig2(t0, t1, level)
    case Node3(_, t0, t1, t2) =>
      FlatThree(t0, t1, t2);
      NewDig3(t0, t1, t2, level)
  }

  /** Splitting the trees of a digit in two digits. */
  lemma SplitTrees(d: Dig, a: seq<Tree>, b: seq<Tree>)
    requires Trees(d) == a + b
    ensures FlatDig(d) == FlatTrees(a) + FlatTrees(b) && FlatTrees(a) + FlatSeq(Nil) + FlatTrees(b) == FlatDig(d)
  {
    hide Trees, FlatTrees, FlatSeq;
    EmptyFlat();
    FlatTreesAppend(a, b);
  }

  lemma EmptyFlat()
    ensures FlatSeq(Nil) == []
  {
  }

  function DigToSeq(d: Dig, ghost level: nat): (s: Seq)
    requires DigOk(d, level)
    ensures SeqOk(s, level) && FlatSeq(s) == FlatDig(d)
  {
    hide *;
    DigParts(d, level);
    EmptyOk(level + 1);
    match d
    case Dig1(_, t0) =>
      FlatOne(t0);
      NewSingle(t0, level)
    case Dig2(_, t0, t1) =>
      SplitTrees(d, [t0], [t1]);
      NewDeep(NewDig1(t0, level), Nil, NewDig1(t1, level), level)
    case Dig3(_, t0, t1, t2) =>
      SplitTrees(d, [t0, t1], [t2]);
      NewDeep(NewDig2(t0, t1, level), Nil, NewDig1(t2, level), level)
    case Dig4(_, t0, t1, t2, t3) =>
      SplitTrees(d, [t0, t1], [t2, t3]);
      NewDeep(NewDig2(t0, t1, level), Nil, NewDig2(t2, t3, level), level)
  }

  // ----- pushing -----

  lemma PushedTrees(t: Tree, d: Dig)
    ensures FlatTrees([t] + Trees(d)) == FlatTree(t) + FlatDig(d)
    ensures FlatTrees(Trees(d) + [t]) == FlatDig(d) + FlatTree(t)
  {
    FlatTreesAppend([t], Trees(d));
    FlatTreesAppend(Trees(d), [t]);
    FlatOne(t);
  }

  /** A digit with one tree more in front. */
  function DigPushFront(t: Tree, d: Dig, ghost level: nat): (r: Dig)
    requires TreeOk(t, level) && DigOk(d, level) && !d.Dig4?
    ensures DigOk(r, level) && FlatDig(r) == FlatTree(t) + FlatDig(d)
  {
    hide *;
    DigParts(d, level);
    PushedTrees(t, d);
    match d
    case Dig1(_, t0) =>
      assert [t] + [t0] == [t, t0];
      NewDig2(t, t0, level)
    case Dig2(_, t0, t1) =>
      assert [t] + [t0, t1] == [t, t0, t1];
      NewDig3(t, t0, t1, level)
    case Dig3(_, t0, t1, t2) =>
      assert [t] + [t0, t1, t2] == [t, t0, t1, t2];
      NewDig4(t, t0, t1, t2, level)
  }

  function DigPushBack(d: Dig, t: Tree, ghost level: nat): (r: Dig)
    requires TreeOk(t, level) && DigOk(d, level) && !d.Dig4?
    ensures DigOk(r, level) && FlatDig(r) == FlatDig(d) + FlatTree(t)
  {
    hide *;
    DigParts(d, level);
    PushedTrees(t, d);
    match d
    case Dig1(_, t0) =>
      assert [t0] + [t] == [t0, t];
      NewDig2(t0, t, level)
    case Dig2(_, t0, t1) =>
      assert [t0, t1] + [t] == [t0, t1, t];
      NewDig3(t0, t1, t, level)
    case Dig3(_, t0, t1, t2) =>
      assert [t0, t1, t2] + [t] == [t0, t1, t2, t];
      NewDig4(t0, t1, t2, t, level)
  }

  /** Five or six trees divided over two lists. */
  lemma Divided(ts: seq<Tree>, a: seq<Tree>, b: seq<Tree>, t: Tree, d: Dig)
    requires a + b == ts
    ensures ts == [t] + Trees(d) ==> FlatTrees(a) + FlatTrees(b) == FlatTree(t) + FlatDig(d)
    ensures ts == Trees(d) + [t] ==> FlatTrees(a) + FlatTrees(b) == FlatDig(d) + FlatTree(t)
  {
    FlatTreesAppend(a, b);
    PushedTrees(t, d);
  }

  lemma FrontCarry(t: Tree, d: Dig)
    requires d.Dig4?
    ensures FlatTrees([t, d.t0]) + FlatTrees([d.t1, d.t2, d.t3]) == FlatTree(t) + FlatDig(d)
  {
    Divided([t] + Trees(d), [t, d.t0], [d.t1, d.t2, d.t3], t, d);
  }

  lemma BackCarry(d: Dig, t: Tree)
    requires d.Dig4?
    ensures FlatTrees([d.t0, d.t1, d.t2]) + FlatTrees([d.t3, t]) == FlatDig(d) + FlatTree(t)
  {
    Divided(Trees(d) + [t], [d.t0, d.t1, d.t2], [d.t3, t], t, d);
  }

  lemma FourTrees(d: Dig)
    requires d.Dig4?
    ensures Trees(d) == [d.t0, d.t1, d.t2, d.t3]
  {
  }

  lemma FrontShift(t: Tree, d: Dig, e: Tree)
    requires d.Dig4?
    ensures var fs := FlatTrees([t, d.t0, d.t1]) + [] + FlatTrees([d.t2, d.t3, e]);
            fs == FlatTree(t) + (FlatDig(d) + [] + FlatTree(e)) && fs == FlatTree(t) + [] + FlatDig(d) + FlatTree(e)
  {
    hide *;
    FlatTreesAppend([t, d.t0, d.t1], [d.t2, d.t3, e]);
    FlatTreesAppend([t] + Trees(d), [e]);
    PushedTrees(t, d);
    FlatOne(e);
    FourTrees(d);
    var a, b := FlatTrees([t, d.t0, d.t1]), FlatTrees([d.t2, d.t3, e]);
    var x, y, z := FlatTree(t), FlatDig(d), FlatTree(e);
    assert a + [] + b == a + b;
    assert x + (y + [] + z) == x + y + z && x + [] + y + z == x + y + z;
    assert [t, d.t0, d.t1] + [d.t2, d.t3, e] == [t] + Trees(d) + [e];
  }

  /** Pushing in front puts the tree's fragments in front, and keeps the invariant. */
  function PushFront(s: Seq, t: Tree, ghost level: nat): (r: Seq)
    requires SeqOk(s, level) && TreeOk(t, level)
    ensures SeqOk(r, level) && FlatSeq(r) == FlatTree(t) + FlatSeq(s) && !r.Nil?
    decreases s
  {
    hide *;
    EmptyOk(level + 1);
    EmptyOk(level);
    FlatOne(t);
    match s
    case Nil => NewSingle(t, level)
    case Single(_, t0) =>
      SingleParts(s, level);
      FlatOne(t0);
      NewDeep(NewDig1(t, level), Nil, NewDig1(t0, level), level)
    case Deep(_, l, m, d) =>
      DeepParts(s, level);
      Regroup(FlatTree(t), FlatDig(l), FlatSeq(m), FlatDig(d));
      if !l.Dig4? then NewDeep(DigPushFront(t, l, level), m, d, level)
      else
        DigParts(l, level);
        if m.Nil? && d.Dig1? then
          DigParts(d, level);
          FrontShift(t, l, d.t0);
          FlatOne(d.t0);
          NewDeep(NewDig3(t, l.t0, l.t1, level), Nil, NewDig3(l.t2, l.t3, d.t0, level), level)
        else
          FrontCarry(t, l);
          var nt := NewNode3(l.t1, l.t2, l.t3, level);
          Regroup(FlatTrees([t, l.t0]), FlatTree(nt), FlatSeq(m), FlatDig(d));
          NewDeep(NewDig2(t, l.t0, level), PushFront(m, nt, level + 1), d, level)
  }

  /** Pushing at the back puts the tree's fragments at the end, and keeps the invariant. */
  function PushBack(s: Seq, t: Tree, ghost level: nat): (r: Seq)
    requires SeqOk(s, level) && TreeOk(t, level)
    ensures SeqOk(r, level) && FlatSeq(r) == FlatSeq(s) + FlatTree(t) && !r.Nil?
    decreases s
  {
    hide *;
    EmptyOk(level + 1);
    EmptyOk(level);
    FlatOne(t);
    match s
    case Nil => NewSingle(t, level)
    case Single(_, t0) =>
      SingleParts(s, level);
      FlatOne(t0);
      NewDeep(NewDig1(t0, level), Nil, NewDig1(t, level), level)
    case Deep(_, l, m, d) =>
      DeepParts(s, level);
      Regroup(FlatDig(l), FlatSeq(m), FlatDig(d), FlatTree(t));
      if !d.Dig4? then NewDeep(l, m, DigPushBack(d, t, level), level)
      else
        DigParts(d, level);
        if m.Nil? && l.Dig1? then
          DigParts(l, level);
          FrontShift(l.t0, d, t);
          FlatOne(l.t0);
          NewDeep(NewDig3(l.t0, d.t0, d.t1, level), Nil, NewDig3(d.t2, d.t3, t, level), level)
        else
          BackCarry(d, t);
          var nt := NewNode3(d.t0, d.t1, d.t2, level);
          Regroup(FlatDig(l), FlatSeq(m), FlatTree(nt), FlatTrees([d.t3, t]));
          NewDeep(l, PushBack(m, nt, level + 1), NewDig2(d.t3, t, level), level)
  }
}
