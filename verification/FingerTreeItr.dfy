/** The iterator that caches the path from the root to the fragment it stands on. */
module FingerTreeItr {
  import opened Wrappers
  import opened FingerTree
  import opened FingerTreeOps

  datatype Node = SeqNode(s: Seq) | DigNode(d: Dig) | TreeNode(t: Tree)

  /** A node on the path and the index of its first element. */
  datatype Entry = Entry(node: Node, offset: nat)

  function Length(n: Node): nat {
    match n
    case SeqNode(s) => SeqLength(s)
    case DigNode(d) => d.len
    case TreeNode(t) => TreeLength(t)
  }

  function Flat(n: Node): seq<Frag> {
    match n
    case SeqNode(s) => FlatSeq(s)
    case DigNode(d) => FlatDig(d)
    case TreeNode(t) => FlatTree(t)
  }

  ghost predicate Cached(n: Node) {
    match n
    case SeqNode(s) => SeqCached(s)
    case DigNode(d) => DigCached(d)
    case TreeNode(t) => TreeCached(t)
  }

  function TreeNodes(ts: seq<Tree>): (r: seq<Node>)
    ensures |r| == |ts| && forall i :: 0 <= i < |r| ==> r[i] == TreeNode(ts[i])
  {
    seq(|ts|, i requires 0 <= i < |ts| => TreeNode(ts[i]))
  }

  /** The nodes right below a node, in order. */
  function Kids(n: Node): seq<Node> {
    match n
    case SeqNode(Nil) => []
    case SeqNode(Single(_, t)) => [TreeNode(t)]
    case SeqNode(Deep(_, l, m, r)) => [DigNode(l), SeqNode(m), DigNode(r)]
    case DigNode(d) => TreeNodes(Trees(d))
    case TreeNode(Leaf(_)) => []
    case TreeNode(Node2(_, t0, t1)) => [TreeNode(t0), TreeNode(t1)]
    case TreeNode(Node3(_, t0, t1, t2)) => [TreeNode(t0), TreeNode(t1), TreeNode(t2)]
  }

  function FlatAll(ns: seq<Node>): seq<Frag> {
    if ns == [] then [] else Flat(ns[0]) + FlatAll(ns[1..])
  }

  function LengthAll(ns: seq<Node>): nat {
    if ns == [] then 0 else Length(ns[0]) + LengthAll(ns[1..])
  }

  lemma {:induction false} FlatTreeNodes(ts: seq<Tree>)
    ensures FlatAll(TreeNodes(ts)) == FlatTrees(ts)
  {
    if ts != [] {
      FlatTreeNodes(ts[1..]);
      assert TreeNodes(ts)[1..] == TreeNodes(ts[1..]);
    }
  }

  lemma Flat1(a: Node)
    ensures FlatAll([a]) == Flat(a)
  {
    assert [a][1..] == [];
  }

  lemma Flat2(a: Node, b: Node)
    ensures FlatAll([a, b]) == Flat(a) + Flat(b)
  {
    hide Flat;
    assert [a, b][1..] == [b];
    Flat1(b);
  }

  lemma Flat3(a: Node, b: Node, c: Node)
    ensures FlatAll([a, b, c]) == Flat(a) + Flat(b) + Flat(c)
  {
    hide Flat;
    assert [a, b, c][1..] == [b, c];
    Flat2(b, c);
  }

  /** A node stands for what its kids stand for. */
  lemma KidsFlat(n: Node)
    requires Kids(n) != []
    ensures Flat(n) == FlatAll(Kids(n))
  {
    hide FlatAll, FlatTrees;
    match n
    case SeqNode(Single(_, t)) => Flat1(TreeNode(t));
    case SeqNode(Deep(_, l, m, r)) => Flat3(DigNode(l), SeqNode(m), DigNode(r));
    case DigNode(d) => FlatTreeNodes(Trees(d));
    case TreeNode(Node2(_, t0, t1)) => Flat2(TreeNode(t0), TreeNode(t1));
    case TreeNode(Node3(_, t0, t1, t2)) => Flat3(TreeNode(t0), TreeNode(t1), TreeNode(t2));
    case _ =>
  }

  lemma KidsCached(n: Node)
    requires Cached(n)
    ensures Length(n) == Total(Flat(n)) && forall k :: k in Kids(n) ==> Cached(k)
  {
    hide Total, FlatTree, FlatSeq, FlatTrees;
  }

  // ----- one step down -----

  /** The first of some siblings that ends behind the index, or the last of them. */
  function Pick(kids: seq<Node>, lo: nat, idx: nat): Entry
    requires kids != []
  {
    var hi := lo + Length(kids[0]);
    if |kids| == 1 || idx < hi then Entry(kids[0], lo) else Pick(kids[1..], hi, idx)
  }

  /** `e'` is a kid of `e` at its place. */
  ghost predicate IsKid(e: Entry, e': Entry) {
    exists i :: KidAt(e, e', i)
  }

  ghost predicate KidAt(e: Entry, e': Entry, i: nat) {
    i < |Kids(e.node)| && e'.node == Kids(e.node)[i] && e'.offset == e.offset + LengthAll(Kids(e.node)[..i])
  }

  lemma {:induction false} LengthAppend(a: seq<Node>, b: seq<Node>)
    ensures LengthAll(a + b) == LengthAll(a) + LengthAll(b)
  {
    hide Length;
    if a == [] {
      assert a + b == b;
    } else {
      assert (a + b)[1..] == a[1..] + b;
      LengthAppend(a[1..], b);
    }
  }

  lemma {:induction false} FlatAllAppend(a: seq<Node>, b: seq<Node>)
    ensures FlatAll(a + b) == FlatAll(a) + FlatAll(b)
  {
    hide Flat;
    if a == [] {
      assert a + b == b;
    } else {
      assert (a + b)[1..] == a[1..] + b;
      FlatAllAppend(a[1..], b);
    }
  }

  lemma {:induction false} LengthIsTotal(ns: seq<Node>)
    requires forall n :: n in ns ==> Cached(n)
    ensures LengthAll(ns) == Total(FlatAll(ns))
  {
    hide Flat, Length, Cached;
    if ns != [] {
      KidsCached(ns[0]);
      LengthIsTotal(ns[1..]);
      TotalAppend(Flat(ns[0]), FlatAll(ns[1..]));
    }
  }

  /** The picked sibling, with what lies before it; it covers the index if any of them does. */
  lemma {:induction false} PickIs(kids: seq<Node>, lo: nat, idx: nat) returns (i: nat)
    requires kids != [] && lo <= idx
    ensures i < |kids| && Pick(kids, lo, idx) == Entry(kids[i], lo + LengthAll(kids[..i]))
    ensures lo + LengthAll(kids[..i]) <= idx
    ensures idx < lo + LengthAll(kids) ==> idx < lo + LengthAll(kids[..i]) + Length(kids[i])
    ensures idx >= lo + LengthAll(kids) ==> i == |kids| - 1
  {
    hide Length;
    if |kids| == 1 || idx < lo + Length(kids[0]) {
      i := 0;
      assert kids[..0] == [];
      assert |kids| == 1 ==> kids[1..] == [];
    } else {
      var j := PickIs(kids[1..], lo + Length(kids[0]), idx);
      i := j + 1;
      assert kids[..i][1..] == kids[1..][..j];
    }
  }

  // ----- places -----

  /** The node's fragments lie in `flat` behind `offset` elements. */
  ghost predicate Placed(flat: seq<Frag>, e: Entry) {
    exists i :: PlacedAt(flat, e, i)
  }

  ghost predicate PlacedAt(flat: seq<Frag>, e: Entry, i: nat) {
    i + |Flat(e.node)| <= |flat| && flat[i..i + |Flat(e.node)|] == Flat(e.node) && Total(flat[..i]) == e.offset
  }

  lemma KidSplit(kids: seq<Node>, k: nat)
    requires k < |kids| && forall n :: n in kids ==> Cached(n)
    ensures FlatAll(kids) == FlatAll(kids[..k]) + Flat(kids[k]) + FlatAll(kids[k + 1..])
    ensures LengthAll(kids) == LengthAll(kids[..k]) + Length(kids[k]) + LengthAll(kids[k + 1..])
    ensures LengthAll(kids[..k]) == Total(FlatAll(kids[..k])) && LengthAll(kids) == Total(FlatAll(kids))
  {
    hide Flat, Cached, Length, Total;
    var one := [kids[k]];
    assert kids == kids[..k] + one + kids[k + 1..];
    FlatAllAppend(kids[..k] + one, kids[k + 1..]);
    FlatAllAppend(kids[..k], one);
    LengthAppend(kids[..k] + one, kids[k + 1..]);
    LengthAppend(kids[..k], one);
    Flat1(kids[k]);
    Length1(kids[k]);
    LengthIsTotal(kids[..k]);
    LengthIsTotal(kids);
  }

  lemma Length1(a: Node)
    ensures LengthAll([a]) == Length(a)
  {
    assert [a][1..] == [];
  }

  lemma Slice<T>(flat: seq<T>, i: nat, a: seq<T>, b: seq<T>, c: seq<T>)
    requires i + |a + b + c| <= |flat| && flat[i..i + |a + b + c|] == a + b + c
    ensures var j := i + |a|; j + |b| <= |flat| && flat[j..j + |b|] == b && flat[..j] == flat[..i] + a
  {
    var part, j := flat[i..i + |a + b + c|], i + |a|;
    assert forall k :: 0 <= k < |part| ==> flat[i + k] == part[k];
    assert part[|a|..|a| + |b|] == b && part[..|a|] == a;
    assert flat[j..j + |b|] == part[|a|..|a| + |b|];
    assert flat[..j] == flat[..i] + part[..|a|];
  }

  lemma SlicePlaced(flat: seq<Frag>, e: Entry, i: nat, e': Entry, a: seq<Frag>, c: seq<Frag>)
    requires PlacedAt(flat, e, i) && Flat(e.node) == a + Flat(e'.node) + c && e'.offset == e.offset + Total(a)
    ensures Placed(flat, e')
  {
    hide Flat;
    Slice(flat, i, a, Flat(e'.node), c);
    TotalAppend(flat[..i], a);
    assert PlacedAt(flat, e', i + |a|);
  }

  lemma KidPlaced(flat: seq<Frag>, e: Entry, e': Entry)
    requires Cached(e.node) && Placed(flat, e) && IsKid(e, e')
    ensures Cached(e'.node) && Placed(flat, e')
    ensures e.offset <= e'.offset && e'.offset + Length(e'.node) <= e.offset + Length(e.node)
  {
    var i: nat :| PlacedAt(flat, e, i);
    var k: nat :| KidAt(e, e', k);
    var kids := Kids(e.node);
    hide Flat, Kids, Cached, Length, Total, PlacedAt, Placed, FlatAll, LengthAll;
    KidsFlat(e.node);
    KidsCached(e.node);
    KidSplit(kids, k);
    SlicePlaced(flat, e, i, e', FlatAll(kids[..k]), FlatAll(kids[k + 1..]));
  }

  lemma {:induction false} NonEmptyTree(t: Tree, level: int, f: Frag)
    requires TreeVerify(t, level) && f in FlatTree(t)
    ensures f.len != 0
  {
    match t
    case Leaf(_) =>
    case Node2(_, t0, t1) => if f in FlatTree(t0) { NonEmptyTree(t0, level - 1, f); } else { NonEmptyTree(t1, level - 1, f); }
    case Node3(_, t0, t1, t2) =>
      if f in FlatTree(t0) {
        NonEmptyTree(t0, level - 1, f);
      } else if f in FlatTree(t1) {
        NonEmptyTree(t1, level - 1, f);
      } else {
        NonEmptyTree(t2, level - 1, f);
      }
  }

  lemma {:induction false} NonEmptyTrees(ts: seq<Tree>, level: int, f: Frag)
    requires (forall t :: t in ts ==> TreeVerify(t, level)) && f in FlatTrees(ts)
    ensures f.len != 0
  {
    hide TreeVerify, FlatTree;
    if f in FlatTree(ts[0]) {
      NonEmptyTree(ts[0], level, f);
    } else {
      NonEmptyTrees(ts[1..], level, f);
    }
  }

  lemma {:induction false} NonEmptySeq(s: Seq, level: int, f: Frag)
    requires SeqVerify(s, level) && f in FlatSeq(s)
    ensures f.len != 0
  {
    hide TreeVerify, FlatTree, FlatTrees;
    match s
    case Single(_, t) => NonEmptyTree(t, level, f);
    case Deep(_, l, m, r) =>
      if f in FlatDig(l) {
        NonEmptyTrees(Trees(l), level, f);
      } else if f in FlatSeq(m) {
        NonEmptySeq(m, level + 1, f);
      } else {
        NonEmptyTrees(Trees(r), level, f);
      }
    case Nil =>
  }

  // ----- the depth of the path -----

  /** `seq_depth`. */
  function DepthFrom(s: Seq, level: nat): nat {
    match s
    case Nil => 2 * level + 1
    case Single(_, _) => 2 * level + 2
    case Deep(_, _, m, _) => DepthFrom(m, level + 1)
  }

  method SeqDepth(s0: Seq) returns (depth: nat)
    ensures depth == DepthFrom(s0, 0)
  {
    var s, level := s0, 0;
    while s.Deep?
      invariant DepthFrom(s, level) == DepthFrom(s0, 0)
      decreases s
    {
      level := level + 1;
      s := s.m;
    }
    depth := if s.Nil? then 2 * level + 1 else 2 * level + 2;
  }

  function Max(a: nat, b: nat): nat {
    if a < b then b else a
  }

  function TreeHeight(t: Tree): nat {
    match t
    case Leaf(_) => 1
    case Node2(_, t0, t1) => 1 + Max(TreeHeight(t0), TreeHeight(t1))
    case Node3(_, t0, t1, t2) => 1 + Max(TreeHeight(t0), Max(TreeHeight(t1), TreeHeight(t2)))
  }

  function DigHeight(d: Dig): nat {
    match d
    case Dig1(_, t0) => 1 + TreeHeight(t0)
    case Dig2(_, t0, t1) => 1 + Max(TreeHeight(t0), TreeHeight(t1))
    case Dig3(_, t0, t1, t2) => 1 + Max(TreeHeight(t0), Max(TreeHeight(t1), TreeHeight(t2)))
    case Dig4(_, t0, t1, t2, t3) =>
      1 + Max(Max(TreeHeight(t0), TreeHeight(t1)), Max(TreeHeight(t2), TreeHeight(t3)))
  }

  function SeqHeight(s: Seq): nat {
    match s
    case Nil => 1
    case Single(_, t) => 1 + TreeHeight(t)
    case Deep(_, l, m, r) => 1 + Max(SeqHeight(m), Max(DigHeight(l), DigHeight(r)))
  }

  /** The number of nodes on the longest path down from a node. */
  function Height(n: Node): nat {
    match n
    case SeqNode(s) => SeqHeight(s)
    case DigNode(d) => DigHeight(d)
    case TreeNode(t) => TreeHeight(t)
  }

  lemma KidsLower(n: Node, k: Node)
    requires k in Kids(n)
    ensures Height(k) < Height(n)
  {
    hide SeqHeight;
    match n
    case SeqNode(s) => SeqKidsLower(s, k);
    case DigNode(d) =>
      var i :| 0 <= i < |Trees(d)| && TreeNode(Trees(d)[i]) == k;
    case TreeNode(_) =>
  }

  lemma SeqKidsLower(s: Seq, k: Node)
    requires k in Kids(SeqNode(s))
    ensures Height(k) < SeqHeight(s)
  {
    hide TreeHeight, DigHeight;
  }

  lemma {:induction false} TreeHeightIs(t: Tree, level: nat)
    requires TreeVerify(t, level)
    ensures TreeHeight(t) == level + 1
  {
    match t
    case Leaf(_) =>
    case Node2(_, t0, t1) =>
      VerifiedLevel(t, level);
      TreeHeightIs(t0, level - 1);
      TreeHeightIs(t1, level - 1);
    case Node3(_, t0, t1, t2) =>
      VerifiedLevel(t, level);
      TreeHeightIs(t0, level - 1);
      TreeHeightIs(t1, level - 1);
      TreeHeightIs(t2, level - 1);
  }

  lemma DigHeightIs(d: Dig, level: nat)
    requires DigVerify(d, level)
    ensures DigHeight(d) == level + 2
  {
    forall t | t in Trees(d) ensures TreeHeight(t) == level + 1 {
      TreeHeightIs(t, level);
    }
    hide TreeHeight, TreeVerify;
    assert d.t0 in Trees(d);
  }

  lemma {:induction false} DepthAtLeast(s: Seq, level: nat)
    ensures DepthFrom(s, level) >= 2 * level + 1
    decreases s
  {
    if s.Deep? {
      DepthAtLeast(s.m, level + 1);
    }
  }

  /** No path from the root of a valid sequence is longer than the depth computed for it. */
  lemma {:induction false} HeightBounded(s: Seq, level: nat)
    requires SeqVerify(s, level)
    ensures level + SeqHeight(s) <= DepthFrom(s, level)
    decreases s
  {
    match s
    case Nil =>
    case Single(_, t) => TreeHeightIs(t, level);
    case Deep(_, l, m, r) =>
      DigHeightIs(l, level);
      DigHeightIs(r, level);
      HeightBounded(m, level + 1);
      DepthAtLeast(m, level + 1);
  }

  // ----- paths -----

  /** From the root, each entry a kid of the one before. */
  ghost predicate Path(root: Seq, path: seq<Entry>) {
    && path != [] && path[0] == Entry(SeqNode(root), 0)
    && forall k :: 0 <= k < |path| - 1 ==> IsKid(path[k], path[k + 1])
  }

  lemma KidIsKid(e: Entry, e': Entry)
    requires IsKid(e, e')
    ensures e'.node in Kids(e.node)
  {
    hide Kids, LengthAll;
  }

  lemma RootPlaced(root: Seq)
    requires SeqCached(root)
    ensures Placed(FlatSeq(root), Entry(SeqNode(root), 0)) && Cached(SeqNode(root))
  {
    var flat := FlatSeq(root);
    assert flat[0..|flat|] == flat && flat[..0] == [];
    assert PlacedAt(flat, Entry(SeqNode(root), 0), 0);
  }

  /** Every entry of a path stands at its place, inside the one before, and the path stays short. */
  lemma {:induction false} PathSound(root: Seq, path: seq<Entry>, k: nat)
    requires SeqOk(root, 0) && Path(root, path) && k < |path|
    ensures Cached(path[k].node) && Placed(FlatSeq(root), path[k]) && k + Height(path[k].node) <= DepthFrom(root, 0)
    ensures k > 0 ==>
              path[k - 1].offset <= path[k].offset
              && path[k].offset + Length(path[k].node) <= path[k - 1].offset + Length(path[k - 1].node)
  {
    hide Placed, IsKid, Cached, FlatSeq, SeqHeight, Length, Kids;
    if k == 0 {
      RootCached(root);
      RootPlaced(root);
      HeightBounded(root, 0);
    } else {
      PathSound(root, path, k - 1);
      assert IsKid(path[k - 1], path[k - 1 + 1]);
      KidPlaced(FlatSeq(root), path[k - 1], path[k]);
      KidIsKid(path[k - 1], path[k]);
      KidsLower(path[k - 1].node, path[k].node);
    }
  }

  lemma RootCached(root: Seq)
    requires SeqOk(root, 0)
    ensures SeqCached(root) && SeqVerify(root, 0) && Height(SeqNode(root)) == SeqHeight(root)
  {
    hide SeqCached, SeqVerify, SeqHeight;
  }

  /** The entry covers the index, or ends the sequence when the index is behind its end. */
  ghost predicate Covers(flat: seq<Frag>, e: Entry, idx: nat) {
    && e.offset <= idx
    && (if idx < Total(flat) then idx < e.offset + Length(e.node) else e.offset + Length(e.node) == Total(flat))
  }

  lemma RootCovers(root: Seq, idx: nat)
    requires SeqCached(root)
    ensures Covers(FlatSeq(root), Entry(SeqNode(root), 0), idx)
  {
    hide FlatSeq;
    assert SeqLength(root) == Total(FlatSeq(root));
  }

  /** Going down keeps to the path and to the index. */
  lemma StepDown(flat: seq<Frag>, e: Entry, idx: nat)
    requires Cached(e.node) && Placed(flat, e) && Covers(flat, e, idx) && Kids(e.node) != []
    ensures var e' := Pick(Kids(e.node), e.offset, idx); IsKid(e, e') && Covers(flat, e', idx)
  {
    var kids := Kids(e.node);
    KidsFlat(e.node);
    KidsCached(e.node);
    LengthIsTotal(kids);
    var i := PickIs(kids, e.offset, idx);
    var e' := Pick(kids, e.offset, idx);
    hide Kids, Flat, Length, Cached, Total, Pick, Placed, FlatAll;
    assert KidAt(e, e', i);
    assert kids == kids[..i] + kids[i..];
    LengthAppend(kids[..i], kids[i..]);
    assert i == |kids| - 1 ==> kids[i..] == [kids[i]];
    assert LengthAll([kids[i]]) == Length(kids[i]) by { assert [kids[i]][1..] == []; }
    PlacedEnd(flat, e);
  }

  lemma PlacedEnd(flat: seq<Frag>, e: Entry)
    requires Cached(e.node) && Placed(flat, e)
    ensures e.offset + Length(e.node) <= Total(flat)
  {
    var i: nat :| PlacedAt(flat, e, i);
    KidsCached(e.node);
    hide Flat, Length, Cached, Total;
    var n := |Flat(e.node)|;
    assert flat == flat[..i] + flat[i..i + n] + flat[i + n..];
    TotalAppend(flat[..i] + flat[i..i + n], flat[i + n..]);
    TotalAppend(flat[..i], flat[i..i + n]);
  }

  lemma LastTotal(flat: seq<Frag>, i: nat)
    requires i < |flat| && (forall f :: f in flat ==> f.len != 0) && Total(flat[..i + 1]) == Total(flat)
    ensures i == |flat| - 1
  {
    assert flat == flat[..i + 1] + flat[i + 1..];
    TotalAppend(flat[..i + 1], flat[i + 1..]);
    TotalPositive(flat[i + 1..]);
  }

  lemma TotalPositive(fs: seq<Frag>)
    requires forall f :: f in fs ==> f.len != 0
    ensures fs == [] || Total(fs) > 0
  {
    if fs != [] {
      assert fs[0] in fs;
    }
  }

  /** At a fragment that covers the index: it is the one lookup finds, or the last of the sequence. */
  lemma LeafReached(flat: seq<Frag>, e: Entry, idx: nat, f: Frag)
    requires e.node == TreeNode(Leaf(f)) && Cached(e.node) && Placed(flat, e) && Covers(flat, e, idx)
    requires forall g :: g in flat ==> g.len != 0
    ensures idx < Total(flat) ==> Find(flat, idx) == Some(Spot(f, idx - e.offset))
    ensures idx >= Total(flat) ==> flat != [] && f == flat[|flat| - 1] && e.offset == Total(flat) - f.len
  {
    var i: nat :| PlacedAt(flat, e, i);
    assert Flat(e.node) == [f] && Length(e.node) == f.len;
    hide Find, Placed, Cached;
    assert flat == flat[..i] + [f] + flat[i + 1..] && flat[i] == f;
    if idx < Total(flat) {
      SplitFinds(flat, flat[..i], f, flat[i + 1..], idx, idx - e.offset);
    } else {
      assert flat[..i + 1] == flat[..i] + [f];
      TotalAppend(flat[..i], [f]);
      assert [f][1..] == [];
      assert Total([f]) == f.len;
      LastTotal(flat, i);
    }
  }

  /** Where the iterator stands: what lookup finds, or behind the end the last fragment with the
      position counted on from its start. */
  ghost function Standing(flat: seq<Frag>, idx: nat): Option<Spot> {
    if idx < Total(flat) then Find(flat, idx)
    else if flat == [] then None
    else
      var f := flat[|flat| - 1];
      if f.len <= Total(flat) then Some(Spot(f, idx - (Total(flat) - f.len))) else None
  }

  lemma StandingIs(flat: seq<Frag>, e: Entry, idx: nat, f: Frag)
    requires e.node == TreeNode(Leaf(f)) && Cached(e.node) && Placed(flat, e) && Covers(flat, e, idx)
    requires forall g :: g in flat ==> g.len != 0
    ensures e.offset <= idx && Standing(flat, idx) == Some(Spot(f, idx - e.offset))
  {
    LeafReached(flat, e, idx, f);
    hide Find, Placed, Cached, Total;
  }

  lemma NoKids(n: Node)
    requires Kids(n) == []
    ensures n == SeqNode(Nil) || (n.TreeNode? && n.t.Leaf?)
  {
  }

  /** The walk never goes into an empty middle sequence. */
  lemma PickNotNil(n: Node, lo: nat, idx: nat)
    requires Kids(n) != [] && lo <= idx
    ensures Pick(Kids(n), lo, idx).node != SeqNode(Nil)
  {
    var i := PickIs(Kids(n), lo, idx);
    hide Pick;
  }

  // ----- the iterator -----

  /** Indexes into a fragment and the fragment itself, as `*itr` and its index pointer give them. */
  class SeqItr {
    const root: Seq
    /** The element stood on; moved freely. */
    var idx: nat
    /** How many entries of the stack are in use; none before the first access. */
    var ptr: nat
    var stack: array?<Entry>

    /** The entries in use are a path from the root, in a stack allocated for the depth of the sequence. */
    ghost predicate Valid()
      reads this, stack
    {
      && SeqOk(root, 0)
      && (ptr > 0 ==>
            && stack != null && stack.Length == DepthFrom(root, 0) && ptr <= stack.Length
            && Path(root, stack[..ptr]) && forall k :: 0 < k < ptr ==> stack[k].node != SeqNode(Nil))
    }

    /** `begin` and `end`. */
    constructor (s: Seq, atEnd: bool)
      requires SeqOk(s, 0)
      ensures Valid() && root == s && idx == (if atEnd then SeqLength(s) else 0) && ptr == 0 && stack == null
    {
      root := s;
      idx := if atEnd then SeqLength(s) else 0;
      ptr := 0;
      stack := null;
    }

    method MoveTo(i: nat)
      requires Valid()
      modifies this`idx
      ensures Valid() && idx == i
    {
      idx := i;
    }

    /** `seq_itr_move`: drops entries that do not reach the index, down to the root at most. */
    method Move()
      requires Valid()
      modifies this`ptr, this`stack
      ensures Valid() && ptr > 0 && (stack == old(stack) || fresh(stack))
      ensures Covers(FlatSeq(root), stack[ptr - 1], idx)
    {
      hide DepthFrom, SeqOk, FlatSeq, Height, Covers, Length;
      if ptr == 0 {
        var depth := SeqDepth(root);
        DepthAtLeast(root, 0);
        stack := new Entry[depth](_ => Entry(SeqNode(root), 0));
        ptr := 1;
        StartsPath(root, stack[..1]);
      } else {
        while ptr > 1 && !(stack[ptr - 1].offset <= idx < stack[ptr - 1].offset + Length(stack[ptr - 1].node))
          invariant Valid() && 1 <= ptr <= old(ptr) && stack == old(stack)
          decreases ptr
        {
          assert stack[..ptr][..ptr - 1] == stack[..ptr - 1];
          PathPrefix(root, stack[..ptr], ptr - 1);
          ptr := ptr - 1;
        }
      }
      if ptr == 1 {
        PathRoot(root, stack[..ptr]);
        RootCached(root);
        RootCovers(root, idx);
      } else {
        PathSound(root, stack[..ptr], ptr - 1);
        InsideCovers(FlatSeq(root), stack[ptr - 1], idx);
      }
    }

    /** `_seq_itr_get`: the fragment that lookup finds and the position in it; behind the end the last
        fragment; nothing exactly for the empty sequence. The stack never outgrows its allocation. */
    method Get() returns (r: Option<Spot>)
      requires Valid()
      modifies this`ptr, this`stack, stack
      ensures Valid() && ptr <= DepthFrom(root, 0) && (stack == old(stack) || fresh(stack))
      ensures r == Standing(FlatSeq(root), idx)
    {
      hide *;
      ValidMeans();
      Move();
      ValidMeans();
      while Kids(stack[ptr - 1].node) != []
        invariant Valid() && ptr > 0 && stack != null && ptr <= stack.Length && (stack == old(stack) || fresh(stack))
        invariant Covers(FlatSeq(root), stack[ptr - 1], idx)
        decreases Height(stack[ptr - 1].node)
      {
        var e := stack[ptr - 1];
        ghost var path := stack[..ptr];
        ValidMeans();
        PathSound(root, path, ptr - 1);
        StepDown(FlatSeq(root), e, idx);
        CoversMeans(FlatSeq(root), e, idx);
        PickNotNil(e.node, e.offset, idx);
        var e' := Pick(Kids(e.node), e.offset, idx);
        KidIsKid(e, e');
        KidsLower(e.node, e'.node);
        HeightPositive(e'.node);
        stack[ptr] := e';
        ptr := ptr + 1;
        PathExtended(root, path, e');
        assert stack[..ptr] == path + [e'];
        BecomesValid();
      }
      var e := stack[ptr - 1];
      ValidMeans();
      NoKids(e.node);
      if e.node == SeqNode(Nil) {
        PathRoot(root, stack[..ptr]);
        EmptyStanding(root, idx);
        return None;
      }
      PathSound(root, stack[..ptr], ptr - 1);
      NonEmptyRoot(root);
      TreeLeaf(e.node);
      StandingIs(FlatSeq(root), e, idx, e.node.t.frag);
      r := Some(Spot(e.node.t.frag, idx - e.offset));
    }

    lemma ValidMeans()
      requires Valid()
      ensures SeqOk(root, 0)
      ensures ptr > 0 ==>
                && stack != null && stack.Length == DepthFrom(root, 0) && ptr <= stack.Length
                && Path(root, stack[..ptr]) && (forall k :: 0 < k < ptr ==> stack[k].node != SeqNode(Nil))
    {
      hide SeqOk, DepthFrom, Path;
    }

    lemma BecomesValid()
      requires SeqOk(root, 0) && ptr > 0 && stack != null && stack.Length == DepthFrom(root, 0) && ptr <= stack.Length
      requires Path(root, stack[..ptr]) && forall k :: 0 < k < ptr ==> stack[k].node != SeqNode(Nil)
      ensures Valid()
    {
      hide SeqOk, DepthFrom, Path;
    }
  }

  lemma StartsPath(root: Seq, path: seq<Entry>)
    requires path == [Entry(SeqNode(root), 0)]
    ensures Path(root, path)
  {
  }

  lemma PathPrefix(root: Seq, path: seq<Entry>, n: nat)
    requires Path(root, path) && 0 < n <= |path|
    ensures Path(root, path[..n])
  {
    hide IsKid;
  }

  lemma PathRoot(root: Seq, path: seq<Entry>)
    requires Path(root, path)
    ensures path[0] == Entry(SeqNode(root), 0)
  {
    hide IsKid;
  }

  lemma PathExtended(root: Seq, path: seq<Entry>, e: Entry)
    requires Path(root, path) && IsKid(path[|path| - 1], e)
    ensures Path(root, path + [e])
  {
    hide IsKid;
  }

  lemma InsideCovers(flat: seq<Frag>, e: Entry, idx: nat)
    requires Cached(e.node) && Placed(flat, e) && e.offset <= idx < e.offset + Length(e.node)
    ensures Covers(flat, e, idx)
  {
    PlacedEnd(flat, e);
    hide Placed, Cached, Total, Length;
  }

  lemma CoversMeans(flat: seq<Frag>, e: Entry, idx: nat)
    requires Covers(flat, e, idx)
    ensures e.offset <= idx
  {
    hide Length, Total;
  }

  lemma HeightPositive(n: Node)
    ensures Height(n) >= 1
  {
    match n
    case SeqNode(s) => assert SeqHeight(s) >= 1;
    case DigNode(d) => assert DigHeight(d) >= 1;
    case TreeNode(t) => assert TreeHeight(t) >= 1;
  }

  lemma EmptyStanding(root: Seq, idx: nat)
    requires root == Nil
    ensures Standing(FlatSeq(root), idx) == None
  {
  }

  lemma NonEmptyRoot(root: Seq)
    requires SeqOk(root, 0)
    ensures forall f :: f in FlatSeq(root) ==> f.len != 0
  {
    forall f | f in FlatSeq(root) ensures f.len != 0 {
      NonEmptySeq(root, 0, f);
    }
  }

  lemma TreeLeaf(n: Node)
    requires Kids(n) == [] && n != SeqNode(Nil)
    ensures n.TreeNode? && n.t.Leaf? && n == TreeNode(Leaf(n.t.frag))
  {
    NoKids(n);
  }

  /** Whatever in-range indexes an iterator is moved to, one after the other, it finds there what
      looking each of them up from the root finds. */
  method Visit(s: Seq, indexes: seq<nat>) returns (spots: seq<Option<Spot>>)
    requires SeqOk(s, 0) && forall i :: i in indexes ==> i < SeqLength(s)
    ensures |spots| == |indexes| && forall k :: 0 <= k < |indexes| ==> spots[k] == Find(FlatSeq(s), indexes[k])
  {
    hide Find, FlatSeq, SeqVerify, Path, DepthFrom;
    var itr := new SeqItr(s, false);
    spots := [];
    for i := 0 to |indexes|
      invariant itr.Valid() && itr.root == s && (itr.stack == null || fresh(itr.stack)) && fresh(itr)
      invariant |spots| == i && forall k :: 0 <= k < i ==> spots[k] == Find(FlatSeq(s), indexes[k])
    {
      itr.MoveTo(indexes[i]);
      assert indexes[i] in indexes;
      var r := itr.Get();
      LengthTotal(s);
      spots := spots + [r];
    }
  }

  lemma LengthTotal(s: Seq)
    requires SeqOk(s, 0)
    ensures SeqLength(s) == Total(FlatSeq(s))
  {
    hide FlatSeq, SeqVerify;
  }

  /** The iterator agrees with lookup exactly inside the sequence: behind the end of a sequence that is
      not empty it gives the last fragment where lookup gives an error. */
  lemma StandingIffInside(s: Seq, idx: nat)
    requires SeqOk(s, 0) && FlatSeq(s) != []
    ensures Standing(FlatSeq(s), idx) == Find(FlatSeq(s), idx) <==> idx < SeqLength(s)
  {
    LengthTotal(s);
    NonEmptyRoot(s);
    var flat := FlatSeq(s);
    LastFits(flat);
    hide FlatSeq, SeqOk, SeqLength;
  }

  lemma {:induction false} LastFits(flat: seq<Frag>)
    requires flat != []
    ensures flat[|flat| - 1].len <= Total(flat)
  {
    if |flat| > 1 {
      LastFits(flat[1..]);
    }
  }
}
