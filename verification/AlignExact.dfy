/** Where the items of an initialiser land: a nested literal starts at a multiple of its sub-array's size
    and takes up the whole of it. */
module AlignExact {
  import opened Words
  import opened Wrappers
  import opened SemanticTypes
  import opened Ast
  import opened ArrayAlign

  // ----- where items should land -----

  ghost predicate LeastMultiple(at: int, base: int, x: int) {
    Multiple(at, base) && x <= at && forall m :: Multiple(m, base) && x <= m ==> at <= m
  }

  lemma LeastMultipleExists(base: int, x: nat)
    requires base > 0
    ensures exists at :: LeastMultiple(at, base, x)
  {
    RoundUpIsLeast(x, base);
    assert LeastMultiple(RoundUp(x, base), base, x);
  }

  ghost function LeastMultipleOf(base: int, x: nat): (at: nat)
    requires base > 0
    ensures LeastMultiple(at, base, x)
  {
    LeastMultipleExists(base, x);
    hide Multiple;
    var at :| LeastMultiple(at, base, x);
    at
  }

  lemma RoundUpOnly(x: nat, base: int)
    requires base > 0
    ensures RoundUp(x, base) == LeastMultipleOf(base, x)
  {
    RoundUpIsLeast(x, base);
  }

  lemma NestedPart(items: seq<Item>, strides: seq<int>, i: nat)
    requires Nested(items, strides) && i < |items|
    ensures Nested(items[..i], strides)
    ensures items[i].Arr? ==> |strides| > 0 && strides[0] > 0 && Nested(items[i].items, strides[1..])
  {
    assert items[i] in items;
  }

  /** The offset from which item `i` of a level may start: an expression takes one element, a nested literal
      one stride from where it stands. */
  ghost function StartOf(items: seq<Item>, strides: seq<int>, i: nat): nat
    requires Nested(items, strides) && i <= |items|
  {
    if i == 0 then 0
    else
      NestedPart(items, strides, i - 1);
      if items[i - 1].Exp? then StartOf(items, strides, i - 1) + 1
      else LeastMultipleOf(strides[0], StartOf(items, strides, i - 1)) + strides[0]
  }

  /** Where item `i` stands: a nested literal at the least multiple of the stride. */
  ghost function StandsAt(items: seq<Item>, strides: seq<int>, i: nat): nat
    requires Nested(items, strides) && i < |items|
  {
    NestedPart(items, strides, i);
    if items[i].Exp? then StartOf(items, strides, i) else LeastMultipleOf(strides[0], StartOf(items, strides, i))
  }

  /** Item indices that lead through the braces to an expression. */
  predicate IsPath(items: seq<Item>, path: seq<nat>) {
    && path != [] && path[0] < |items|
    && match items[path[0]]
       case Exp(_) => |path| == 1
       case Arr(inner) => IsPath(inner, path[1..])
  }

  function Reached(items: seq<Item>, path: seq<nat>): Expr
    requires IsPath(items, path)
  {
    match items[path[0]]
    case Exp(e) => e
    case Arr(inner) => Reached(inner, path[1..])
  }

  /** The element where the expression at the end of the path belongs. */
  ghost function Landing(items: seq<Item>, strides: seq<int>, path: seq<nat>): nat
    requires Nested(items, strides) && IsPath(items, path)
  {
    NestedPart(items, strides, path[0]);
    match items[path[0]]
    case Exp(_) => StandsAt(items, strides, path[0])
    case Arr(inner) => StandsAt(items, strides, path[0]) + Landing(inner, strides[1..], path[1..])
  }

  // ----- where they do land -----

  lemma {:induction false} StartInPrefix(items: seq<Item>, strides: seq<int>, n: nat, i: nat)
    requires Nested(items, strides) && i <= n < |items|
    ensures Nested(items[..n], strides) && StartOf(items[..n], strides, i) == StartOf(items, strides, i)
  {
    NestedPart(items, strides, n);
    if i > 0 {
      StartInPrefix(items, strides, n, i - 1);
    }
  }

  lemma {:induction false} EndsAt(items: seq<Item>, strides: seq<int>)
    requires Nested(items, strides)
    ensures Align(items, strides).current == StartOf(items, strides, |items|)
    decreases items
  {
    if items != [] {
      var n := |items| - 1;
      NestedPart(items, strides, n);
      EndsAt(items[..n], strides);
      StartInPrefix(items, strides, n, n);
      if items[n].Arr? {
        RoundUpOnly(Align(items[..n], strides).current, strides[0]);
      }
    }
  }

  /** The entries of the last item. */
  ghost function LastEntries(items: seq<Item>, strides: seq<int>): seq<Alignment>
    requires Nested(items, strides) && items != []
  {
    var n: nat := |items| - 1;
    NestedPart(items, strides, n);
    match items[n]
    case Exp(e) => [Alignment(StandsAt(items, strides, n), e)]
    case Arr(inner) => Shift(Align(inner, strides[1..]).list, StandsAt(items, strides, n))
  }

  lemma AlignLast(items: seq<Item>, strides: seq<int>)
    requires Nested(items, strides) && items != []
    ensures Nested(items[..|items| - 1], strides)
    ensures Align(items, strides).list == Align(items[..|items| - 1], strides).list + LastEntries(items, strides)
  {
    var n := |items| - 1;
    NestedPart(items, strides, n);
    EndsAt(items[..n], strides);
    StartInPrefix(items, strides, n, n);
    if items[n].Arr? {
      RoundUpOnly(Align(items[..n], strides).current, strides[0]);
    }
  }

  /** The entry that belongs to a path. */
  ghost function EntryOf(items: seq<Item>, strides: seq<int>, path: seq<nat>): Alignment
    requires Nested(items, strides) && IsPath(items, path)
  {
    Alignment(Landing(items, strides, path), Reached(items, path))
  }

  lemma EntryInPrefix(items: seq<Item>, strides: seq<int>, n: nat, path: seq<nat>)
    requires Nested(items, strides) && n < |items|
    ensures Nested(items[..n], strides)
    ensures IsPath(items[..n], path) <==> IsPath(items, path) && path[0] < n
    ensures IsPath(items[..n], path) ==> EntryOf(items[..n], strides, path) == EntryOf(items, strides, path)
  {
    NestedPart(items, strides, n);
    if IsPath(items, path) && path[0] < n {
      StartInPrefix(items, strides, n, path[0]);
    }
    hide StartOf;
  }

  /** Every path has its entry in the aligned list. */
  lemma {:induction false} PathLands(items: seq<Item>, strides: seq<int>, path: seq<nat>)
    requires Nested(items, strides) && IsPath(items, path)
    ensures EntryOf(items, strides, path) in Align(items, strides).list
    decreases items
  {
    hide StartOf, StandsAt, Align;
    var n := |items| - 1;
    AlignLast(items, strides);
    NestedPart(items, strides, n);
    if path[0] < n {
      EntryInPrefix(items, strides, n, path);
      PathLands(items[..n], strides, path);
    } else if items[n].Arr? {
      var inner, at := items[n].items, StandsAt(items, strides, n);
      PathLands(inner, strides[1..], path[1..]);
      var list := Align(inner, strides[1..]).list;
      var k :| 0 <= k < |list| && list[k] == EntryOf(inner, strides[1..], path[1..]);
      assert Shift(list, at)[k] == EntryOf(items, strides, path);
    }
  }

  lemma LastPath(items: seq<Item>, strides: seq<int>, rest: seq<nat>)
    requires Nested(items, strides) && items != []
    ensures var n: nat := |items| - 1;
            && (items[n].Exp? ==> IsPath(items, [n]) && LastEntries(items, strides) == [EntryOf(items, strides, [n])])
            && (items[n].Arr? ==> |strides| > 0 && Nested(items[n].items, strides[1..]))
            && (items[n].Arr? && IsPath(items[n].items, rest) ==>
                  && IsPath(items, [n] + rest)
                  && EntryOf(items, strides, [n] + rest)
                     == var a := EntryOf(items[n].items, strides[1..], rest); Alignment(a.offset + StandsAt(items, strides, n), a.exp))
  {
    hide StartOf, StandsAt, Align;
    var n: nat := |items| - 1;
    NestedPart(items, strides, n);
    assert ([n] + rest)[1..] == rest;
  }

  lemma ShiftedFrom(items: seq<Item>, strides: seq<int>, a: Alignment) returns (inner: Alignment)
    requires Nested(items, strides) && items != [] && items[|items| - 1].Arr? && a in LastEntries(items, strides)
    ensures var n: nat := |items| - 1;
            && |strides| > 0 && Nested(items[n].items, strides[1..]) && inner in Align(items[n].items, strides[1..]).list
            && a == Alignment(inner.offset + StandsAt(items, strides, n), inner.exp)
  {
    hide StartOf, StandsAt, Align;
    var n: nat := |items| - 1;
    NestedPart(items, strides, n);
    var list := Align(items[n].items, strides[1..]).list;
    var k :| 0 <= k < |list| && Shift(list, StandsAt(items, strides, n))[k] == a;
    inner := list[k];
  }

  /** Every entry of the aligned list belongs to a path. */
  lemma {:induction false} EntryLanded(items: seq<Item>, strides: seq<int>, a: Alignment) returns (path: seq<nat>)
    requires Nested(items, strides) && a in Align(items, strides).list
    ensures IsPath(items, path) && EntryOf(items, strides, path) == a
    decreases items
  {
    AlignNone(strides);
    hide *;
    AlignLast(items, strides);
    var n: nat := |items| - 1;
    if a in Align(items[..n], strides).list {
      path := EntryLanded(items[..n], strides, a);
      EntryInPrefix(items, strides, n, path);
    } else if items[n].Arr? {
      var inner := ShiftedFrom(items, strides, a);
      var rest := EntryLanded(items[n].items, strides[1..], inner);
      path := [n] + rest;
      LastPath(items, strides, rest);
    } else {
      path := [n];
      LastPath(items, strides, []);
    }
  }

  lemma AlignNone(strides: seq<int>)
    ensures Nested([], strides) && Align([], strides).list == []
  {
  }

  /** The aligned list holds exactly the expressions of the initialiser, each at the element where it belongs. */
  lemma LandsExactly(items: seq<Item>, strides: seq<int>, a: Alignment)
    requires Nested(items, strides)
    ensures a in Align(items, strides).list <==> exists path :: IsPath(items, path) && EntryOf(items, strides, path) == a
  {
    hide EntryOf, Align, IsPath;
    if a in Align(items, strides).list {
      var path := EntryLanded(items, strides, a);
    }
    if exists path :: IsPath(items, path) && EntryOf(items, strides, path) == a {
      var path :| IsPath(items, path) && EntryOf(items, strides, path) == a;
      PathLands(items, strides, path);
    }
  }

  lemma {:induction false} StartsGrow(items: seq<Item>, strides: seq<int>, i: nat, j: nat)
    requires Nested(items, strides) && i <= j <= |items|
    ensures StartOf(items, strides, i) <= StartOf(items, strides, j)
    decreases j - i
  {
    if i < j {
      StartsGrow(items, strides, i, j - 1);
      NestedPart(items, strides, j - 1);
    }
  }

  /** A nested literal has its sub-array for itself: its expressions are inside the stride from the least
      multiple where it stands, and all items after it are behind that stride. */
  lemma NestedOccupies(items: seq<Item>, strides: seq<int>, capacity: int, i: nat, path: seq<nat>)
    requires Nested(items, strides) && Fits(items, strides, capacity) && i < |items| && items[i].Arr? && IsPath(items, path)
    ensures |strides| > 0 && strides[0] > 0 && LeastMultiple(StandsAt(items, strides, i), strides[0], StartOf(items, strides, i))
    ensures var at := StandsAt(items, strides, i);
            && (path[0] == i ==> at <= Landing(items, strides, path) < at + strides[0])
            && (path[0] > i ==> at + strides[0] <= Landing(items, strides, path))
  {
    NestedPart(items, strides, i);
    NestedPart(items, strides, path[0]);
    assert items[i] in items;
    if path[0] == i {
      var inner := items[i].items;
      AlignOrdered(inner, strides[1..], strides[0]);
      PathLands(inner, strides[1..], path[1..]);
    } else if path[0] > i {
      StartsGrow(items, strides, i + 1, path[0]);
    }
    hide StartOf, Align, Fits;
  }

  // ----- fully braced literals -----

  /** Braces all the way down, with no more items than elements at any level. */
  predicate Braced(items: seq<Item>, dims: seq<int>) {
    && dims != [] && |items| <= dims[0]
    && forall x :: x in items ==> if |dims| == 1 then x.Exp? else x.Arr? && Braced(x.items, dims[1..])
  }

  /** The expression that `index` leads to through the braces, zero where an item is missing. */
  function Follow(items: seq<Item>, index: seq<int>): Expr
    requires forall i :: 0 <= i < |index| ==> 0 <= index[i]
  {
    if index == [] || index[0] >= |items| then Literal(0)
    else
      match items[index[0]]
      case Exp(e) => e
      case Arr(inner) => Follow(inner, index[1..])
  }

  lemma {:induction false} BracedNests(items: seq<Item>, dims: seq<int>)
    requires Braced(items, dims) && forall i :: 0 <= i < |dims| ==> 0 < dims[i]
    ensures Nested(items, Strides(dims))
    decreases items
  {
    StridesTail(dims);
    ProductPositive(dims[1..]);
    forall x | x in items && x.Arr? ensures |Strides(dims)| > 0 && Strides(dims)[0] > 0 && Nested(x.items, Strides(dims)[1..]) {
      BracedNests(x.items, dims[1..]);
    }
  }

  lemma MultipleItself(k: nat, base: int)
    requires base > 0
    ensures 0 <= k * base && LeastMultipleOf(base, k * base) == k * base
  {
    assert Multiple(k * base, base);
    MultiplesOrdered(0, k, base);
  }

  /** Item `i` of a fully braced level starts `i` strides in. */
  lemma {:induction false} BracedStart(items: seq<Item>, dims: seq<int>, i: nat)
    requires Braced(items, dims) && i <= |items| && (forall i :: 0 <= i < |dims| ==> 0 < dims[i])
    requires Nested(items, Strides(dims))
    ensures StartOf(items, Strides(dims), i) == i * Product(dims[1..])
  {
    StridesTail(dims);
    ProductPositive(dims[1..]);
    if i > 0 {
      BracedStart(items, dims, i - 1);
      NestedPart(items, Strides(dims), i - 1);
      assert items[i - 1] in items;
      MultipleItself(i - 1, Product(dims[1..]));
      assert (i - 1) * Product(dims[1..]) + Product(dims[1..]) == i * Product(dims[1..]);
      if |dims| == 1 {
        assert Product(dims[1..]) == 1;
      }
    }
  }

  lemma BracedStands(items: seq<Item>, dims: seq<int>, i: nat)
    requires Braced(items, dims) && i < |items| && (forall i :: 0 <= i < |dims| ==> 0 < dims[i])
    requires Nested(items, Strides(dims))
    ensures StandsAt(items, Strides(dims), i) == i * Product(dims[1..])
  {
    BracedStart(items, dims, i);
    StridesTail(dims);
    ProductPositive(dims[1..]);
    MultipleItself(i, Product(dims[1..]));
    hide StartOf;
  }

  function Ints(path: seq<nat>): (r: seq<int>)
    ensures |r| == |path| && forall i :: 0 <= i < |r| ==> r[i] == path[i]
  {
    seq(|path|, i requires 0 <= i < |path| => path[i] as int)
  }

  /** In a fully braced literal a path is a list of subscripts, and lands at their flat offset. */
  lemma {:induction false} BracedLanding(items: seq<Item>, dims: seq<int>, path: seq<nat>)
    requires Braced(items, dims) && (forall i :: 0 <= i < |dims| ==> 0 < dims[i]) && IsPath(items, path)
    ensures Nested(items, Strides(dims)) && InRange(dims, Ints(path))
    ensures Landing(items, Strides(dims), path) == FlatOffset(Strides(dims), Ints(path))
    ensures Reached(items, path) == Follow(items, Ints(path))
    decreases items
  {
    BracedNests(items, dims);
    BracedStands(items, dims, path[0]);
    StridesTail(dims);
    var x := items[path[0]];
    assert x in items;
    assert Ints(path)[1..] == Ints(path[1..]);
    if x.Arr? {
      BracedLanding(x.items, dims[1..], path[1..]);
      assert Ints(path) == [path[0] as int] + Ints(path[1..]);
    }
    hide StandsAt;
  }

  /** Subscripts either lead to an expression or to a missing item. */
  lemma {:induction false} FollowIs(items: seq<Item>, dims: seq<int>, index: seq<int>) returns (path: seq<nat>)
    requires Braced(items, dims) && InRange(dims, index)
    ensures if IsPath(items, path) then Ints(path) == index else Follow(items, index) == Literal(0) && forall p :: IsPath(items, p) ==> Ints(p) != index
    decreases items
  {
    if index[0] < |items| {
      var x := items[index[0]];
      assert x in items;
      if x.Exp? {
        path := [index[0] as nat];
      } else {
        var rest := FollowIs(x.items, dims[1..], index[1..]);
        path := [index[0] as nat] + rest;
        assert path[1..] == rest;
        if !IsPath(x.items, rest) {
          forall p | IsPath(items, p) ensures Ints(p) != index {
            assert Ints(p)[1..] == Ints(p[1..]);
          }
        }
      }
    } else {
      path := [];
    }
  }

  lemma {:induction false} BracedFits(items: seq<Item>, dims: seq<int>)
    requires Braced(items, dims) && forall i :: 0 <= i < |dims| ==> 0 < dims[i]
    ensures Nested(items, Strides(dims)) && Fits(items, Strides(dims), Product(dims))
    decreases items
  {
    BracedNests(items, dims);
    BracedStart(items, dims, |items|);
    EndsAt(items, Strides(dims));
    StridesTail(dims);
    ProductPositive(dims[1..]);
    MultiplesOrdered(|items|, dims[0], Product(dims[1..]));
    forall x | x in items && x.Arr? ensures Fits(x.items, Strides(dims)[1..], Strides(dims)[0]) {
      BracedFits(x.items, dims[1..]);
    }
    hide StartOf, Align;
  }

  /** A fully braced literal initialises every element with the expression that its subscripts lead to
      through the braces, or with zero if there is none. */
  lemma BracedElements(items: seq<Item>, dims: seq<int>, index: seq<int>)
    requires Braced(items, dims) && (forall i :: 0 <= i < |dims| ==> 0 < dims[i]) && InRange(dims, index)
    ensures Nested(items, Strides(dims))
    ensures At(Align(items, Strides(dims)).list, FlatOffset(Strides(dims), index)) == Follow(items, index)
  {
    hide Align, Fits, Landing, Braced, Nested, FlatOffset, Follow, Reached, IsPath;
    BracedFits(items, dims);
    AlignOrdered(items, Strides(dims), Product(dims));
    var list, off := Align(items, Strides(dims)).list, FlatOffset(Strides(dims), index);
    var path := FollowIs(items, dims, index);
    if IsPath(items, path) {
      BracedLanding(items, dims, path);
      PathLands(items, Strides(dims), path);
      var k :| 0 <= k < |list| && list[k] == EntryOf(items, Strides(dims), path);
      AtIs(list, k);
    } else {
      forall k | 0 <= k < |list| ensures list[k].offset != off {
        assert list[k] in list;
        var p := EntryLanded(items, Strides(dims), list[k]);
        BracedLanding(items, dims, p);
        if list[k].offset == off {
          FlatOffsetInjective(dims, Ints(p), index);
        }
      }
    }
  }
}
