/** Array initialisers: nested literals to element offsets, with and without the zeros in between. */
module ArrayAlign {
  import opened Words
  import opened Wrappers
  import opened SemanticTypes
  import opened Ast

  /** An initialiser item: an expression, or a literal for a sub-array. */
  datatype Item = Exp(exp: Expr) | Arr(items: seq<Item>)

  // ----- rounding up -----

  /** `x` if `base` divides it, else the next multiple, by C++ integer division. */
  function RoundUp(x: nat, base: int): int
    requires base > 0
  {
    var div := TruncDiv(x, base);
    var roundDown := div * base;
    if roundDown == x then x else roundDown + base
  }

  ghost predicate Multiple(x: int, base: int) {
    exists k :: x == k * base
  }

  lemma MultiplesOrdered(a: int, b: int, base: int)
    requires base > 0 && a <= b
    ensures a * base <= b * base
  {
    var gap := b - a;
    assert gap * base >= 0;
    assert (a + gap) * base == a * base + gap * base;
  }

  lemma BelowMultiple(k: int, q: int, base: int, x: int)
    requires base > 0 && q * base < x && x <= k * base
    ensures (q + 1) * base <= k * base
  {
    if k <= q {
      MultiplesOrdered(k, q, base);
    } else {
      MultiplesOrdered(q + 1, k, base);
    }
  }

  /** The least multiple of `base` that is not below `x`. */
  lemma RoundUpIsLeast(x: nat, base: int)
    requires base > 0
    ensures Multiple(RoundUp(x, base), base) && x <= RoundUp(x, base) < x + base
    ensures forall m :: Multiple(m, base) && x <= m ==> RoundUp(x, base) <= m
  {
    var q := x / base;
    assert x == q * base + x % base;
    if q * base == x {
      assert Multiple(x, base);
    } else {
      assert q * base + base == (q + 1) * base;
      assert Multiple((q + 1) * base, base);
      forall m | Multiple(m, base) && x <= m ensures (q + 1) * base <= m {
        var k :| m == k * base;
        BelowMultiple(k, q, base, x);
      }
    }
  }

  // ----- alignment -----

  function Shift(aligned: seq<Alignment>, dist: int): (r: seq<Alignment>)
    ensures |r| == |aligned|
    ensures forall i :: 0 <= i < |r| ==> r[i] == Alignment(aligned[i].offset + dist, aligned[i].exp)
  {
    seq(|aligned|, i requires 0 <= i < |aligned| => Alignment(aligned[i].offset + dist, aligned[i].exp))
  }

  /** Every nested literal has a stride of its level to be aligned with, and strides are positive. */
  predicate Nested(items: seq<Item>, strides: seq<int>) {
    forall x :: x in items && x.Arr? ==> |strides| > 0 && strides[0] > 0 && Nested(x.items, strides[1..])
  }

  /** The aligned items so far and the offset of the next. */
  datatype Aligned = Aligned(list: seq<Alignment>, current: nat)

  /** `_array_align` on the strides from its level on. */
  function Align(items: seq<Item>, strides: seq<int>): Aligned
    requires Nested(items, strides)
    decreases items
  {
    if items == [] then Aligned([], 0)
    else
      var n := |items| - 1;
      assert items[n] in items;
      var before := Align(items[..n], strides);
      match items[n]
      case Exp(e) => Aligned(before.list + [Alignment(before.current, e)], before.current + 1)
      case Arr(inner) =>
        RoundUpIsLeast(before.current, strides[0]);
        var at := RoundUp(before.current, strides[0]);
        Aligned(before.list + Shift(Align(inner, strides[1..]).list, at), at + strides[0])
  }

  method ShiftInPlace(rec0: seq<Alignment>, current: int) returns (rec: seq<Alignment>)
    ensures rec == Shift(rec0, current)
  {
    rec := rec0;
    for k := 0 to |rec|
      invariant |rec| == |rec0|
      invariant forall i :: 0 <= i < |rec| ==> rec[i] == if i < k then Shift(rec0, current)[i] else rec0[i]
    {
      rec := rec[k := Alignment(rec[k].offset + current, rec[k].exp)];
    }
  }

  method AlignLevel(items: seq<Item>, ty: SemanticType, j: nat) returns (alignment: seq<Alignment>)
    requires j <= |ty.offsets| && Nested(items, ty.offsets[j..])
    ensures alignment == Align(items, ty.offsets[j..]).list
    decreases items
  {
    var current: nat := 0;
    alignment := [];
    for i := 0 to |items|
      invariant Align(items[..i], ty.offsets[j..]) == Aligned(alignment, current)
    {
      assert items[..i + 1][..i] == items[..i];
      assert items[i] in items;
      match items[i] {
        case Arr(inner) =>
          RoundUpIsLeast(current, ty.offsets[j]);
          current := RoundUp(current, ty.offsets[j]);
          assert ty.offsets[j..][1..] == ty.offsets[j + 1..];
          var rec := AlignLevel(inner, ty, j + 1);
          rec := ShiftInPlace(rec, current);
          alignment := alignment + rec;
          current := current + ty.offsets[j];
        case Exp(e) =>
          alignment := alignment + [Alignment(current, e)];
          current := current + 1;
      }
    }
    assert items[..|items|] == items;
  }

  // ----- initialisers that fit -----

  /** No literal has more elements than the sub-array it initialises. */
  predicate Fits(items: seq<Item>, strides: seq<int>, capacity: int)
    requires Nested(items, strides)
    decreases items
  {
    Align(items, strides).current <= capacity
    && forall x :: x in items && x.Arr? ==> Fits(x.items, strides[1..], strides[0])
  }

  ghost predicate Increasing(list: seq<Alignment>) {
    forall i, j :: 0 <= i < j < |list| ==> list[i].offset < list[j].offset
  }

  ghost predicate Within(list: seq<Alignment>, lo: int, hi: int) {
    forall i :: 0 <= i < |list| ==> lo <= list[i].offset < hi
  }

  lemma Appended(a: seq<Alignment>, b: seq<Alignment>, mid: int, hi: int)
    requires Increasing(a) && Within(a, 0, mid) && Increasing(b) && Within(b, mid, hi) && 0 <= mid <= hi
    ensures Increasing(a + b) && Within(a + b, 0, hi)
  {
  }

  lemma ShiftedOrder(list: seq<Alignment>, dist: int, hi: int)
    requires Increasing(list) && Within(list, 0, hi)
    ensures Increasing(Shift(list, dist)) && Within(Shift(list, dist), dist, dist + hi)
  {
  }

  lemma FitsPrefix(items: seq<Item>, strides: seq<int>, capacity: int)
    requires Nested(items, strides) && Fits(items, strides, capacity) && items != []
    ensures Nested(items[..|items| - 1], strides)
    ensures Fits(items[..|items| - 1], strides, Align(items[..|items| - 1], strides).current)
    ensures Align(items[..|items| - 1], strides).current <= Align(items, strides).current
    ensures var x := items[|items| - 1]; x.Arr? ==> Fits(x.items, strides[1..], strides[0])
  {
    var n := |items| - 1;
    assert items[n] in items;
    if items[n].Arr? {
      RoundUpIsLeast(Align(items[..n], strides).current, strides[0]);
    }
  }

  /** The offsets of an initialiser that fits are strictly increasing and inside the array. */
  lemma {:induction false} AlignOrdered(items: seq<Item>, strides: seq<int>, capacity: int)
    requires Nested(items, strides) && Fits(items, strides, capacity)
    ensures var a := Align(items, strides);
            Increasing(a.list) && Within(a.list, 0, a.current) && a.current <= capacity
    decreases items
  {
    if items != [] {
      var n := |items| - 1;
      FitsPrefix(items, strides, capacity);
      var before := Align(items[..n], strides);
      AlignOrdered(items[..n], strides, before.current);
      var x := items[n];
      assert x in items;
      if x.Arr? {
        RoundUpIsLeast(before.current, strides[0]);
        var at := RoundUp(before.current, strides[0]);
        AlignOrdered(x.items, strides[1..], strides[0]);
        var inner := Align(x.items, strides[1..]).list;
        ShiftedOrder(inner, at, strides[0]);
        assert Within(before.list, 0, at);
        Appended(before.list, Shift(inner, at), at, at + strides[0]);
      } else {
        Appended(before.list, [Alignment(before.current, x.exp)], before.current, before.current + 1);
      }
    }
  }

  // ----- expansion -----

  /** The merge after `i` elements: what has been pushed and how many aligned items were consumed. */
  datatype Merge = Merge(out: seq<Alignment>, used: nat)

  function MergeTo(list: seq<Alignment>, i: nat): (m: Merge)
    ensures m.used <= |list| && |m.out| == i
  {
    if i == 0 then Merge([], 0)
    else
      var m := MergeTo(list, i - 1);
      if m.used < |list| && list[m.used].offset == i - 1 then Merge(m.out + [list[m.used]], m.used + 1)
      else Merge(m.out + [Alignment(i - 1, Literal(0))], m.used)
  }

  /** `array_align_expand`, unless its last loop spins: that loop pushes the same item for ever when
      any is left over. */
  function Expand(list: seq<Alignment>, size: int): Option<seq<Alignment>> {
    var m := MergeTo(list, if size < 0 then 0 else size);
    if m.used < |list| then None else Some(m.out)
  }

  method ArrayAlignExpand(items: seq<Item>, ty: SemanticType) returns (expanded: Option<seq<Alignment>>)
    requires |ty.offsets| == |ty.dimensions| && Nested(items, ty.offsets)
    ensures expanded == Expand(Align(items, ty.offsets).list, ty.Length())
  {
    assert ty.offsets[0..] == ty.offsets;
    var result := AlignLevel(items, ty, 0);
    var size := ty.Length();
    var out, it := [], 0;
    var i := 0;
    while i < size
      invariant 0 <= i && (0 <= size ==> i <= size) && (size < 0 ==> i == 0)
      invariant MergeTo(result, i) == Merge(out, it)
    {
      if it < |result| && result[it].offset == i {
        out := out + [result[it]];
        it := it + 1;
      } else {
        out := out + [Alignment(i, Literal(0))];
      }
      i := i + 1;
    }
    if it < |result| {
      return None;
    }
    expanded := Some(out);
  }

  /** Consumed items are exactly those with smaller offsets, when offsets increase inside the range. */
  lemma {:induction false} MergeConsumes(list: seq<Alignment>, i: nat)
    requires Increasing(list) && forall k :: 0 <= k < |list| ==> 0 <= list[k].offset
    ensures var m := MergeTo(list, i);
            && (forall k :: 0 <= k < m.used ==> list[k].offset < i)
            && (forall k :: m.used <= k < |list| ==> list[k].offset >= i)
            && (m.used == |list| || list[m.used].offset >= i)
  {
    if i > 0 {
      MergeConsumes(list, i - 1);
    }
  }

  /** Whatever the offsets, the consumed items increase inside the range. */
  lemma {:induction false} MergeOrdered(list: seq<Alignment>, i: nat)
    ensures var m := MergeTo(list, i); Increasing(list[..m.used]) && Within(list[..m.used], 0, i)
  {
    if i > 0 {
      MergeOrdered(list, i - 1);
    }
  }

  /** Expansion terminates exactly when the aligned offsets increase strictly inside the array. */
  lemma ExpandTerminatesIff(list: seq<Alignment>, size: nat)
    ensures Expand(list, size).Some? <==> Increasing(list) && Within(list, 0, size)
  {
    MergeOrdered(list, size);
    assert list[..|list|] == list;
    if Increasing(list) && Within(list, 0, size) {
      MergeConsumes(list, size);
    }
  }

  /** The expression at an offset, zero where the initialiser has none. */
  ghost function At(list: seq<Alignment>, off: int): Expr {
    if exists k :: 0 <= k < |list| && list[k].offset == off then
      var k :| 0 <= k < |list| && list[k].offset == off;
      list[k].exp
    else Literal(0)
  }

  lemma AtIs(list: seq<Alignment>, k: nat)
    requires Increasing(list) && k < |list|
    ensures At(list, list[k].offset) == list[k].exp
  {
    var off := list[k].offset;
    assert forall j :: 0 <= j < |list| && list[j].offset == off ==> j == k;
  }

  lemma {:induction false} MergeEntries(list: seq<Alignment>, i: nat)
    requires Increasing(list) && forall k :: 0 <= k < |list| ==> 0 <= list[k].offset
    ensures forall j :: 0 <= j < i ==> MergeTo(list, i).out[j] == Alignment(j, At(list, j))
  {
    if i > 0 {
      MergeEntries(list, i - 1);
      MergeConsumes(list, i - 1);
      var m := MergeTo(list, i - 1);
      if m.used < |list| && list[m.used].offset == i - 1 {
        AtIs(list, m.used);
      }
    }
  }

  /** An initialiser that fits expands to one entry for every element, in order, each holding the
      expression the initialiser puts there or zero. */
  lemma ExpandCorrect(items: seq<Item>, ty: SemanticType)
    requires |ty.offsets| == |ty.dimensions| && Nested(items, ty.offsets) && 0 <= ty.Length()
    requires Fits(items, ty.offsets, ty.Length())
    ensures var list, r := Align(items, ty.offsets).list, Expand(Align(items, ty.offsets).list, ty.Length());
            r.Some? && |r.value| == ty.Length() && forall i :: 0 <= i < |r.value| ==> r.value[i] == Alignment(i, At(list, i))
  {
    var list := Align(items, ty.offsets).list;
    AlignOrdered(items, ty.offsets, ty.Length());
    ExpandTerminatesIff(list, ty.Length());
    MergeEntries(list, ty.Length());
  }

  /** An initialiser with one element too many makes expansion spin. */
  lemma OverflowSpins()
    ensures var items := [Exp(Literal(1)), Exp(Literal(2))];
            Nested(items, [1]) && Expand(Align(items, [1]).list, 1).None?
  {
    var one, two := Exp(Literal(1)), Exp(Literal(2));
    var items := [one, two];
    assert items[..1] == [one] && [one][..0] == [];
    assert Align([], [1]) == Aligned([], 0);
    assert Align([one], [1]) == Aligned([Alignment(0, Literal(1))], 1);
    var list := Align(items, [1]).list;
    assert list[1].offset == 1;
    ExpandTerminatesIff(list, 1);
  }
}
