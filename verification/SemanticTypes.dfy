/** Array types: dimensions, row-major strides, and the map from subscripts to flat offsets. */
module SemanticTypes {

  /** `offsets` holds the stride of each dimension, in elements. */
  datatype SemanticType = SemanticType(dimensions: seq<int>, offsets: seq<int>) {
    predicate IsArray() {
      |dimensions| > 0
    }

    /** The element count; 0 for a scalar, and for a parameter whose first dimension is left open. */
    function Length(): int
      requires |offsets| == |dimensions|
    {
      if dimensions == [] then 0 else dimensions[0] * offsets[0]
    }

    function DropFirst(): SemanticType
      requires |dimensions| > 0 && |offsets| > 0
    {
      SemanticType(dimensions[1..], offsets[1..])
    }
  }

  function Product(dims: seq<int>): int {
    if dims == [] then 1 else dims[0] * Product(dims[1..])
  }

  /** The stride of a dimension is the product of the later ones. */
  function Strides(dims: seq<int>): (r: seq<int>)
    ensures |r| == |dims|
    ensures forall i :: 0 <= i < |r| ==> r[i] == Product(dims[i + 1..])
  {
    seq(|dims|, i requires 0 <= i < |dims| => Product(dims[i + 1..]))
  }

  function TypeOf(dims: seq<int>): SemanticType {
    SemanticType(dims, Strides(dims))
  }

  const SCALAR := SemanticType([], [])

  /** Fills the strides from the last dimension to the first with a running product. */
  method CalculateOffsets(dimensions: seq<int>) returns (offsets: seq<int>)
    ensures offsets == Strides(dimensions)
  {
    var a := new int[|dimensions|];
    var prod := 1;
    var i := |dimensions|;
    while i > 0
      invariant 0 <= i <= |dimensions|
      invariant prod == Product(dimensions[i..])
      invariant forall k :: i <= k < |dimensions| ==> a[k] == Product(dimensions[k + 1..])
    {
      i := i - 1;
      a[i] := prod;
      prod := prod * dimensions[i];
      assert dimensions[i..][1..] == dimensions[i + 1..];
    }
    offsets := a[..];
  }

  /** Dropping the first dimension of a type is the type of the remaining dimensions. */
  lemma DropFirstCommutes(dims: seq<int>)
    requires dims != []
    ensures TypeOf(dims).DropFirst() == TypeOf(dims[1..])
  {
    forall i | 0 <= i < |dims| - 1 ensures Strides(dims)[1..][i] == Strides(dims[1..])[i] {
      assert dims[1..][i + 1..] == dims[i + 2..];
    }
  }

  lemma LengthIsProduct(dims: seq<int>)
    requires dims != []
    ensures TypeOf(dims).Length() == Product(dims)
  {
  }

  /** The flat offset that nested subscripts accumulate. */
  function FlatOffset(offsets: seq<int>, index: seq<int>): int
    requires |index| <= |offsets|
  {
    if index == [] then 0 else index[0] * offsets[0] + FlatOffset(offsets[1..], index[1..])
  }

  ghost predicate InRange(dims: seq<int>, index: seq<int>) {
    |index| == |dims| && forall i :: 0 <= i < |dims| ==> 0 <= index[i] < dims[i]
  }

  lemma {:induction false} ProductPositive(dims: seq<int>)
    requires forall i :: 0 <= i < |dims| ==> 0 < dims[i]
    ensures Product(dims) > 0
  {
    if dims != [] {
      ProductPositive(dims[1..]);
    }
  }

  lemma StridesTail(dims: seq<int>)
    requires dims != []
    ensures Strides(dims)[0] == Product(dims[1..]) && Strides(dims)[1..] == Strides(dims[1..])
  {
    DropFirstCommutes(dims);
  }

  lemma RowBound(i: int, d: int, p: int, r: int)
    requires 0 <= i < d && 0 <= r < p
    ensures 0 <= i * p + r < d * p
  {
    assert (i + 1) * p <= d * p by {
      assert (d - i - 1) * p >= 0;
    }
  }

  /** In-range subscripts name an element of the array. */
  lemma {:induction false} FlatOffsetInRange(dims: seq<int>, index: seq<int>)
    requires InRange(dims, index)
    ensures 0 <= FlatOffset(Strides(dims), index) < Product(dims)
  {
    if dims != [] {
      StridesTail(dims);
      FlatOffsetInRange(dims[1..], index[1..]);
      RowBound(index[0], dims[0], Product(dims[1..]), FlatOffset(Strides(dims[1..]), index[1..]));
    }
  }

  lemma RowGap(i: int, j: int, p: int)
    requires i < j && p > 0
    ensures j * p >= i * p + p
  {
    assert j * p == i * p + p + (j - i - 1) * p;
  }

  lemma RowUnique(i: int, j: int, p: int, r: int, q: int)
    requires 0 <= r < p && 0 <= q < p && i * p + r == j * p + q
    ensures i == j && r == q
  {
    if i < j {
      RowGap(i, j, p);
    } else if j < i {
      RowGap(j, i, p);
    }
  }

  /** Different in-range subscripts name different elements. */
  lemma {:induction false} FlatOffsetInjective(dims: seq<int>, a: seq<int>, b: seq<int>)
    requires InRange(dims, a) && InRange(dims, b)
    requires FlatOffset(Strides(dims), a) == FlatOffset(Strides(dims), b)
    ensures a == b
  {
    if dims != [] {
      StridesTail(dims);
      var rest := Strides(dims[1..]);
      FlatOffsetInRange(dims[1..], a[1..]);
      FlatOffsetInRange(dims[1..], b[1..]);
      RowUnique(a[0], b[0], Product(dims[1..]), FlatOffset(rest, a[1..]), FlatOffset(rest, b[1..]));
      FlatOffsetInjective(dims[1..], a[1..], b[1..]);
      assert a == [a[0]] + a[1..] && b == [b[0]] + b[1..];
    }
  }

  lemma QuotientRemainder(n: int, d: int, p: int)
    requires 0 < p && 0 <= n < d * p
    ensures n == (n / p) * p + n % p && 0 <= n % p < p && 0 <= n / p < d
  {
    var q := n / p;
    assert n == q * p + n % p;
    assert q < d by {
      if q > d {
        RowGap(d, q, p);
      }
    }
  }

  /** Every element of the array is named by some in-range subscripts. */
  lemma {:induction false} FlatOffsetSurjective(dims: seq<int>, n: int) returns (index: seq<int>)
    requires forall i :: 0 <= i < |dims| ==> 0 < dims[i]
    requires 0 <= n < Product(dims)
    ensures InRange(dims, index) && FlatOffset(Strides(dims), index) == n
  {
    if dims == [] {
      index := [];
    } else {
      StridesTail(dims);
      ProductPositive(dims[1..]);
      var p := Product(dims[1..]);
      QuotientRemainder(n, dims[0], p);
      var rest := FlatOffsetSurjective(dims[1..], n % p);
      index := [n / p] + rest;
      assert index[1..] == rest;
    }
  }
}
