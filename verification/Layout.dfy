/** Code made by expanding every unit into a block: where blocks land and what labels become. */
module Layout {
  import opened Wrappers

  /** `monad_join`: the concatenation of all blocks. */
  function Flatten<T>(blocks: seq<seq<T>>): seq<T> {
    if blocks == [] then [] else Flatten(blocks[..|blocks| - 1]) + blocks[|blocks| - 1]
  }

  /** The index at which block `i` starts. */
  function Start<T>(blocks: seq<seq<T>>, i: nat): nat
    requires i <= |blocks|
  {
    |Flatten(blocks[..i])|
  }

  lemma {:induction false} StartNext<T>(blocks: seq<seq<T>>, i: nat)
    requires i < |blocks|
    ensures Start(blocks, i + 1) == Start(blocks, i) + |blocks[i]|
  {
    assert blocks[..i + 1][..i] == blocks[..i];
  }

  lemma {:induction false} FlattenAppend<T>(a: seq<seq<T>>, b: seq<seq<T>>)
    ensures Flatten(a + b) == Flatten(a) + Flatten(b)
    decreases |b|
  {
    if b == [] {
      assert a + b == a;
    } else {
      var n := |b| - 1;
      assert (a + b)[..|a + b| - 1] == a + b[..n];
      FlattenAppend(a, b[..n]);
    }
  }

  lemma {:induction false} FlattenSplit<T>(blocks: seq<seq<T>>, i: nat)
    requires i < |blocks|
    ensures Flatten(blocks) == Flatten(blocks[..i]) + blocks[i] + Flatten(blocks[i + 1..])
  {
    assert blocks == blocks[..i] + [blocks[i]] + blocks[i + 1..];
    FlattenAppend(blocks[..i] + [blocks[i]], blocks[i + 1..]);
    FlattenAppend(blocks[..i], [blocks[i]]);
    assert Flatten([blocks[i]]) == Flatten<T>([]) + blocks[i] == blocks[i];
  }

  /** Block `i` occupies the stretch of the flat code from its start to the next start. */
  lemma {:induction false} BlockAt<T>(blocks: seq<seq<T>>, i: nat)
    requires i < |blocks|
    ensures Start(blocks, i) + |blocks[i]| == Start(blocks, i + 1) <= |Flatten(blocks)|
    ensures Flatten(blocks)[Start(blocks, i)..Start(blocks, i + 1)] == blocks[i]
    ensures forall j :: 0 <= j < |blocks[i]| ==> Flatten(blocks)[Start(blocks, i) + j] == blocks[i][j]
  {
    StartNext(blocks, i);
    FlattenSplit(blocks, i);
  }

  lemma StartLast<T>(blocks: seq<seq<T>>)
    ensures Start(blocks, |blocks|) == |Flatten(blocks)|
  {
    assert blocks[..|blocks|] == blocks;
  }

  lemma {:induction false} StartMonotone<T>(blocks: seq<seq<T>>, i: nat, j: nat)
    requires i <= j <= |blocks|
    ensures Start(blocks, i) <= Start(blocks, j) <= |Flatten(blocks)|
    decreases |blocks| - i
  {
    if i < j {
      StartNext(blocks, i);
      StartMonotone(blocks, i + 1, j);
    } else if j < |blocks| {
      BlockAt(blocks, j);
    } else {
      StartLast(blocks);
    }
  }

  /** Every index of the flat code lies in one block. */
  lemma {:induction false} Locate<T>(blocks: seq<seq<T>>, q: nat) returns (i: nat, j: nat)
    requires q < |Flatten(blocks)|
    ensures i < |blocks| && j < |blocks[i]| && q == Start(blocks, i) + j
    ensures Flatten(blocks)[q] == blocks[i][j]
    decreases |blocks|
  {
    var n := |blocks| - 1;
    StartNext(blocks, n);
    StartLast(blocks);
    if q < Start(blocks, n) {
      i, j := Locate(blocks[..n], q);
      assert blocks[..n][..i] == blocks[..i];
    } else {
      i, j := n, q - Start(blocks, n);
    }
  }

  /** The first index of `x` in `s`; a jump goes to the first occurrence of its label. */
  function IndexOf<T(==)>(s: seq<T>, x: T): (r: Option<nat>)
    ensures r.None? ==> x !in s
    ensures r.Some? ==> r.value < |s| && s[r.value] == x && x !in s[..r.value]
  {
    if s == [] then None
    else if s[0] == x then Some(0)
    else
      match IndexOf(s[1..], x)
      case None => None
      case Some(i) =>
        assert s[..i + 1] == [s[0]] + s[1..][..i];
        Some(i + 1)
  }

  lemma IndexOfIs<T>(s: seq<T>, x: T, i: nat)
    requires i < |s| && s[i] == x && x !in s[..i]
    ensures IndexOf(s, x) == Some(i)
  {
  }

  lemma IndexOfSame<T>(a: seq<T>, b: seq<T>, x: T)
    requires |a| == |b| && forall i :: 0 <= i < |a| ==> (a[i] == x <==> b[i] == x)
    ensures IndexOf(a, x) == IndexOf(b, x)
  {
    var r := IndexOf(a, x);
    if r.Some? {
      IndexOfIs(b, x, r.value);
    }
  }

  /** When only the unit `l` expands into a block that holds `l'`, and holds it first, a jump to
      `l'` goes to the start of the block of the unit that a jump to `l` goes to. */
  lemma {:induction false} LabelImage<T, U>(code: seq<T>, blocks: seq<seq<U>>, l: T, l': U)
    requires |blocks| == |code|
    requires forall i :: 0 <= i < |code| && code[i] == l ==> |blocks[i]| > 0 && blocks[i][0] == l'
    requires forall i :: 0 <= i < |code| && code[i] != l ==> l' !in blocks[i]
    ensures IndexOf(code, l).None? ==> IndexOf(Flatten(blocks), l').None?
    ensures IndexOf(code, l).Some? ==>
              IndexOf(Flatten(blocks), l') == Some(Start(blocks, IndexOf(code, l).value))
  {
    var flat := Flatten(blocks);
    var r := IndexOf(code, l);
    if r.None? {
      if IndexOf(flat, l').Some? {
        var i, j := Locate(blocks, IndexOf(flat, l').value);
      }
    } else {
      var k := r.value;
      BlockAt(blocks, k);
      var p := Start(blocks, k);
      forall q | 0 <= q < p ensures flat[q] != l' {
        var i, j := Locate(blocks, q);
        if k <= i {
          StartMonotone(blocks, k, i);
        }
        assert code[..k][i] == code[i];
      }
      IndexOfIs(flat, l', p);
    }
  }

  // ----- fragments -----

  /** `part` sits in `code` from index `p` on. */
  ghost predicate Sits<T>(code: seq<T>, p: nat, part: seq<T>) {
    p + |part| <= |code| && code[p..p + |part|] == part
  }

  lemma SitsSplit<T>(code: seq<T>, p: nat, a: seq<T>, b: seq<T>)
    requires Sits(code, p, a + b)
    ensures Sits(code, p, a) && Sits(code, p + |a|, b)
  {
    var whole := code[p..p + |a + b|];
    assert whole[..|a|] == a && whole[|a|..] == b;
  }

  lemma SitsUnit<T>(code: seq<T>, p: nat, part: seq<T>, i: nat)
    requires Sits(code, p, part) && i < |part|
    ensures p + i < |code| && code[p + i] == part[i]
  {
    assert code[p + i] == code[p..p + |part|][i];
  }

  lemma SitsBetween<T>(before: seq<T>, mid: seq<T>, after: seq<T>, p: nat, part: seq<T>)
    requires Sits(mid, p, part)
    ensures Sits(before + mid + after, |before| + p, part)
  {
    var code := before + mid + after;
    assert code[|before| + p..|before| + p + |part|] == mid[p..p + |part|];
  }

  /** A block of expanded code sits at its start, behind whatever comes first. */
  lemma BlockSits<T>(before: seq<T>, blocks: seq<seq<T>>, after: seq<T>, i: nat)
    requires i < |blocks|
    ensures Sits(before + Flatten(blocks) + after, |before| + Start(blocks, i), blocks[i])
    ensures Start(blocks, i + 1) == Start(blocks, i) + |blocks[i]|
  {
    BlockAt(blocks, i);
    hide Flatten, Start;
    SitsBetween(before, Flatten(blocks), after, Start(blocks, i), blocks[i]);
  }

  lemma IndexOfPrefixed<T>(before: seq<T>, rest: seq<T>, x: T)
    requires x !in before
    ensures IndexOf(rest, x).None? ==> IndexOf(before + rest, x).None?
    ensures IndexOf(rest, x).Some? ==> IndexOf(before + rest, x) == Some(|before| + IndexOf(rest, x).value)
  {
    if IndexOf(rest, x).Some? {
      var i := IndexOf(rest, x).value;
      assert (before + rest)[..|before| + i] == before + rest[..i];
      IndexOfIs(before + rest, x, |before| + i);
    }
  }

  lemma IndexOfExtended<T>(s: seq<T>, after: seq<T>, x: T)
    requires IndexOf(s, x).Some?
    ensures IndexOf(s + after, x) == IndexOf(s, x)
  {
    var i := IndexOf(s, x).value;
    assert (s + after)[..i] == s[..i];
    IndexOfIs(s + after, x, i);
  }

  /** The first occurrence in the middle part of some code that has none before. */
  lemma IndexOfMiddle<T>(before: seq<T>, mid: seq<T>, after: seq<T>, x: T)
    requires x !in before
    ensures IndexOf(mid, x).Some? ==> IndexOf(before + mid + after, x) == Some(|before| + IndexOf(mid, x).value)
    ensures IndexOf(mid, x).None? && IndexOf(after, x).Some? ==>
              IndexOf(before + mid + after, x) == Some(|before| + |mid| + IndexOf(after, x).value)
  {
    hide IndexOf;
    if IndexOf(mid, x).Some? {
      IndexOfPrefixed(before, mid, x);
      IndexOfExtended(before + mid, after, x);
    } else {
      assert x !in before + mid;
      IndexOfPrefixed(before + mid, after, x);
    }
  }
}
