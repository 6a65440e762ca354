/** Running a fragment of code that sits somewhere inside a larger program. */
module Embedding {
  import opened Words
  import opened Wrappers
  import opened Primitive
  import opened Layout
  import opened Pinkie

  /** No label is defined twice. */
  ghost predicate DistinctLabels(code: seq<Unit>) {
    forall i, j :: 0 <= i < j < |code| && code[i].Label? ==> code[i] != code[j]
  }

  lemma LabelFound(code: seq<Unit>, q: nat, l: int)
    requires DistinctLabels(code) && q < |code| && code[q] == Label(l)
    ensures IndexOf(code, Label(l)) == Some(q)
  {
    IndexOfIs(code, Label(l), q);
  }

  /** Extends a run by the unit at its program counter. */
  lemma OneMore(code: seq<Unit>, c: Context, s: State, n: nat, u: Unit)
    requires Run(code, c, s, n).status == Running
    requires Run(code, c, s, n).pc < |code| && code[Run(code, c, s, n).pc] == u
    ensures Run(code, c, s, n + 1) == Exec(code, c, u, Run(code, c, s, n))
  {
    hide Exec;
  }
}
