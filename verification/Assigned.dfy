/** No run of generated code reads a temporary before writing it, whatever store it starts with and
    whichever way its jumps go. */
module Assigned {
  import opened Words
  import opened Wrappers
  import opened Primitive
  import opened Layout
  import opened SemanticTypes
  import opened Pinkie
  import opened Embedding
  import opened GenEeyore
  import opened GenStatic
  import Ast
  import GP = GenProgram

  // ----- what is written on the way -----

  /** Every operand a unit reads. */
  function Reads(u: Unit): seq<Operand> {
    match u
    case ArrayWrite(base, src, incr) => [base, src, incr]
    case JumpIf(_, _, src1, src2) => [src1, src2]
    case _ => ROps(u)
  }

  function TempsOf(ops: seq<Operand>): set<int> {
    set o | o in ops && o.Temp? :: o.id
  }

  function Written(u: Unit): set<int> {
    if Destination(u).Some? then TempsOf([Destination(u).value]) else {}
  }

  /** With the temporaries `a` written before unit `u` and `b` after it: what it reads has been written, and
      so has what each label it may go on to needs. */
  ghost predicate UnitFlows(u: Unit, a: set<int>, b: set<int>, need: map<int, set<int>>) {
    && TempsOf(Reads(u)) <= a
    && match u
       case Jump(l) => l in need && need[l] <= a
       case JumpIf(_, l, _, _) => l in need && need[l] <= a && b <= a
       case Label(l) => l in need && a <= need[l] && b <= a
       case RetI(_) => true
       case RetV => true
       case _ => b <= a + Written(u)
  }

  /** `d` holds what has certainly been written before each unit and at the end. */
  ghost predicate Flows(code: seq<Unit>, d: seq<set<int>>, need: map<int, set<int>>) {
    |d| == |code| + 1 && forall i :: 0 <= i < |code| ==> UnitFlows(code[i], d[i], d[i + 1], need)
  }

  /** From `a` written at the start, the fragment gets to its end with `b` written. */
  ghost predicate FlowsFrom(code: seq<Unit>, a: set<int>, b: set<int>, need: map<int, set<int>>) {
    exists d :: Flows(code, d, need) && d[0] <= a && b <= d[|code|]
  }

  // ----- runs -----

  ghost predicate HasWritten(s: State, a: set<int>) {
    forall i :: i in a ==> Temp(i) in s.env
  }

  ghost predicate Tracks(s: State, d: seq<set<int>>) {
    s.status == Running ==> s.pc < |d| && HasWritten(s, d[s.pc])
  }

  /** Execution never unwrites a temporary, and writes the destination if it goes on. */
  lemma ExecWrites(code: seq<Unit>, c: Context, u: Unit, s: State, a: set<int>)
    requires HasWritten(s, a) && s.status == Running
    ensures HasWritten(Exec(code, c, u, s), a)
    ensures Exec(code, c, u, s).status == Running ==> HasWritten(Exec(code, c, u, s), a + Written(u))
  {
    hide EvalUnary, EvalBinary, Wrap, IndexOf, Value, CallValue;
  }

  lemma ExecGoes(code: seq<Unit>, c: Context, u: Unit, s: State)
    requires Exec(code, c, u, s).status == Running && s.status == Running
    ensures !u.RetI? && !u.RetV?
    ensures var q := Exec(code, c, u, s).pc;
            (!u.Jump? && q == s.pc + 1) || ((u.Jump? || u.JumpIf?) && q < |code| && code[q] == Label(u.id))
  {
    hide EvalUnary, EvalBinary, Wrap, Value, CallValue, CallEvent, Overlay, Restrict;
  }

  lemma StepTracks(code: seq<Unit>, c: Context, s: State, d: seq<set<int>>, need: map<int, set<int>>)
    requires Flows(code, d, need) && Tracks(s, d)
    ensures Tracks(Step(code, c, s), d)
  {
    hide Exec, UnitFlows;
    if s.status == Running && s.pc < |code| {
      var u := code[s.pc];
      var s' := Exec(code, c, u, s);
      assert UnitFlows(u, d[s.pc], d[s.pc + 1], need);
      ExecWrites(code, c, u, s, d[s.pc]);
      if s'.status == Running {
        ExecGoes(code, c, u, s);
        if s'.pc == s.pc + 1 && !u.Jump? {
          FallsThrough(u, d[s.pc], d[s.pc + 1], need);
        } else {
          assert UnitFlows(code[s'.pc], d[s'.pc], d[s'.pc + 1], need);
          JumpsTo(u, d[s.pc], d[s.pc + 1], d[s'.pc], d[s'.pc + 1], need);
        }
      }
    }
  }

  lemma FallsThrough(u: Unit, a: set<int>, b: set<int>, need: map<int, set<int>>)
    requires UnitFlows(u, a, b, need) && !u.Jump? && !u.RetI? && !u.RetV?
    ensures b <= a + Written(u)
  {
  }

  lemma JumpsTo(u: Unit, a: set<int>, b: set<int>, a': set<int>, b': set<int>, need: map<int, set<int>>)
    requires (u.Jump? || u.JumpIf?) && UnitFlows(u, a, b, need) && UnitFlows(Label(u.id), a', b', need)
    ensures a' <= a
  {
  }

  lemma {:induction false} RunTracks(
    code: seq<Unit>, c: Context, s: State, d: seq<set<int>>, need: map<int, set<int>>, n: nat)
    requires Flows(code, d, need) && Tracks(s, d)
    ensures Tracks(Run(code, c, s, n), d)
  {
    hide Step, Flows, Tracks;
    if n > 0 {
      RunTracks(code, c, s, d, need, n - 1);
      StepTracks(code, c, Run(code, c, s, n - 1), d, need);
    }
  }

  /** Everything that the unit at the program counter reads from a temporary has been written. */
  ghost predicate ReadsWritten(code: seq<Unit>, s: State) {
    s.status == Running && s.pc < |code| ==> HasWritten(s, TempsOf(Reads(code[s.pc])))
  }

  lemma FlowsRead(code: seq<Unit>, c: Context, s: State, b: set<int>, need: map<int, set<int>>, n: nat)
    requires FlowsFrom(code, {}, b, need) && s.pc == 0
    ensures ReadsWritten(code, Run(code, c, s, n))
  {
    hide Run, UnitFlows;
    var d :| Flows(code, d, need) && d[0] <= {} && b <= d[|code|];
    assert Tracks(s, d);
    RunTracks(code, c, s, d, need, n);
    var s' := Run(code, c, s, n);
    if s'.status == Running && s'.pc < |code| {
      ReadsBefore(code[s'.pc], d[s'.pc], d[s'.pc + 1], need);
    }
  }

  lemma ReadsBefore(u: Unit, a: set<int>, b: set<int>, need: map<int, set<int>>)
    requires UnitFlows(u, a, b, need)
    ensures TempsOf(Reads(u)) <= a
  {
  }

  // ----- putting fragments together -----

  lemma FlowsEmpty(a: set<int>, need: map<int, set<int>>)
    ensures FlowsFrom([], a, a, need)
  {
    assert Flows([], [a], need);
  }

  lemma JoinFlows(x: seq<Unit>, y: seq<Unit>, a: set<int>, m: set<int>, b: set<int>, need: map<int, set<int>>)
    requires FlowsFrom(x, a, m, need) && FlowsFrom(y, m, b, need)
    ensures FlowsFrom(x + y, a, b, need)
  {
    hide UnitFlows;
    var dx :| Flows(x, dx, need) && dx[0] <= a && m <= dx[|x|];
    var dy :| Flows(y, dy, need) && dy[0] <= m && b <= dy[|y|];
    var d := dx[..|x|] + dy;
    forall i | 0 <= i < |x + y| ensures UnitFlows((x + y)[i], d[i], d[i + 1], need) {
      if i < |x| {
        assert UnitFlows(x[i], dx[i], dx[i + 1], need);
        LessAfter(x[i], dx[i], dx[i + 1], d[i + 1], need);
      } else {
        assert UnitFlows(y[i - |x|], dy[i - |x|], dy[i - |x| + 1], need);
      }
    }
    assert Flows(x + y, d, need);
  }

  lemma LessAfter(u: Unit, a: set<int>, b: set<int>, b': set<int>, need: map<int, set<int>>)
    requires UnitFlows(u, a, b, need) && b' <= b
    ensures UnitFlows(u, a, b', need)
  {
  }

  lemma ThenUnit(x: seq<Unit>, u: Unit, a: set<int>, m: set<int>, b: set<int>, need: map<int, set<int>>)
    requires FlowsFrom(x, a, m, need) && UnitFlows(u, m, b, need)
    ensures FlowsFrom(x + [u], a, b, need)
  {
    hide UnitFlows;
    assert Flows([u], [m, b], need);
    JoinFlows(x, [u], a, m, b, need);
  }

  /** Less is promised, or more is written before. */
  lemma WeakerFlows(x: seq<Unit>, a: set<int>, b: set<int>, a': set<int>, b': set<int>, need: map<int, set<int>>)
    requires FlowsFrom(x, a, b, need) && a <= a' && b' <= b
    ensures FlowsFrom(x, a', b', need)
  {
    hide UnitFlows;
    var d :| Flows(x, d, need) && d[0] <= a && b <= d[|x|];
    assert Flows(x, d, need) && d[0] <= a' && b' <= d[|x|];
  }

  ghost predicate Within(n: map<int, set<int>>, m: map<int, set<int>>) {
    forall k :: k in n ==> k in m && n[k] == m[k]
  }

  lemma MoreLabels(x: seq<Unit>, a: set<int>, b: set<int>, n: map<int, set<int>>, m: map<int, set<int>>)
    requires FlowsFrom(x, a, b, n) && Within(n, m)
    ensures FlowsFrom(x, a, b, m)
  {
    var d :| Flows(x, d, n) && d[0] <= a && b <= d[|x|];
    hide TempsOf, Reads, Written;
    assert Flows(x, d, m);
  }

  /** The labels of a fragment are numbered from `lo` to `hi`; those of the loop around it need nothing. */
  ghost predicate LabelsFrom(need: map<int, set<int>>, lo: int, hi: int, ext: set<int>) {
    forall k :: k in need ==> lo <= k < hi || (k in ext && need[k] == {})
  }

  /** The labels of two fragments together. */
  lemma Merge(n: map<int, set<int>>, lo: int, mid: int, m: map<int, set<int>>, hi: int, ext: set<int>)
    requires LabelsFrom(n, lo, mid, ext) && LabelsFrom(m, mid, hi, ext) && lo <= mid <= hi
    requires forall k :: k in ext ==> k < lo
    ensures LabelsFrom(n + m, lo, hi, ext) && Within(n, n + m) && Within(m, n + m)
  {
  }

  lemma WithinAll(n: map<int, set<int>>, m: map<int, set<int>>, k: map<int, set<int>>)
    requires Within(n, m) && Within(m, k)
    ensures Within(n, k)
  {
  }

  // ----- expressions -----

  /** The code of an expression, wherever `a` has been written, also writes its result. */
  ghost predicate GenFlows(g: Gen, a: set<int>, need: map<int, set<int>>) {
    FlowsFrom(g.code, a, a + TempsOf([g.result]), need)
  }

  lemma PairFlows(g0: Gen, g1: Gen, l: int, a: set<int>, n0: map<int, set<int>>, n1: map<int, set<int>>)
    requires GenFlows(g0, a, n0) && GenFlows(g1, a + TempsOf([g0.result]), n1)
    requires LabelsFrom(n0, l, g0.labels, {}) && LabelsFrom(n1, g0.labels, g1.labels, {}) && l <= g0.labels <= g1.labels
    ensures LabelsFrom(n0 + n1, l, g1.labels, {})
    ensures FlowsFrom(g0.code + g1.code, a, a + TempsOf([g0.result]) + TempsOf([g1.result]), n0 + n1)
  {
    hide FlowsFrom, TempsOf;
    Merge(n0, l, g0.labels, n1, g1.labels, {});
    MoreLabels(g0.code, a, a + TempsOf([g0.result]), n0, n0 + n1);
    MoreLabels(g1.code, a + TempsOf([g0.result]), a + TempsOf([g0.result]) + TempsOf([g1.result]), n1, n0 + n1);
    JoinFlows(g0.code, g1.code, a, a + TempsOf([g0.result]), a + TempsOf([g0.result]) + TempsOf([g1.result]), n0 + n1);
  }

  /** A unit that computes into a temporary from operands that have been written. */
  lemma ComputeFlows(u: Unit, m: set<int>, i: int, need: map<int, set<int>>)
    requires Destination(u) == Some(Temp(i)) && TempsOf(Reads(u)) <= m
    ensures UnitFlows(u, m, m + {i}, need)
  {
    assert TempsOf([Temp(i)]) == {i} by { assert Temp(i) in [Temp(i)]; }
    hide TempsOf, Reads;
  }

  lemma TempsOfOne(o: Operand)
    ensures TempsOf([o]) == if o.Temp? then {o.id} else {}
  {
  }

  lemma TempsOfTwo(o: Operand, p: Operand)
    ensures TempsOf([o, p]) == TempsOf([o]) + TempsOf([p])
  {
  }

  /** A computation from the results of one or two expressions. */
  lemma ResultFlows(x: seq<Unit>, u: Unit, a: set<int>, m: set<int>, i: int, t: int, l: int, need: map<int, set<int>>)
    requires FlowsFrom(x, a, m, need) && a <= m && Destination(u) == Some(Temp(i)) && TempsOf(Reads(u)) <= m
    ensures GenFlows(Gen(x + [u], Temp(i), t, l), a, need)
  {
    TempsOfOne(Temp(i));
    hide FlowsFrom, UnitFlows, TempsOf, Reads;
    ComputeFlows(u, m, i, need);
    ThenUnit(x, u, a, m, m + {i}, need);
    WeakerFlows(x + [u], a, m + {i}, a, a + {i}, need);
  }

  lemma LogicalUnits(temp: int, o: Operand, m: set<int>, l: int, need: map<int, set<int>>)
    requires l in need && TempsOf([o]) <= m
    ensures UnitFlows(Copy(Temp(temp), o), m, m + {temp}, need)
    ensures forall w :: UnitFlows(Copy(Temp(temp), Lit(w)), m, m + {temp}, need)
    ensures need[l] <= m ==> UnitFlows(JumpC(l, o), m, m, need) && forall b :: UnitFlows(Jump(l), m, b, need)
    ensures m <= need[l] ==> UnitFlows(Label(l), m, m, need)
  {
    ComputeFlows(Copy(Temp(temp), o), m, temp, need);
    TempsOfOne(Temp(temp));
    TempsOfTwo(o, Lit(0));
  }

  lemma AndFlows(g0: Gen, g1: Gen, l: int, a: set<int>, n0: map<int, set<int>>, n1: map<int, set<int>>)
    returns (need: map<int, set<int>>)
    requires GenFlows(g0, a, n0) && GenFlows(g1, a + TempsOf([g0.result]), n1)
    requires LabelsFrom(n0, l, g0.labels, {}) && LabelsFrom(n1, g0.labels, g1.labels, {}) && l <= g0.labels <= g1.labels
    ensures LabelsFrom(need, l, g1.labels + 2, {})
    ensures var temp, mid, end := Temp(g1.temps), g1.labels, g1.labels + 1;
            GenFlows(
              Gen(g0.code + [JumpC(mid, g0.result)] + g1.code
                  + [ExprC(temp, g1.result), JumpU(end), Label(mid), ExprC(temp, Lit(0)), Label(end)],
                  temp, g1.temps + 1, g1.labels + 2), a, need)
  {
    TempsOfOne(Temp(g1.temps));
    hide *;
    var i, mid, end := g1.temps, g1.labels, g1.labels + 1;
    var m0 := a + TempsOf([g0.result]);
    var m1, out := m0 + TempsOf([g1.result]), a + {i};
    var own := map[mid := a, end := out];
    OwnLabels(own, mid, mid + 2);
    Merge(n0, l, g0.labels, n1, g1.labels, {});
    Merge(n0 + n1, l, g1.labels, own, g1.labels + 2, {});
    need := n0 + n1 + own;
    WithinAll(n0, n0 + n1, need);
    WithinAll(n1, n0 + n1, need);
    GenFlowsIs(g0, a, n0);
    GenFlowsIs(g1, m0, n1);
    MoreLabels(g0.code, a, m0, n0, need);
    MoreLabels(g1.code, m0, m1, n1, need);
    LogicalUnits(i, g0.result, m0, mid, need);
    var x := g0.code + [JumpC(mid, g0.result)];
    ThenUnit(g0.code, JumpC(mid, g0.result), a, m0, m0, need);
    JoinFlows(x, g1.code, a, m0, m1, need);
    x := x + g1.code;
    LogicalUnits(i, g1.result, m1, end, need);
    ThenUnit(x, Copy(Temp(i), g1.result), a, m1, m1 + {i}, need);
    LogicalUnits(i, g1.result, m1 + {i}, end, need);
    ThenUnit(x + [Copy(Temp(i), g1.result)], Jump(end), a, m1 + {i}, a, need);
    LitTemps(0);
    LogicalUnits(i, Lit(0), a, mid, need);
    var y := x + [Copy(Temp(i), g1.result)] + [Jump(end)];
    ThenUnit(y, Label(mid), a, a, a, need);
    ThenUnit(y + [Label(mid)], Copy(Temp(i), Lit(0)), a, a, out, need);
    LogicalUnits(i, Lit(0), out, end, need);
    ThenUnit(y + [Label(mid)] + [Copy(Temp(i), Lit(0))], Label(end), a, out, out, need);
    assert y + [Label(mid)] + [Copy(Temp(i), Lit(0))] + [Label(end)]
        == x + [Copy(Temp(i), g1.result), Jump(end), Label(mid), Copy(Temp(i), Lit(0)), Label(end)];
    UnitNames(Temp(i), g1.result, end, mid, g0.result);
    GenFlowsIs(Gen(x + [ExprC(Temp(i), g1.result), JumpU(end), Label(mid), ExprC(Temp(i), Lit(0)), Label(end)],
      Temp(i), i + 1, mid + 2), a, need);
  }

  lemma LitTemps(w: Word)
    ensures TempsOf([Lit(w)]) == {}
  {
  }

  lemma UnitNames(temp: Operand, o: Operand, end: int, mid: int, p: Operand)
    ensures ExprC(temp, o) == Copy(temp, o) && JumpU(end) == Jump(end) && JumpC(mid, p) == JumpIf(EQ, mid, p, Lit(0))
    ensures forall w :: ExprC(temp, Lit(w)) == Copy(temp, Lit(w))
  {
  }

  lemma GenFlowsIs(g: Gen, a: set<int>, need: map<int, set<int>>)
    ensures GenFlows(g, a, need) <==> FlowsFrom(g.code, a, a + TempsOf([g.result]), need)
  {
    hide FlowsFrom, TempsOf;
  }

  lemma OwnLabels(own: map<int, set<int>>, lo: int, hi: int)
    requires forall k :: k in own ==> lo <= k < hi
    ensures forall ext :: LabelsFrom(own, lo, hi, ext)
  {
  }

  lemma OrFlows(g0: Gen, g1: Gen, l: int, a: set<int>, n0: map<int, set<int>>, n1: map<int, set<int>>)
    returns (need: map<int, set<int>>)
    requires GenFlows(g0, a, n0) && GenFlows(g1, a, n1)
    requires LabelsFrom(n0, l, g0.labels, {}) && LabelsFrom(n1, g0.labels, g1.labels, {}) && l <= g0.labels <= g1.labels
    ensures LabelsFrom(need, l, g1.labels + 2, {})
    ensures var temp, mid, end := Temp(g1.temps), g1.labels, g1.labels + 1;
            GenFlows(
              Gen(g0.code + [JumpC(mid, g0.result), ExprC(temp, Lit(1)), JumpU(end), Label(mid)] + g1.code
                  + [ExprC(temp, g1.result), Label(end)],
                  temp, g1.temps + 1, g1.labels + 2), a, need)
  {
    TempsOfOne(Temp(g1.temps));
    hide *;
    var i, mid, end := g1.temps, g1.labels, g1.labels + 1;
    var m0, m1, out := a + TempsOf([g0.result]), a + TempsOf([g1.result]), a + {i};
    var own := map[mid := a, end := out];
    OwnLabels(own, mid, mid + 2);
    Merge(n0, l, g0.labels, n1, g1.labels, {});
    Merge(n0 + n1, l, g1.labels, own, g1.labels + 2, {});
    need := n0 + n1 + own;
    WithinAll(n0, n0 + n1, need);
    WithinAll(n1, n0 + n1, need);
    GenFlowsIs(g0, a, n0);
    GenFlowsIs(g1, a, n1);
    MoreLabels(g0.code, a, m0, n0, need);
    MoreLabels(g1.code, a, m1, n1, need);
    LogicalUnits(i, g0.result, m0, mid, need);
    var x := g0.code + [JumpC(mid, g0.result)];
    ThenUnit(g0.code, JumpC(mid, g0.result), a, m0, m0, need);
    ThenUnit(x, Copy(Temp(i), Lit(1)), a, m0, m0 + {i}, need);
    LitTemps(1);
    LogicalUnits(i, Lit(1), m0 + {i}, end, need);
    ThenUnit(x + [Copy(Temp(i), Lit(1))], Jump(end), a, m0 + {i}, a, need);
    LogicalUnits(i, Lit(1), a, mid, need);
    var y := x + [Copy(Temp(i), Lit(1))] + [Jump(end)];
    ThenUnit(y, Label(mid), a, a, a, need);
    assert y + [Label(mid)] == g0.code + [JumpC(mid, g0.result), Copy(Temp(i), Lit(1)), Jump(end), Label(mid)];
    JoinFlows(y + [Label(mid)], g1.code, a, a, m1, need);
    var z := y + [Label(mid)] + g1.code;
    LogicalUnits(i, g1.result, m1, end, need);
    ThenUnit(z, Copy(Temp(i), g1.result), a, m1, m1 + {i}, need);
    WeakerFlows(z + [Copy(Temp(i), g1.result)], a, m1 + {i}, a, out, need);
    LogicalUnits(i, Lit(1), out, end, need);
    ThenUnit(z + [Copy(Temp(i), g1.result)], Label(end), a, out, out, need);
    assert z + [Copy(Temp(i), g1.result)] + [Label(end)] == z + [Copy(Temp(i), g1.result), Label(end)];
    UnitNames(Temp(i), g1.result, end, mid, g0.result);
    GenFlowsIs(Gen(z + [ExprC(Temp(i), g1.result), Label(end)], Temp(i), i + 1, mid + 2), a, need);
  }

  lemma JoinTemps(o: Operand, ops: seq<Operand>)
    ensures TempsOf([o] + ops) == TempsOf([o]) + TempsOf(ops)
  {
  }

  lemma {:induction false} ArgumentsFlow(sc: Scope, args: seq<Ast.Expr>, t: int, l: int, a: set<int>) returns (need: map<int, set<int>>)
    requires forall x :: x in args ==> ExprScoped(sc, x)
    ensures var g := GenArguments(args, t, l);
            l <= g.labels && LabelsFrom(need, l, g.labels, {}) && FlowsFrom(g.code, a, a + TempsOf(g.ops), need)
    decreases args, 0
  {
    hide *;
    if args == [] {
      need := map[];
      NoArguments(t, l, a);
    } else {
      var g, h := GenExpr(args[0], t, l), ArgGen(args[0], t, l);
      var rest := GenArguments(args[1..], h.temps, h.labels);
      ArgumentsAre(args, t, l);
      var n0 := ExprFlow(sc, args[0], t, l, a);
      CopiedFlows(g, a, n0);
      CopiedLabels(args[0], t, l);
      var n1 := ArgumentsFlow(sc, args[1..], h.temps, h.labels, a + TempsOf([h.result]));
      need := n0 + n1;
      Merge(n0, l, h.labels, n1, rest.labels, {});
      GenFlowsIs(h, a, n0);
      var m := a + TempsOf([h.result]);
      MoreLabels(h.code, a, m, n0, need);
      MoreLabels(rest.code, m, m + TempsOf(rest.ops), n1, need);
      JoinFlows(h.code, rest.code, a, m, m + TempsOf(rest.ops), need);
      JoinTemps(h.result, rest.ops);
      assert m + TempsOf(rest.ops) == a + TempsOf([h.result] + rest.ops);
    }
  }

  lemma NoArguments(t: int, l: int, a: set<int>)
    ensures var g := GenArguments([], t, l);
            g.labels == l && LabelsFrom(map[], l, l, {}) && FlowsFrom(g.code, a, a + TempsOf(g.ops), map[])
  {
    FlowsEmpty(a, map[]);
    assert a + TempsOf([]) == a;
  }

  lemma ArgumentsAre(args: seq<Ast.Expr>, t: int, l: int)
    requires args != []
    ensures var h := ArgGen(args[0], t, l);
            var rest := GenArguments(args[1..], h.temps, h.labels);
            GenArguments(args, t, l) == GenArgs(h.code + rest.code, [h.result] + rest.ops, rest.temps, rest.labels)
  {
    hide GenExpr, Copied;
  }

  lemma CopiedLabels(e: Ast.Expr, t: int, l: int)
    ensures ArgGen(e, t, l) == Copied(GenExpr(e, t, l)) && ArgGen(e, t, l).labels == GenExpr(e, t, l).labels
  {
    hide GenExpr;
  }

  lemma CopiedFlows(g: Gen, a: set<int>, need: map<int, set<int>>)
    requires GenFlows(g, a, need)
    ensures GenFlows(Copied(g), a, need)
  {
    hide FlowsFrom, TempsOf;
    if !g.result.Temp? {
      ResultFlows(g.code, Copy(Temp(g.temps), g.result), a, a + TempsOf([g.result]), g.temps, g.temps + 1, g.labels, need);
    }
  }

  /** Pushing what has been written. */
  lemma PushFlows(us: seq<Unit>, a: set<int>, need: map<int, set<int>>)
    requires forall u :: u in us ==> u.Arg? && TempsOf([u.val]) <= a
    ensures FlowsFrom(us, a, a, need)
  {
    hide TempsOf, UnitFlows;
    var d := seq(|us| + 1, _ => a);
    forall i | 0 <= i < |us| ensures UnitFlows(us[i], d[i], d[i + 1], need) {
      ArgFlows(us[i].val, a, need);
    }
    assert Flows(us, d, need);
  }

  lemma ArgFlows(o: Operand, a: set<int>, need: map<int, set<int>>)
    requires TempsOf([o]) <= a
    ensures UnitFlows(Arg(o), a, a, need)
  {
  }

  lemma ParamsFlow(ops: seq<Operand>, extra: seq<Unit>, a: set<int>, need: map<int, set<int>>)
    requires TempsOf(ops) <= a && forall u :: u in extra ==> u.Arg? && u.val.Lit?
    ensures FlowsFrom(Params(ops) + extra, a, a, need)
  {
    hide FlowsFrom;
    forall u | u in Params(ops) + extra ensures u.Arg? && TempsOf([u.val]) <= a {
      if u in Params(ops) {
        var i :| 0 <= i < |ops| && Params(ops)[i] == u;
        assert ops[i] in ops;
      }
    }
    PushFlows(Params(ops) + extra, a, need);
  }

  /** Arguments, further ones and the call. */
  lemma CallFlows(g: GenArgs, extra: seq<Unit>, call: Unit, a: set<int>, need: map<int, set<int>>)
    requires FlowsFrom(g.code, a, a + TempsOf(g.ops), need) && IsCall(call)
    requires forall u :: u in extra ==> u.Arg? && u.val.Lit?
    ensures FlowsFrom(g.code + Params(g.ops) + extra + [call], a, a + Written(call), need)
  {
    hide FlowsFrom, TempsOf;
    var m := a + TempsOf(g.ops);
    ParamsFlow(g.ops, extra, m, need);
    JoinFlows(g.code, Params(g.ops) + extra, a, m, m, need);
    CallWrites(call, m, need);
    ThenUnit(g.code + (Params(g.ops) + extra), call, a, m, m + Written(call), need);
    assert g.code + (Params(g.ops) + extra) + [call] == g.code + Params(g.ops) + extra + [call];
    WeakerFlows(g.code + Params(g.ops) + extra + [call], a, m + Written(call), a, a + Written(call), need);
  }

  lemma CallWrites(call: Unit, m: set<int>, need: map<int, set<int>>)
    requires IsCall(call)
    ensures UnitFlows(call, m, m + Written(call), need)
  {
  }

  lemma {:induction false} OperationFlow(sc: Scope, e: Ast.Expr, t: int, l: int, a: set<int>) returns (need: map<int, set<int>>)
    requires ExprScoped(sc, e) && e.BinaryExpr?
    ensures var g := GenExpr(e, t, l);
            l <= g.labels && LabelsFrom(need, l, g.labels, {}) && GenFlows(g, a, need)
    decreases e, 0
  {
    hide GenFlows, FlowsFrom, TempsOf, LabelsFrom, GenArguments, Params, Ast.IsScalar, ByteStride, Ast.ExprType, Written, Named,
         UnitFlows, Flows, ArgGen, Copied, Reads, Destination;
    var g0 := GenExpr(e.ch0, t, l);
    var g1 := GenExpr(e.ch1, g0.temps, g0.labels);
    var n0 := ExprFlow(sc, e.ch0, t, l, a);
    if e.bop == Or {
      var n1 := ExprFlow(sc, e.ch1, g0.temps, g0.labels, a);
      need := OrFlows(g0, g1, l, a, n0, n1);
    } else {
      var n1 := ExprFlow(sc, e.ch1, g0.temps, g0.labels, a + TempsOf([g0.result]));
      if e.bop == And {
        need := AndFlows(g0, g1, l, a, n0, n1);
      } else {
        need := n0 + n1;
        ArithFlows(e.bop, g0, g1, l, a, n0, n1);
      }
    }
  }

  /** What the code of an expression reads it has written before, wherever it is. */
  lemma {:induction false} ExprFlow(sc: Scope, e: Ast.Expr, t: int, l: int, a: set<int>) returns (need: map<int, set<int>>)
    requires ExprScoped(sc, e)
    ensures var g := GenExpr(e, t, l);
            l <= g.labels && LabelsFrom(need, l, g.labels, {}) && GenFlows(g, a, need)
    decreases e, 1
  {
    hide GenFlows, FlowsFrom, TempsOf, LabelsFrom, GenArguments, Params, Ast.IsScalar, ByteStride, Ast.ExprType, Written, Named,
         UnitFlows, Flows, ArgGen, Copied, Reads, Destination;
    need := map[];
    OwnLabels(need, l, l);
    match e {
      case Literal(v) => LiteralFlows(v, t, l, a);
      case Symbol(op, _) => SymbolFlows(sc, op, t, l, a);
      case UnaryExpr(op, ch) =>
        need := ExprFlow(sc, ch, t, l, a);
        if op != UPlus {
          UnaryFlows(op, GenExpr(ch, t, l), a, need);
        }
      case BinaryExpr(_, _, _) => need := OperationFlow(sc, e, t, l, a);
      case OffsetExpr(arr, off) =>
        var g0 := GenExpr(arr, t, l);
        var g1 := GenExpr(off, g0.temps, g0.labels);
        var n0 := ExprFlow(sc, arr, t, l, a);
        var n1 := ExprFlow(sc, off, g0.temps, g0.labels, a + TempsOf([g0.result]));
        need := n0 + n1;
        StrideIsLit(arr);
        OffsetFlows(g0, g1, l, a, n0, n1, ByteStride(arr), Ast.IsScalar(e));
      case CallExpr(kind, name, args) =>
        need := ArgumentsFlow(sc, args, t, l, a);
        ReturnedFlows(GenArguments(args, t, l), name, a, need);
    }
  }

  lemma LiteralFlows(v: Word, t: int, l: int, a: set<int>)
    ensures GenFlows(Gen([ExprC(Temp(t), Lit(v))], Temp(t), t + 1, l), a, map[])
  {
    FlowsEmpty(a, map[]);
    LitTemps(v);
    ResultFlows([], Copy(Temp(t), Lit(v)), a, a, t, t + 1, l, map[]);
    assert [] + [Copy(Temp(t), Lit(v))] == [ExprC(Temp(t), Lit(v))];
  }

  lemma SymbolFlows(sc: Scope, op: Operand, t: int, l: int, a: set<int>)
    requires Named(sc, op)
    ensures GenFlows(Gen([], op, t, l), a, map[])
  {
    FlowsEmpty(a, map[]);
    assert a + TempsOf([op]) == a;
  }

  lemma UnaryFlows(op: UnaryOp, g: Gen, a: set<int>, need: map<int, set<int>>)
    requires GenFlows(g, a, need)
    ensures GenFlows(Gen(g.code + [ExprU(Temp(g.temps), op, g.result)], Temp(g.temps), g.temps + 1, g.labels), a, need)
  {
    hide FlowsFrom, TempsOf;
    ResultFlows(g.code, Unary(op, Temp(g.temps), g.result), a, a + TempsOf([g.result]), g.temps, g.temps + 1, g.labels, need);
  }

  lemma ArithFlows(op: BinaryOp, g0: Gen, g1: Gen, l: int, a: set<int>, n0: map<int, set<int>>, n1: map<int, set<int>>)
    requires GenFlows(g0, a, n0) && GenFlows(g1, a + TempsOf([g0.result]), n1)
    requires LabelsFrom(n0, l, g0.labels, {}) && LabelsFrom(n1, g0.labels, g1.labels, {}) && l <= g0.labels <= g1.labels
    ensures LabelsFrom(n0 + n1, l, g1.labels, {})
    ensures GenFlows(
              Gen(g0.code + g1.code + [ExprB(Temp(g1.temps), op, g0.result, g1.result)],
                  Temp(g1.temps), g1.temps + 1, g1.labels), a, n0 + n1)
  {
    PairFlows(g0, g1, l, a, n0, n1);
    TempsOfTwo(g0.result, g1.result);
    hide FlowsFrom, TempsOf, GenFlows, LabelsFrom;
    ResultFlows(g0.code + g1.code, Binary(op, Temp(g1.temps), g0.result, g1.result), a,
      a + TempsOf([g0.result]) + TempsOf([g1.result]), g1.temps, g1.temps + 1, g1.labels, n0 + n1);
  }

  lemma OffsetFlows(
    g0: Gen, g1: Gen, l: int, a: set<int>, n0: map<int, set<int>>, n1: map<int, set<int>>, stride: Operand, scalar: bool)
    requires GenFlows(g0, a, n0) && GenFlows(g1, a + TempsOf([g0.result]), n1) && stride.Lit?
    requires LabelsFrom(n0, l, g0.labels, {}) && LabelsFrom(n1, g0.labels, g1.labels, {}) && l <= g0.labels <= g1.labels
    ensures LabelsFrom(n0 + n1, l, g1.labels, {})
    ensures var disp, temp := Temp(g1.temps), Temp(g1.temps + 1);
            var scale := ExprB(disp, Mult, g1.result, stride);
            var use := if !scalar then ExprB(temp, Plus, g0.result, disp) else ExprAR(temp, g0.result, disp);
            GenFlows(Gen(g0.code + g1.code + [scale, use], temp, g1.temps + 2, g1.labels), a, n0 + n1)
  {
    PairFlows(g0, g1, l, a, n0, n1);
    TempsOfTwo(g1.result, stride);
    TempsOfOne(stride);
    var i := g1.temps;
    TempsOfTwo(g0.result, Temp(i));
    TempsOfOne(Temp(i));
    hide FlowsFrom, TempsOf, GenFlows, LabelsFrom, UnitFlows;
    var m := a + TempsOf([g0.result]) + TempsOf([g1.result]);
    var scale := ExprB(Temp(i), Mult, g1.result, stride);
    var use := if !scalar then ExprB(Temp(i + 1), Plus, g0.result, Temp(i)) else ExprAR(Temp(i + 1), g0.result, Temp(i));
    ComputeFlows(scale, m, i, n0 + n1);
    ThenUnit(g0.code + g1.code, scale, a, m, m + {i}, n0 + n1);
    ResultFlows(g0.code + g1.code + [scale], use, a, m + {i}, i + 1, i + 2, g1.labels, n0 + n1);
    assert g0.code + g1.code + [scale] + [use] == g0.code + g1.code + [scale, use];
  }

  lemma ReturnedFlows(g: GenArgs, name: string, a: set<int>, need: map<int, set<int>>)
    requires FlowsFrom(g.code, a, a + TempsOf(g.ops), need)
    ensures GenFlows(
              Gen(g.code + Params(g.ops) + [CallI(name, Temp(g.temps))], Temp(g.temps), g.temps + 1, g.labels), a, need)
  {
    hide FlowsFrom, TempsOf;
    CallFlows(g, [], CallI(name, Temp(g.temps)), a, need);
    assert g.code + Params(g.ops) + [] + [CallI(name, Temp(g.temps))] == g.code + Params(g.ops) + [CallI(name, Temp(g.temps))];
  }

  // ----- statements -----

  /** No temporary outlives a statement. */
  ghost predicate StmtFlows(g: GenS, l: int, ext: set<int>, need: map<int, set<int>>) {
    l <= g.labels && LabelsFrom(need, l, g.labels, ext) && FlowsFrom(g.code, {}, {}, need)
  }

  lemma InLoop(n: map<int, set<int>>, lo: int, hi: int, ext: set<int>)
    requires LabelsFrom(n, lo, hi, {})
    ensures LabelsFrom(n, lo, hi, ext)
  {
  }

  /** Jumps to labels that need nothing. */
  lemma FreeUnits(l: int, o: Operand, m: set<int>, need: map<int, set<int>>)
    requires l in need && need[l] == {} && TempsOf([o]) <= m
    ensures UnitFlows(JumpC(l, o), m, {}, need) && UnitFlows(JumpU(l), {}, {}, need) && UnitFlows(Label(l), {}, {}, need)
  {
    TempsOfTwo(o, Lit(0));
  }

  /** An expression and a unit that uses its result. */
  lemma UseFlows(g: Gen, u: Unit, need: map<int, set<int>>)
    requires GenFlows(g, {}, need) && UnitFlows(u, TempsOf([g.result]), {}, need)
    ensures FlowsFrom(g.code + [u], {}, {}, need)
  {
    hide FlowsFrom, TempsOf, UnitFlows;
    assert {} + TempsOf([g.result]) == TempsOf([g.result]);
    ThenUnit(g.code, u, {}, TempsOf([g.result]), {}, need);
  }

  lemma UseUnits(o: Operand, op: Operand, w: Operand, m: set<int>, need: map<int, set<int>>)
    requires TempsOf([o]) <= m && !op.Temp? && !w.Temp?
    ensures UnitFlows(ExprC(op, o), m, {}, need) && UnitFlows(RetI(o), m, {}, need) && UnitFlows(ExprAW(op, w, o), m, {}, need)
  {
    assert TempsOf([op, o, w]) == TempsOf([o]);
  }

  lemma EvaluatedFlows(g: Gen, l: int, ext: set<int>, need: map<int, set<int>>)
    requires GenFlows(g, {}, need) && LabelsFrom(need, l, g.labels, {}) && l <= g.labels
    ensures StmtFlows(GenS(g.code, [], g.temps, g.labels), l, ext, need)
  {
    InLoop(need, l, g.labels, ext);
    hide FlowsFrom, TempsOf, LabelsFrom;
    WeakerFlows(g.code, {}, TempsOf([g.result]), {}, {}, need);
  }

  lemma UsedFlows(g: Gen, u: Unit, t: int, l: int, ext: set<int>, need: map<int, set<int>>)
    requires GenFlows(g, {}, need) && LabelsFrom(need, l, g.labels, {}) && l <= g.labels
    requires UnitFlows(u, TempsOf([g.result]), {}, need)
    ensures forall decs :: StmtFlows(GenS(g.code + [u], decs, t, g.labels), l, ext, need)
  {
    UseFlows(g, u, need);
    InLoop(need, l, g.labels, ext);
    hide FlowsFrom, TempsOf, LabelsFrom, UnitFlows, GenFlows;
  }

  lemma SequenceFlows(
    x: GenS, y: GenS, l: int, ext: set<int>, n0: map<int, set<int>>, n1: map<int, set<int>>)
    requires StmtFlows(x, l, ext, n0) && StmtFlows(y, x.labels, ext, n1) && forall k :: k in ext ==> k < l
    ensures forall decs, t :: StmtFlows(GenS(x.code + y.code, decs, t, y.labels), l, ext, n0 + n1)
  {
    hide FlowsFrom, LabelsFrom;
    Merge(n0, l, x.labels, n1, y.labels, ext);
    MoreLabels(x.code, {}, {}, n0, n0 + n1);
    MoreLabels(y.code, {}, {}, n1, n0 + n1);
    JoinFlows(x.code, y.code, {}, {}, {}, n0 + n1);
  }

  lemma {:induction false} InitFlow(
    sc: Scope, op: Operand, length: int, init: seq<Ast.Alignment>, t: int, l: int, ext: set<int>)
    returns (need: map<int, set<int>>)
    requires Named(sc, op) && (forall a :: a in init ==> ExprScoped(sc, a.exp)) && forall k :: k in ext ==> k < l
    ensures StmtFlows(GenInit(op, length, init, t, l), l, ext, need)
  {
    hide StmtFlows, GenExpr, ExprScoped, Named, FlowsFrom, LabelsFrom, UnitFlows, TempsOf, GenFlows;
    if init == [] {
      need := map[];
      NothingFlows(l, ext);
    } else {
      var g := GenExpr(init[0].exp, t, l);
      var n0 := ExprFlow(sc, init[0].exp, t, l, {});
      NamedApart(sc, op);
      UseUnits(g.result, op, Lit(Wrap(init[0].offset * 4)), TempsOf([g.result]), n0);
      var put := if length > 0 then ExprAW(op, Lit(Wrap(init[0].offset * 4)), g.result) else ExprC(op, g.result);
      UsedFlows(g, put, g.temps, l, ext, n0);
      var n1 := InitFlow(sc, op, length, init[1..], g.temps, g.labels, ext);
      need := n0 + n1;
      SequenceFlows(GenS(g.code + [put], [], g.temps, g.labels), GenInit(op, length, init[1..], g.temps, g.labels), l, ext, n0, n1);
    }
  }

  lemma NamedApart(sc: Scope, op: Operand)
    requires Named(sc, op)
    ensures !op.Temp?
  {
  }

  lemma NothingFlows(l: int, ext: set<int>)
    ensures forall decs, t :: StmtFlows(GenS([], decs, t, l), l, ext, map[])
  {
    FlowsEmpty({}, map[]);
    hide FlowsFrom;
  }

  lemma JumpOutFlows(target: int, l: int, ext: set<int>)
    requires target in ext
    ensures forall t :: StmtFlows(GenS([JumpU(target)], [], t, l), l, ext, map[target := {}])
  {
    var need := map[target := {}];
    FreeUnits(target, Lit(0), {}, need) by { LitTemps(0); }
    FlowsEmpty({}, need);
    ThenUnit([], JumpU(target), {}, {}, {}, need);
    assert [] + [JumpU(target)] == [JumpU(target)];
    hide FlowsFrom, UnitFlows;
  }

  lemma ReturnFlows(l: int, ext: set<int>)
    ensures forall t :: StmtFlows(GenS([RetV], [], t, l), l, ext, map[])
    ensures forall t :: StmtFlows(GenS([RetI(Lit(0))], [], t, l), l, ext, map[])
    ensures forall t, name :: StmtFlows(GenS([CallV(name)], [], t, l), l, ext, map[])
  {
    LitTemps(0);
    forall u: Unit | u.RetV? || u == RetI(Lit(0)) || u.CallV? ensures FlowsFrom([u], {}, {}, map[]) {
      FlowsEmpty({}, map[]);
      ThenUnit([], u, {}, {}, {}, map[]);
      assert [] + [u] == [u];
    }
    hide FlowsFrom;
  }

  /** `arr[off] = rhs`. */
  lemma ElementFlows(
    g: Gen, g0: Gen, g1: Gen, stride: Operand, l: int, ext: set<int>,
    n: map<int, set<int>>, n0: map<int, set<int>>, n1: map<int, set<int>>)
    requires GenFlows(g, {}, n) && GenFlows(g0, TempsOf([g.result]), n0) && stride.Lit?
    requires GenFlows(g1, TempsOf([g.result]) + TempsOf([g0.result]), n1) && forall k :: k in ext ==> k < l
    requires LabelsFrom(n, l, g.labels, {}) && LabelsFrom(n0, g.labels, g0.labels, {}) && LabelsFrom(n1, g0.labels, g1.labels, {})
    requires l <= g.labels <= g0.labels <= g1.labels
    ensures var disp := Temp(g1.temps);
            StmtFlows(
              GenS(g.code + g0.code + g1.code + [ExprB(disp, Mult, g1.result, stride), ExprAW(g0.result, disp, g.result)],
                   [], g1.temps + 1, g1.labels), l, ext, n + (n0 + n1))
  {
    var need, a := n + (n0 + n1), TempsOf([g.result]);
    var m := a + TempsOf([g0.result]) + TempsOf([g1.result]);
    PairFlows(g0, g1, g.labels, a, n0, n1);
    Merge(n, l, g.labels, n0 + n1, g1.labels, {});
    InLoop(need, l, g1.labels, ext);
    ElementUnits(g.result, g0.result, g1.result, stride, g1.temps, m, need);
    hide FlowsFrom, TempsOf, LabelsFrom, UnitFlows;
    MoreLabels(g.code, {}, {} + a, n, need);
    MoreLabels(g0.code + g1.code, a, m, n0 + n1, need);
    JoinFlows(g.code, g0.code + g1.code, {}, a, m, need);
    var scale := ExprB(Temp(g1.temps), Mult, g1.result, stride);
    var put := ExprAW(g0.result, Temp(g1.temps), g.result);
    ThenUnit(g.code + (g0.code + g1.code), scale, {}, m, m + {g1.temps}, need);
    ThenUnit(g.code + (g0.code + g1.code) + [scale], put, {}, m + {g1.temps}, {}, need);
    assert g.code + (g0.code + g1.code) + [scale] + [put] == g.code + g0.code + g1.code + [scale, put];
  }

  lemma ElementUnits(o: Operand, base: Operand, sub: Operand, stride: Operand, i: int, m: set<int>, need: map<int, set<int>>)
    requires TempsOf([o]) <= m && TempsOf([base]) <= m && TempsOf([sub]) <= m && stride.Lit?
    ensures UnitFlows(ExprB(Temp(i), Mult, sub, stride), m, m + {i}, need)
    ensures UnitFlows(ExprAW(base, Temp(i), o), m + {i}, {}, need)
  {
    TempsOfTwo(sub, stride);
    TempsOfOne(stride);
    TempsOfOne(Temp(i));
    assert TempsOf([base, o, Temp(i)]) == TempsOf([base]) + TempsOf([o]) + TempsOf([Temp(i)]);
    ComputeFlows(ExprB(Temp(i), Mult, sub, stride), m, i, need);
  }

  lemma DroppedFlows(g: GenArgs, extra: seq<Unit>, call: Unit, t: int, l: int, ext: set<int>, need: map<int, set<int>>)
    requires FlowsFrom(g.code, {}, {} + TempsOf(g.ops), need) && IsCall(call) && LabelsFrom(need, l, g.labels, {}) && l <= g.labels
    requires forall u :: u in extra ==> u.Arg? && u.val.Lit?
    ensures StmtFlows(GenS(g.code + Params(g.ops) + extra + [call], [], t, g.labels), l, ext, need)
  {
    CallFlows(g, extra, call, {}, need);
    InLoop(need, l, g.labels, ext);
    hide FlowsFrom, LabelsFrom, TempsOf;
    WeakerFlows(g.code + Params(g.ops) + extra + [call], {}, {} + Written(call), {}, {}, need);
  }

  lemma DroppedFlow(sc: Scope, e: Ast.Expr, t: int, l: int, ext: set<int>) returns (need: map<int, set<int>>)
    requires e.CallExpr? && CallScoped(sc, e)
    ensures var g := GenExpr(e, t, l); StmtFlows(GenS(g.code, [], g.temps, g.labels), l, ext, need)
  {
    hide FlowsFrom, LabelsFrom, TempsOf, StmtFlows, ExprScoped, GenArguments, Params;
    var a, g := GenArguments(e.args, t, l), GenExpr(e, t, l);
    need := ArgumentsFlow(sc, e.args, t, l, {});
    var extra := if e.kind.MacroCall? then [Arg(Lit(e.kind.line))] else [];
    var call :=
      match e.kind
      case MacroCall(_) => CallV(Ast.MACRO_PREFIX + e.name)
      case IntCall => CallI(e.name, Temp(a.temps))
      case VoidCall => CallV(e.name);
    DroppedFlows(a, extra, call, g.temps, l, ext, need);
    assert g.code == a.code + Params(a.ops) + extra + [call];
  }

  lemma ThenFlows(g: Gen, g0: GenS, l: int, ext: set<int>, n: map<int, set<int>>, n0: map<int, set<int>>)
    returns (need: map<int, set<int>>)
    requires GenFlows(g, {}, n) && LabelsFrom(n, l, g.labels, {}) && l <= g.labels && StmtFlows(g0, g.labels, ext, n0)
    requires forall k :: k in ext ==> k < l
    ensures StmtFlows(
              GenS(g.code + [JumpC(g0.labels, g.result)] + g0.code + [Label(g0.labels)], g0.decs, g0.temps, g0.labels + 1),
              l, ext, need)
  {
    var end := g0.labels;
    var own := map[end := {}];
    OwnLabels(own, end, end + 1);
    InLoop(n, l, g.labels, ext);
    Merge(n, l, g.labels, n0, end, ext);
    Merge(n + n0, l, end, own, end + 1, ext);
    need := n + n0 + own;
    WithinAll(n, n + n0, need);
    WithinAll(n0, n + n0, need);
    FreeUnits(end, g.result, TempsOf([g.result]), need);
    hide FlowsFrom, TempsOf, LabelsFrom, UnitFlows;
    MoreLabels(g.code, {}, {} + TempsOf([g.result]), n, need);
    MoreLabels(g0.code, {}, {}, n0, need);
    UseFlows(g, JumpC(end, g.result), need);
    var x := g.code + [JumpC(end, g.result)];
    JoinFlows(x, g0.code, {}, {}, {}, need);
    ThenUnit(x + g0.code, Label(end), {}, {}, {}, need);
  }

  lemma ElseFlows(
    g: Gen, g0: GenS, g1: GenS, l: int, ext: set<int>, n: map<int, set<int>>, n0: map<int, set<int>>, n1: map<int, set<int>>)
    returns (need: map<int, set<int>>)
    requires GenFlows(g, {}, n) && LabelsFrom(n, l, g.labels, {}) && l <= g.labels
    requires StmtFlows(g0, g.labels, ext, n0) && StmtFlows(g1, g0.labels, ext, n1) && forall k :: k in ext ==> k < l
    ensures var els, end := g1.labels, g1.labels + 1;
            StmtFlows(
              GenS(g.code + [JumpC(els, g.result)] + g0.code + [JumpU(end), Label(els)] + g1.code + [Label(end)],
                   g0.decs + g1.decs, g1.temps, g1.labels + 2), l, ext, need)
  {
    var els, end := g1.labels, g1.labels + 1;
    var own := map[els := {}, end := {}];
    OwnLabels(own, els, els + 2);
    InLoop(n, l, g.labels, ext);
    Merge(n, l, g.labels, n0, g0.labels, ext);
    Merge(n + n0, l, g0.labels, n1, els, ext);
    Merge(n + n0 + n1, l, els, own, els + 2, ext);
    need := n + n0 + n1 + own;
    WithinAll(n, n + n0, n + n0 + n1);
    WithinAll(n0, n + n0, n + n0 + n1);
    WithinAll(n, n + n0 + n1, need);
    WithinAll(n0, n + n0 + n1, need);
    WithinAll(n1, n + n0 + n1, need);
    FreeUnits(els, g.result, TempsOf([g.result]), need);
    FreeUnits(end, g.result, TempsOf([g.result]), need);
    hide FlowsFrom, TempsOf, LabelsFrom, UnitFlows, Within;
    MoreLabels(g.code, {}, {} + TempsOf([g.result]), n, need);
    MoreLabels(g0.code, {}, {}, n0, need);
    MoreLabels(g1.code, {}, {}, n1, need);
    UseFlows(g, JumpC(els, g.result), need);
    var x := g.code + [JumpC(els, g.result)];
    JoinFlows(x, g0.code, {}, {}, {}, need);
    ThenUnit(x + g0.code, JumpU(end), {}, {}, {}, need);
    ThenUnit(x + g0.code + [JumpU(end)], Label(els), {}, {}, {}, need);
    assert x + g0.code + [JumpU(end)] + [Label(els)] == x + g0.code + [JumpU(end), Label(els)];
    JoinFlows(x + g0.code + [JumpU(end), Label(els)], g1.code, {}, {}, {}, need);
    ThenUnit(x + g0.code + [JumpU(end), Label(els)] + g1.code, Label(end), {}, {}, {}, need);
  }

  lemma LoopFlows(g: Gen, g0: GenS, l: int, ext: set<int>, n: map<int, set<int>>, n0: map<int, set<int>>)
    returns (need: map<int, set<int>>)
    requires GenFlows(g, {}, n) && LabelsFrom(n, l, g.labels, {}) && l <= g.labels
    requires StmtFlows(g0, g.labels + 2, {g.labels, g.labels + 1}, n0)
    ensures var start, end := g.labels, g.labels + 1;
            StmtFlows(
              GenS([Label(start)] + g.code + [JumpC(end, g.result)] + g0.code + [JumpU(start), Label(end)],
                   g0.decs, g0.temps, g0.labels), l, ext, need)
  {
    var start, end := g.labels, g.labels + 1;
    var own := map[start := {}, end := {}];
    need := n + n0 + own;
    assert Within(n, need) && Within(n0, need) && LabelsFrom(need, l, g0.labels, ext);
    FreeUnits(start, g.result, TempsOf([g.result]), need);
    FreeUnits(end, g.result, TempsOf([g.result]), need);
    hide FlowsFrom, TempsOf, LabelsFrom, UnitFlows, Within;
    MoreLabels(g.code, {}, {} + TempsOf([g.result]), n, need);
    MoreLabels(g0.code, {}, {}, n0, need);
    FlowsEmpty({}, need);
    ThenUnit([], Label(start), {}, {}, {}, need);
    assert [] + [Label(start)] == [Label(start)];
    UseFlows(g, JumpC(end, g.result), need);
    JoinFlows([Label(start)], g.code + [JumpC(end, g.result)], {}, {}, {}, need);
    var x := [Label(start)] + g.code + [JumpC(end, g.result)];
    assert [Label(start)] + (g.code + [JumpC(end, g.result)]) == x;
    JoinFlows(x, g0.code, {}, {}, {}, need);
    ThenUnit(x + g0.code, JumpU(start), {}, {}, {}, need);
    ThenUnit(x + g0.code + [JumpU(start)], Label(end), {}, {}, {}, need);
    assert x + g0.code + [JumpU(start)] + [Label(end)] == x + g0.code + [JumpU(start), Label(end)];
  }

  lemma SimpleFlow(
    sc: Scope, s: Ast.Stmt, t: int, l: int, cont: Option<int>, brk: Option<int>, inLoop: bool)
    returns (need: map<int, set<int>>)
    requires StmtScoped(sc, s, inLoop) && (inLoop ==> cont.Some? && brk.Some?) && !s.Block? && !s.If? && !s.While?
    requires forall k :: k in Targets(cont, brk) ==> k < l
    ensures StmtFlows(GenStmt(s, t, l, cont, brk), l, Targets(cont, brk), need)
  {
    hide StmtFlows, GenFlows, GenExpr, ExprScoped, GenInit, Named, GenBlock, DeclarationCast, CallScoped, ByteStride, FlowsFrom,
         LabelsFrom, TempsOf, UnitFlows;
    var ext := Targets(cont, brk);
    need := map[];
    match s {
      case Empty => NothingFlows(l, ext);
      case Break =>
        need := map[brk.value := {}];
        JumpOutFlows(brk.value, l, ext);
      case Continue =>
        need := map[cont.value := {}];
        JumpOutFlows(cont.value, l, ext);
      case Declare(op, length, init) =>
        ScopedName(sc, op);
        need := InitFlow(sc, op, length, init, t, l, ext);
        DeclaredFlows(GenInit(op, length, init, t, l), l, ext, need);
      case AssignStmt(lhs, rhs) => need := AssignFlow(sc, s, t, l, ext);
      case ExprStmt(e) =>
        if e.CallExpr? {
          need := DroppedFlow(sc, e, t, l, ext);
        } else {
          need := ExprFlow(sc, e, t, l, {});
          EvaluatedFlows(GenExpr(e, t, l), l, ext, need);
        }
      case Return(v) =>
        if v.Some? {
          var g := GenExpr(v.value, t, l);
          need := ExprFlow(sc, v.value, t, l, {});
          UseUnits(g.result, Var(0), Lit(0), TempsOf([g.result]), need);
          UsedFlows(g, RetI(g.result), g.temps, l, ext, need);
        } else {
          ReturnFlows(l, ext);
        }
    }
  }

  lemma IfElseIs(s: Ast.Stmt, t: int, l: int, cont: Option<int>, brk: Option<int>)
    requires s.If? && s.elseClause.Some?
    ensures var g := GenExpr(s.cond, t, l);
            var g0 := GenStmt(s.thenClause, g.temps, g.labels, cont, brk);
            var g1 := GenStmt(s.elseClause.value, g0.temps, g0.labels, cont, brk);
            var els, end := g1.labels, g1.labels + 1;
            GenStmt(s, t, l, cont, brk)
            == GenS(g.code + [JumpC(els, g.result)] + g0.code + [JumpU(end), Label(els)] + g1.code + [Label(end)],
                    g0.decs + g1.decs, g1.temps, g1.labels + 2)
  {
    hide GenExpr, GenBlock, GenInit;
  }

  lemma IfThenIs(s: Ast.Stmt, t: int, l: int, cont: Option<int>, brk: Option<int>)
    requires s.If? && s.elseClause.None?
    ensures var g := GenExpr(s.cond, t, l);
            var g0 := GenStmt(s.thenClause, g.temps, g.labels, cont, brk);
            GenStmt(s, t, l, cont, brk)
            == GenS(g.code + [JumpC(g0.labels, g.result)] + g0.code + [Label(g0.labels)], g0.decs, g0.temps, g0.labels + 1)
  {
    hide GenExpr, GenBlock, GenInit;
  }

  lemma IfFlow(
    s: Ast.Stmt, t: int, l: int, cont: Option<int>, brk: Option<int>, ext: set<int>,
    n: map<int, set<int>>, n0: map<int, set<int>>, n1: map<int, set<int>>)
    returns (need: map<int, set<int>>)
    requires s.If?
    requires var g := GenExpr(s.cond, t, l);
             var g0 := GenStmt(s.thenClause, g.temps, g.labels, cont, brk);
             && l <= g.labels && LabelsFrom(n, l, g.labels, {}) && GenFlows(g, {}, n) && StmtFlows(g0, g.labels, ext, n0)
             && (forall k :: k in ext ==> k < l)
             && (s.elseClause.Some? ==>
                   StmtFlows(GenStmt(s.elseClause.value, g0.temps, g0.labels, cont, brk), g0.labels, ext, n1))
    ensures StmtFlows(GenStmt(s, t, l, cont, brk), l, ext, need)
  {
    hide *;
    var g := GenExpr(s.cond, t, l);
    var g0 := GenStmt(s.thenClause, g.temps, g.labels, cont, brk);
    if s.elseClause.Some? {
      IfElseIs(s, t, l, cont, brk);
      need := ElseFlows(g, g0, GenStmt(s.elseClause.value, g0.temps, g0.labels, cont, brk), l, ext, n, n0, n1);
    } else {
      IfThenIs(s, t, l, cont, brk);
      need := ThenFlows(g, g0, l, ext, n, n0);
    }
  }

  lemma WhileFlow(
    s: Ast.Stmt, t: int, l: int, cont: Option<int>, brk: Option<int>, ext: set<int>, n: map<int, set<int>>, n0: map<int, set<int>>)
    returns (need: map<int, set<int>>)
    requires s.While?
    requires var g := GenExpr(s.cond, t, l);
             && l <= g.labels && LabelsFrom(n, l, g.labels, {}) && GenFlows(g, {}, n)
             && StmtFlows(GenStmt(s.body, g.temps, g.labels + 2, Some(g.labels), Some(g.labels + 1)),
                          g.labels + 2, {g.labels, g.labels + 1}, n0)
    ensures StmtFlows(GenStmt(s, t, l, cont, brk), l, ext, need)
  {
    hide StmtFlows, GenFlows, GenExpr, LabelsFrom, GenBlock, GenInit;
    var g := GenExpr(s.cond, t, l);
    need := LoopFlows(g, GenStmt(s.body, g.temps, g.labels + 2, Some(g.labels), Some(g.labels + 1)), l, ext, n, n0);
  }

  lemma BlockIs(items: seq<Ast.Stmt>, t: int, l: int, cont: Option<int>, brk: Option<int>)
    ensures GenStmt(Ast.Block(items), t, l, cont, brk) == GenBlock(items, t, l, cont, brk)
  {
    hide GenBlock;
  }

  lemma LoopTargets(l: int)
    ensures Targets(Some(l), Some(l + 1)) == {l, l + 1}
  {
  }

  /** What the code of a statement reads from temporaries it has written before. */
  lemma {:induction false} StmtFlow(
    sc: Scope, s: Ast.Stmt, t: int, l: int, cont: Option<int>, brk: Option<int>, inLoop: bool)
    returns (need: map<int, set<int>>)
    requires StmtScoped(sc, s, inLoop) && (inLoop ==> cont.Some? && brk.Some?)
    requires forall k :: k in Targets(cont, brk) ==> k < l
    ensures StmtFlows(GenStmt(s, t, l, cont, brk), l, Targets(cont, brk), need)
    decreases s, 1
  {
    hide StmtFlows, GenFlows, GenExpr, GenStmt, ExprScoped, CallScoped, Named, GenBlock, FlowsFrom, LabelsFrom;
    var ext := Targets(cont, brk);
    hide Targets;
    match s {
      case Block(items) =>
        need := BlockFlow(sc, items, t, l, cont, brk, inLoop);
        BlockIs(items, t, l, cont, brk);
      case If(cond, thenClause, elseClause) =>
        var g := GenExpr(cond, t, l);
        var n := ExprFlow(sc, cond, t, l, {});
        var g0 := GenStmt(thenClause, g.temps, g.labels, cont, brk);
        var n0 := StmtFlow(sc, thenClause, g.temps, g.labels, cont, brk, inLoop);
        var n1: map<int, set<int>> := map[];
        if elseClause.Some? {
          LabelsGo(g0, g.labels, ext, n0);
          n1 := StmtFlow(sc, elseClause.value, g0.temps, g0.labels, cont, brk, inLoop);
        }
        need := IfFlow(s, t, l, cont, brk, ext, n, n0, n1);
      case While(cond, body) =>
        var g := GenExpr(cond, t, l);
        var n := ExprFlow(sc, cond, t, l, {});
        LoopTargets(g.labels);
        var n0 := StmtFlow(sc, body, g.temps, g.labels + 2, Some(g.labels), Some(g.labels + 1), true);
        need := WhileFlow(s, t, l, cont, brk, ext, n, n0);
      case _ => need := SimpleFlow(sc, s, t, l, cont, brk, inLoop);
    }
  }

  lemma LabelsGo(g: GenS, l: int, ext: set<int>, need: map<int, set<int>>)
    requires StmtFlows(g, l, ext, need)
    ensures l <= g.labels
  {
  }

  lemma DeclaredFlows(g: GenS, l: int, ext: set<int>, need: map<int, set<int>>)
    requires StmtFlows(g, l, ext, need)
    ensures forall decs :: StmtFlows(g.(decs := decs), l, ext, need)
  {
  }

  lemma AssignFlow(sc: Scope, s: Ast.Stmt, t: int, l: int, ext: set<int>) returns (need: map<int, set<int>>)
    requires s.AssignStmt? && StmtScoped(sc, s, false) && forall k :: k in ext ==> k < l
    ensures forall cont, brk :: StmtFlows(GenStmt(s, t, l, cont, brk), l, ext, need)
  {
    hide StmtFlows, GenFlows, GenExpr, ExprScoped, Named, ByteStride, FlowsFrom, LabelsFrom, TempsOf, UnitFlows;
    var lhs, rhs := s.lhs, s.rhs;
    var g := GenExpr(rhs, t, l);
    var n := ExprFlow(sc, rhs, t, l, {});
    assert {} + TempsOf([g.result]) == TempsOf([g.result]);
    if lhs.OffsetExpr? {
      OffsetScoped(sc, lhs);
      var g0 := GenExpr(lhs.arr, g.temps, g.labels);
      var n0 := ExprFlow(sc, lhs.arr, g.temps, g.labels, TempsOf([g.result]));
      var n1 := ExprFlow(sc, lhs.off, g0.temps, g0.labels, TempsOf([g.result]) + TempsOf([g0.result]));
      StrideIsLit(lhs.arr);
      ElementFlows(g, g0, GenExpr(lhs.off, g0.temps, g0.labels), ByteStride(lhs.arr), l, ext, n, n0, n1);
      need := n + (n0 + n1);
    } else {
      SymbolCode(lhs, g.temps, g.labels);
      SymbolApart(sc, lhs);
      UseUnits(g.result, lhs.op, Lit(0), TempsOf([g.result]), n);
      UsedFlows(g, ExprC(lhs.op, g.result), g.temps, l, ext, n);
      need := n;
    }
  }

  lemma SymbolApart(sc: Scope, e: Ast.Expr)
    requires e.Symbol? && ExprScoped(sc, e)
    ensures !e.op.Temp?
  {
  }

  lemma {:induction false} BlockFlow(
    sc: Scope, items: seq<Ast.Stmt>, t: int, l: int, cont: Option<int>, brk: Option<int>, inLoop: bool)
    returns (need: map<int, set<int>>)
    requires (forall i :: i in items ==> StmtScoped(sc, i, inLoop)) && (inLoop ==> cont.Some? && brk.Some?)
    requires forall k :: k in Targets(cont, brk) ==> k < l
    ensures StmtFlows(GenBlock(items, t, l, cont, brk), l, Targets(cont, brk), need)
    decreases items, 0
  {
    hide StmtFlows, GenStmt, StmtScoped, Targets;
    var ext := Targets(cont, brk);
    if items == [] {
      need := map[];
      NothingFlows(l, ext);
    } else {
      var g := GenStmt(items[0], t, l, cont, brk);
      var n0 := StmtFlow(sc, items[0], t, l, cont, brk, inLoop);
      LabelsGo(g, l, ext, n0);
      var n1 := BlockFlow(sc, items[1..], g.temps, g.labels, cont, brk, inLoop);
      need := n0 + n1;
      SequenceFlows(g, GenBlock(items[1..], g.temps, g.labels, cont, brk), l, ext, n0, n1);
    }
  }

  // ----- programs -----

  lemma FunctionFlow(sc: Scope, f: GenEeyore.Function, t: int, l: int) returns (need: map<int, set<int>>)
    requires StmtScoped(sc, f.body, false)
    ensures FlowsFrom(FunctionCode(f, GenStmt(f.body, t, l, None, None).code), {}, {}, need)
  {
    hide FlowsFrom, GenStmt, StmtScoped, LabelsFrom;
    assert Targets(None, None) == {};
    var g := GenStmt(f.body, t, l, None, None);
    need := StmtFlow(sc, f.body, t, l, None, None, false);
    ReturnFlows(l, {});
    EmptyNeeds(need, l);
    var front := if f.name == "main" then [CallV(INITIALIZER)] else [];
    if f.name == "main" {
      assert StmtFlows(GenS([CallV(INITIALIZER)], [], t, l), l, {}, map[]);
      MoreLabels([CallV(INITIALIZER)], {}, {}, map[], need);
    } else {
      FlowsEmpty({}, need);
    }
    JoinFlows(front, g.code, {}, {}, {}, need);
    if f.isVoid {
      assert StmtFlows(GenS([RetI(Lit(0))], [], t, l), l, {}, map[]);
      MoreLabels([RetI(Lit(0))], {}, {}, map[], need);
      JoinFlows(front + g.code, [RetI(Lit(0))], {}, {}, {}, need);
    } else {
      assert front + g.code + [] == front + g.code;
    }
  }

  lemma EmptyNeeds(need: map<int, set<int>>, l: int)
    ensures Within(map[], need)
  {
  }

  lemma {:induction false} GlobalsFlow(sc: Scope, decs: seq<GP.Declaration>) returns (need: map<int, set<int>>)
    requires forall d :: d in decs ==> Named(sc, d.op) && forall a :: a in d.init ==> ExprScoped(sc, a.exp)
    ensures StmtFlows(GP.GenGlobals(decs), 0, {}, need)
  {
    hide StmtFlows, GenInit, ExprScoped, Named;
    if decs == [] {
      need := map[];
      NothingFlows(0, {});
    } else {
      var before, d := GP.GenGlobals(decs[..|decs| - 1]), decs[|decs| - 1];
      var n0 := GlobalsFlow(sc, decs[..|decs| - 1]);
      assert d in decs;
      var n1 := InitFlow(sc, d.op, d.length, d.init, before.temps, before.labels, {});
      need := n0 + n1;
      SequenceFlows(before, GenInit(d.op, d.length, d.init, before.temps, before.labels), 0, {}, n0, n1);
    }
  }

  lemma InitializerFlow(sc: Scope, decs: seq<GP.Declaration>) returns (need: map<int, set<int>>)
    requires forall d :: d in decs ==> Named(sc, d.op) && forall a :: a in d.init ==> ExprScoped(sc, a.exp)
    ensures FlowsFrom(GP.GenGlobals(decs).code + [RetV], {}, {}, need)
  {
    hide FlowsFrom, GP.GenGlobals, ExprScoped, Named, LabelsFrom;
    var g := GP.GenGlobals(decs);
    need := GlobalsFlow(sc, decs);
    ReturnFlows(g.labels, {});
    assert StmtFlows(GenS([RetV], [], 0, g.labels), g.labels, {}, map[]);
    EmptyNeeds(need, 0);
    MoreLabels([RetV], {}, {}, map[], need);
    JoinFlows(g.code, [RetV], {}, {}, {}, need);
  }

  lemma ProgramFlows(p: GP.Program, scs: seq<Scope>, i: nat) returns (need: map<int, set<int>>)
    requires GP.ProgramScoped(p, scs) && i <= |p.funcs|
    ensures |GP.Generate(p).funcs| == |p.funcs| + 1
    ensures FlowsFrom(GP.Generate(p).funcs[i].code, {}, {}, need)
  {
    hide FlowsFrom, GenStmt, StmtScoped, GP.GenFuncs, GP.GenGlobals, ExprScoped, Named, TempDecs, FunctionCode;
    GP.GenerateLength(p);
    var g := GP.GenGlobals(p.globals);
    if i == 0 {
      need := InitializerFlow(scs[0], p.globals);
    } else {
      var b := GP.GenFuncs(p.funcs[..i - 1], g.temps, g.labels);
      GP.GenFuncsAt(p.funcs, g.temps, g.labels, i - 1);
      assert StmtScoped(scs[i - 1 + 1], p.funcs[i - 1].body, false);
      need := FunctionFlow(scs[i], p.funcs[i - 1], b.temps, b.labels);
    }
  }

  /** No run of a generated function, whatever state it is entered in, comes to a unit that reads a
      temporary the run has not written before. */
  lemma NoReadBeforeWrite(p: GP.Program, scs: seq<Scope>, i: nat, c: Context, s: State, n: nat)
    requires GP.ProgramScoped(p, scs) && i <= |p.funcs| && Entry(s)
    ensures |GP.Generate(p).funcs| == |p.funcs| + 1
    ensures ReadsWritten(GP.Generate(p).funcs[i].code, Run(GP.Generate(p).funcs[i].code, c, s, n))
  {
    hide *;
    var need := ProgramFlows(p, scs, i);
    EntryStarts(s);
    FlowsRead(GP.Generate(p).funcs[i].code, c, s, {}, need, n);
  }

  lemma EntryStarts(s: State)
    requires Entry(s)
    ensures s.pc == 0
  {
  }
}
