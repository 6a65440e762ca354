/** The peephole optimiser: four alias trackers, the removal of stores nobody reads, and jump threading. */
module Peephole {
  import opened Words
  import opened Wrappers
  import opened Primitive
  import opened Layout
  import opened Dashie

  // ----- trackers of constants -----

  /** What an alias tracker remembers registers to hold: addresses of globals, literals or frame addresses. */
  datatype Kind = GloPtr | Imm | StkPtr

  datatype Fact = Fact(reg: Reg, value: int)

  /** The fact that a unit of the tracked kind establishes. */
  function Remembered(k: Kind, u: Unit): Option<Fact> {
    match u
    case PtrGlo(dst, g) => if k.GloPtr? then Some(Fact(dst, g)) else None
    case Ci(dst, imm) => if k.Imm? then Some(Fact(dst, imm)) else None
    case PtrStk(dst, off) => if k.StkPtr? then Some(Fact(dst, off)) else None
    case _ => None
  }

  /** Units at which control may come or go elsewhere. */
  predicate Barrier(u: Unit) {
    u.Jc? || u.Jmp? || u.Call? || u.Ret? || u.Label?
  }

  function Forget(a: map<Reg, int>, u: Unit): map<Reg, int> {
    match Destination(u)
    case None => a
    case Some(r) => a - {r}
  }

  function Track(k: Kind, a: map<Reg, int>, u: Unit): map<Reg, int> {
    match Remembered(k, u)
    case Some(f) => a[f.reg := f.value]
    case None => if Barrier(u) then map[] else Forget(a, u)
  }

  function Emit(k: Kind, a: map<Reg, int>, u: Unit): seq<Unit> {
    match Remembered(k, u)
    case Some(f) => if f.reg in a && a[f.reg] == f.value then [] else [u]
    case None => [u]
  }

  // ----- the tracker of stack slots -----

  /** Registers by the letter of their kind (a, s, t, x), then by number. */
  function RegRank(r: Reg): int {
    match r
    case Arg(_) => 0
    case Save(_) => 1
    case Temp(_) => 2
    case Zero => 3
  }

  function RegId(r: Reg): int {
    match r
    case Zero => 0
    case Arg(i) => i
    case Temp(i) => i
    case Save(i) => i
  }

  predicate RegLess(r: Reg, q: Reg) {
    RegRank(r) < RegRank(q) || (RegRank(r) == RegRank(q) && RegId(r) < RegId(q))
  }

  lemma RegLessTotal(r: Reg, q: Reg)
    ensures r == q || RegLess(r, q) || RegLess(q, r)
    ensures !(RegLess(r, q) && RegLess(q, r)) && !RegLess(r, r)
  {
  }

  /** `r` is the first of the registers that hold the slot at `off`. */
  ghost predicate IsFirst(a: map<Reg, int>, off: int, r: Reg) {
    r in a && a[r] == off && forall q :: q in a && a[q] == off ==> q == r || RegLess(r, q)
  }

  ghost function FirstAlias(a: map<Reg, int>, off: int): Option<Reg> {
    if exists r :: IsFirst(a, off, r) then
      var r :| IsFirst(a, off, r);
      Some(r)
    else None
  }

  lemma FirstAliasIs(a: map<Reg, int>, off: int, r: Reg)
    requires IsFirst(a, off, r)
    ensures FirstAlias(a, off) == Some(r)
  {
    var q := FirstAlias(a, off).value;
    RegLessTotal(r, q);
  }

  lemma FirstAliasNone(a: map<Reg, int>, off: int)
    requires forall r :: r in a ==> a[r] != off
    ensures FirstAlias(a, off) == None
  {
  }

  function WithoutSlot(a: map<Reg, int>, off: int): map<Reg, int> {
    map r | r in a && a[r] != off :: a[r]
  }

  function TrackSlot(a: map<Reg, int>, u: Unit): map<Reg, int> {
    match u
    case Wstk(src, off) => WithoutSlot(a, off)[src := off]
    case Rstk(dst, off) => a[dst := off]
    case _ => if Barrier(u) then map[] else Forget(a, u)
  }

  ghost function EmitSlot(a: map<Reg, int>, u: Unit): seq<Unit> {
    match u
    case Rstk(dst, off) =>
      if dst in a && a[dst] == off then []
      else (
        match FirstAlias(a, off)
        case Some(r) => [Cr(dst, r)]
        case None => [u])
    case _ => [u]
  }

  // ----- stores nobody reads -----

  predicate ReadsSlot(u: Unit, off: int) {
    (u.Rstk? || u.PtrStk?) && u.offset == off
  }

  function UsedStack(code: seq<Unit>): (used: set<int>)
    ensures forall u :: u in code && (u.Rstk? || u.PtrStk?) ==> u.offset in used
    ensures forall off :: off in used ==> exists u :: u in code && ReadsSlot(u, off)
  {
    if code == [] then {}
    else
      var u := code[|code| - 1];
      assert u in code;
      assert forall v :: v in code ==> v in code[..|code| - 1] || v == u;
      var before := UsedStack(code[..|code| - 1]);
      if u.Rstk? || u.PtrStk? then
        assert ReadsSlot(u, u.offset);
        before + {u.offset}
      else before
  }

  // ----- the passes -----

  datatype Pass = Alias(kind: Kind) | Slot | Unused(used: set<int>) | Threading

  /** The alias map just before unit `i`. */
  ghost function AliasAt(pass: Pass, code: seq<Unit>, i: nat): map<Reg, int>
    requires i <= |code|
  {
    if i == 0 then map[]
    else
      match pass
      case Alias(k) => Track(k, AliasAt(pass, code, i - 1), code[i - 1])
      case Slot => TrackSlot(AliasAt(pass, code, i - 1), code[i - 1])
      case _ => map[]
  }

  /** A jump to the label right behind it. */
  predicate Threaded(code: seq<Unit>, i: nat) {
    |code| > 2 && i + 1 < |code| && code[i].Jmp? && code[i + 1] == Label(code[i].id)
  }

  /** What unit `i` becomes: itself, another unit, or nothing. */
  ghost function Block(pass: Pass, code: seq<Unit>, i: nat): seq<Unit>
    requires i < |code|
  {
    match pass
    case Alias(k) => Emit(k, AliasAt(pass, code, i), code[i])
    case Slot => EmitSlot(AliasAt(pass, code, i), code[i])
    case Unused(used) => if code[i].Wstk? && code[i].offset !in used then [] else [code[i]]
    case Threading => if Threaded(code, i) then [] else [code[i]]
  }

  ghost function Blocks(pass: Pass, code: seq<Unit>): (r: seq<seq<Unit>>)
    ensures |r| == |code| && forall i :: 0 <= i < |r| ==> r[i] == Block(pass, code, i)
  {
    seq(|code|, i requires 0 <= i < |code| => Block(pass, code, i))
  }

  ghost function Rewrite(pass: Pass, code: seq<Unit>): seq<Unit> {
    Flatten(Blocks(pass, code))
  }

  /** The code before the removal of stores, which determines the slots that are read. */
  ghost function Tracked(code: seq<Unit>): seq<Unit> {
    Rewrite(Slot, Rewrite(Alias(StkPtr), Rewrite(Alias(Imm), Rewrite(Alias(GloPtr), code))))
  }

  ghost function Optimized(code: seq<Unit>): seq<Unit> {
    Rewrite(Threading, Rewrite(Unused(UsedStack(Tracked(code))), Tracked(code)))
  }

  // ----- the passes as the compiler runs them -----

  class AliasTracker {
    const kind: Kind
    var aliasOf: map<Reg, int>

    constructor (kind: Kind)
      ensures this.kind == kind && aliasOf == map[]
    {
      this.kind := kind;
      aliasOf := map[];
    }

    method Apply(u: Unit) returns (r: seq<Unit>)
      modifies this
      ensures aliasOf == Track(kind, old(aliasOf), u) && r == Emit(kind, old(aliasOf), u)
    {
      match Remembered(kind, u) {
        case Some(f) =>
          if f.reg in aliasOf && aliasOf[f.reg] == f.value {
            return [];
          }
          aliasOf := aliasOf[f.reg := f.value];
        case None =>
          if Barrier(u) {
            aliasOf := map[];
          } else {
            aliasOf := Forget(aliasOf, u);
          }
      }
      r := [u];
    }
  }

  class SlotTracker {
    var aliasOf: map<Reg, int>

    constructor ()
      ensures aliasOf == map[]
    {
      aliasOf := map[];
    }

    /** Walks the map and erases every register that holds the slot at `off`. */
    method EraseSlot(off: int)
      modifies this
      ensures aliasOf == WithoutSlot(old(aliasOf), off)
    {
      var todo := aliasOf.Keys;
      while todo != {}
        invariant todo <= aliasOf.Keys <= old(aliasOf).Keys
        invariant forall r :: r in aliasOf ==> aliasOf[r] == old(aliasOf)[r]
        invariant forall r :: r in old(aliasOf) && r !in todo ==> (r in aliasOf <==> old(aliasOf)[r] != off)
        decreases todo
      {
        var r :| r in todo;
        todo := todo - {r};
        if aliasOf[r] == off {
          aliasOf := aliasOf - {r};
        }
      }
    }

    /** Walks the map in key order to the first register that holds the slot at `off`. */
    method Find(off: int) returns (first: Option<Reg>)
      ensures first == FirstAlias(aliasOf, off)
    {
      var todo := aliasOf.Keys;
      first := None;
      while todo != {}
        invariant todo <= aliasOf.Keys
        invariant first.Some? ==> first.value in aliasOf && aliasOf[first.value] == off
        invariant forall r :: r in aliasOf && r !in todo && aliasOf[r] == off ==>
                    first.Some? && (r == first.value || RegLess(first.value, r))
        decreases todo
      {
        var r :| r in todo;
        todo := todo - {r};
        if aliasOf[r] == off {
          if first.None? {
            first := Some(r);
          } else {
            RegLessTotal(r, first.value);
            if RegLess(r, first.value) {
              first := Some(r);
            }
          }
        }
      }
      if first.Some? {
        FirstAliasIs(aliasOf, off, first.value);
      } else {
        FirstAliasNone(aliasOf, off);
      }
    }

    method Apply(u: Unit) returns (r: seq<Unit>)
      modifies this
      ensures aliasOf == TrackSlot(old(aliasOf), u) && r == EmitSlot(old(aliasOf), u)
    {
      if u.Wstk? {
        EraseSlot(u.offset);
        aliasOf := aliasOf[u.src := u.offset];
      } else if u.Rstk? {
        if u.dst in aliasOf && aliasOf[u.dst] == u.offset {
          return [];
        }
        var first := Find(u.offset);
        aliasOf := aliasOf[u.dst := u.offset];
        if first.Some? {
          return [Cr(u.dst, first.value)];
        }
      } else if Barrier(u) {
        aliasOf := map[];
      } else {
        aliasOf := Forget(aliasOf, u);
      }
      r := [u];
    }
  }

  class UnusedStack {
    var usedStack: set<int>

    constructor (code: seq<Unit>)
      ensures usedStack == UsedStack(code)
    {
      usedStack := {};
      new;
      for i := 0 to |code|
        invariant usedStack == UsedStack(code[..i])
      {
        assert code[..i + 1][..i] == code[..i];
        if code[i].Rstk? || code[i].PtrStk? {
          usedStack := usedStack + {code[i].offset};
        }
      }
      assert code[..|code|] == code;
    }

    method Apply(u: Unit) returns (r: seq<Unit>)
      ensures r == if u.Wstk? && u.offset !in usedStack then [] else [u]
    {
      if u.Wstk? && u.offset !in usedStack {
        return [];
      }
      r := [u];
    }
  }

  lemma RewriteNext(pass: Pass, code: seq<Unit>, i: nat)
    requires i < |code|
    ensures Flatten(Blocks(pass, code)[..i + 1]) == Flatten(Blocks(pass, code)[..i]) + Block(pass, code, i)
  {
    assert Blocks(pass, code)[..i + 1][..i] == Blocks(pass, code)[..i];
  }

  lemma RewriteAll(pass: Pass, code: seq<Unit>)
    ensures Flatten(Blocks(pass, code)[..0]) == []
    ensures Flatten(Blocks(pass, code)[..|code|]) == Rewrite(pass, code)
  {
    assert Blocks(pass, code)[..|code|] == Blocks(pass, code);
  }

  method ThreadAlias(code: seq<Unit>, kind: Kind) returns (result: seq<Unit>)
    ensures result == Rewrite(Alias(kind), code)
  {
    hide Rewrite, Track, Emit, Flatten;
    var f := new AliasTracker(kind);
    result := [];
    RewriteAll(Alias(kind), code);
    for i := 0 to |code|
      invariant f.kind == kind && f.aliasOf == AliasAt(Alias(kind), code, i)
      invariant result == Flatten(Blocks(Alias(kind), code)[..i])
    {
      RewriteNext(Alias(kind), code, i);
      var r := f.Apply(code[i]);
      result := result + r;
    }
  }

  method ThreadSlot(code: seq<Unit>) returns (result: seq<Unit>)
    ensures result == Rewrite(Slot, code)
  {
    hide Rewrite, TrackSlot, EmitSlot, Flatten;
    var f := new SlotTracker();
    result := [];
    RewriteAll(Slot, code);
    for i := 0 to |code|
      invariant f.aliasOf == AliasAt(Slot, code, i)
      invariant result == Flatten(Blocks(Slot, code)[..i])
    {
      RewriteNext(Slot, code, i);
      var r := f.Apply(code[i]);
      result := result + r;
    }
  }

  method ThreadUnused(code: seq<Unit>) returns (result: seq<Unit>)
    ensures result == Rewrite(Unused(UsedStack(code)), code)
  {
    hide Rewrite, UsedStack, Flatten;
    var f := new UnusedStack(code);
    var pass := Unused(UsedStack(code));
    result := [];
    RewriteAll(pass, code);
    for i := 0 to |code|
      invariant f.usedStack == UsedStack(code)
      invariant result == Flatten(Blocks(pass, code)[..i])
    {
      RewriteNext(pass, code, i);
      var r := f.Apply(code[i]);
      result := result + r;
    }
  }

  lemma {:induction false} FlattenUnits<T>(blocks: seq<seq<T>>, code: seq<T>)
    requires |blocks| == |code| && forall i :: 0 <= i < |code| ==> blocks[i] == [code[i]]
    ensures Flatten(blocks) == code
  {
    if code != [] {
      FlattenUnits(blocks[..|code| - 1], code[..|code| - 1]);
    }
  }

  method ImmediateGoto(v: seq<Unit>) returns (ans: seq<Unit>)
    ensures ans == Rewrite(Threading, v)
  {
    hide Rewrite, Flatten;
    RewriteAll(Threading, v);
    if |v| <= 2 {
      assert Blocks(Threading, v)[..|v|] == Blocks(Threading, v);
      FlattenUnits(Blocks(Threading, v), v);
      return v;
    }
    ans := [];
    for i := 0 to |v| - 1
      invariant ans == Flatten(Blocks(Threading, v)[..i])
    {
      RewriteNext(Threading, v, i);
      var p, q := v[i], v[i + 1];
      if p.Jmp? && q.Label? && p.id == q.id {
        continue;
      }
      ans := ans + [p];
    }
    RewriteNext(Threading, v, |v| - 1);
    ans := ans + [v[|v| - 1]];
  }

  method OptimizeFunction(code: seq<Unit>) returns (r: seq<Unit>)
    ensures r == Optimized(code)
  {
    hide Rewrite, UsedStack;
    r := ThreadAlias(code, GloPtr);
    r := ThreadAlias(r, Imm);
    r := ThreadAlias(r, StkPtr);
    r := ThreadSlot(r);
    r := ThreadUnused(r);
    r := ImmediateGoto(r);
  }

  method OptimizeProgram(prog: Program) returns (r: Program)
    ensures r.labelCount == prog.labelCount && r.globals == prog.globals && |r.funcs| == |prog.funcs|
    ensures forall i :: 0 <= i < |r.funcs| ==> r.funcs[i] == prog.funcs[i].(code := Optimized(prog.funcs[i].code))
  {
    hide Optimized;
    var funcs := [];
    for i := 0 to |prog.funcs|
      invariant |funcs| == i
      invariant forall j :: 0 <= j < i ==> funcs[j] == prog.funcs[j].(code := Optimized(prog.funcs[j].code))
    {
      var code := OptimizeFunction(prog.funcs[i].code);
      funcs := funcs + [prog.funcs[i].(code := code)];
    }
    r := prog.(funcs := funcs);
  }
}
