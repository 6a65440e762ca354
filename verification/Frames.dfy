/** The stack frame of a function: which slot each parameter and local gets. */
module Frames {
  import opened Pinkie

  datatype Slot = Slot(offset: int, len: int)

  /** Operands in the order of their namespace characters, then of their numbers. */
  function NamespaceOf(o: Operand): int {
    match o
    case Lit(_) => 0
    case Var(_) => 'T' as int
    case Param(_) => 'p' as int
    case Temp(_) => 't' as int
  }

  function IdOf(o: Operand): int {
    match o
    case Lit(w) => w
    case Var(i) => i
    case Param(i) => i
    case Temp(i) => i
  }

  predicate Less(a: Operand, b: Operand) {
    NamespaceOf(a) < NamespaceOf(b) || (NamespaceOf(a) == NamespaceOf(b) && IdOf(a) < IdOf(b))
  }

  lemma LessTotal(a: Operand, b: Operand)
    ensures a == b || Less(a, b) || Less(b, a)
    ensures !(Less(a, b) && Less(b, a)) && !Less(a, a)
  {
  }

  /** Inserts a symbol in order unless its name is already there. */
  function Emplace(l: seq<Symb>, x: Symb): seq<Symb> {
    if l == [] then [x]
    else if l[0].name == x.name then l
    else if Less(x.name, l[0].name) then [x] + l
    else [l[0]] + Emplace(l[1..], x)
  }

  function EmplaceAll(l: seq<Symb>, xs: seq<Symb>): seq<Symb> {
    if xs == [] then l else Emplace(EmplaceAll(l, xs[..|xs| - 1]), xs[|xs| - 1])
  }

  function ParamSymbs(arity: nat): (r: seq<Symb>)
    ensures |r| == arity && forall i :: 0 <= i < arity ==> r[i] == Symb(Param(i), 0)
  {
    seq(arity, i => Symb(Param(i), 0))
  }

  /** All parameters and declared symbols, once each, in order. */
  function Locals(f: Func): seq<Symb> {
    EmplaceAll(EmplaceAll([], ParamSymbs(f.arity)), f.decl)
  }

  function Size(x: Symb): int {
    if x.len != 0 then x.len else 4
  }

  /** The offset just behind the slots of `l` when the first starts at `base`. */
  function End(base: int, l: seq<Symb>): int {
    if l == [] then base else End(base, l[..|l| - 1]) + Size(l[|l| - 1])
  }

  function Slots(base: int, l: seq<Symb>): map<Operand, Slot> {
    if l == [] then map[]
    else Slots(base, l[..|l| - 1])[l[|l| - 1].name := Slot(End(base, l[..|l| - 1]), l[|l| - 1].len)]
  }

  /** How many callee-saved registers a function uses: the most that are no more than four for every five
      declared symbols beyond six, but from 1 to 12. */
  function CalleeSavedHeuristic(f: Func): (x: nat)
    ensures 1 <= x <= 12
    ensures x == 1 || 5 * x <= 4 * (|f.decl| - 6)
    ensures x == 12 || 4 * (|f.decl| - 6) < 5 * (x + 1)
  {
    var x := if |f.decl| < 6 then 0 else (((|f.decl| - 6) as real) * 0.8).Floor;
    if x < 1 then 1 else if x > 12 then 12 else x
  }

  function SlotsOf(f: Func): map<Operand, Slot> {
    Slots(4 * CalleeSavedHeuristic(f), Locals(f))
  }

  function FrameOf(f: Func): int {
    End(4 * CalleeSavedHeuristic(f), Locals(f))
  }

  /** Hands out offsets one after the other. */
  method ComputeOffset(nCalleeSaved: nat, locals: seq<Symb>) returns (slots: map<Operand, Slot>, frame: int)
    ensures slots == Slots(4 * nCalleeSaved, locals) && frame == End(4 * nCalleeSaved, locals)
  {
    var offset := nCalleeSaved * 4;
    slots := map[];
    for i := 0 to |locals|
      invariant slots == Slots(4 * nCalleeSaved, locals[..i]) && offset == End(4 * nCalleeSaved, locals[..i])
    {
      assert locals[..i + 1][..i] == locals[..i];
      slots := slots[locals[i].name := Slot(offset, locals[i].len)];
      if locals[i].len != 0 {
        offset := offset + locals[i].len;
      } else {
        offset := offset + 4;
      }
    }
    assert locals[..|locals|] == locals;
    frame := offset;
  }

  // ----- the locals are distinct -----

  ghost predicate Sorted(l: seq<Symb>) {
    forall i, j :: 0 <= i < j < |l| ==> Less(l[i].name, l[j].name)
  }

  ghost predicate Named(l: seq<Symb>, o: Operand) {
    exists i :: 0 <= i < |l| && l[i].name == o
  }

  lemma {:induction false} EmplaceSorted(l: seq<Symb>, x: Symb)
    requires Sorted(l)
    ensures Sorted(Emplace(l, x))
    ensures forall y :: y in Emplace(l, x) ==> y == x || y in l
    ensures forall o :: Named(l, o) || o == x.name ==> Named(Emplace(l, x), o)
  {
    if l != [] {
      LessTotal(x.name, l[0].name);
      if Less(l[0].name, x.name) {
        EmplaceSorted(l[1..], x);
        var r := Emplace(l[1..], x);
        forall j | 0 <= j < |r| ensures Less(l[0].name, r[j].name) {
          assert r[j] in r;
        }
        forall o | Named(l, o) || o == x.name ensures Named([l[0]] + r, o) {
          if o != l[0].name {
            if Named(l, o) {
              var i :| 0 <= i < |l| && l[i].name == o;
              assert l[1..][i - 1].name == o;
            }
            assert Named(r, o);
            var i :| 0 <= i < |r| && r[i].name == o;
            assert ([l[0]] + r)[i + 1].name == o;
          } else {
            assert ([l[0]] + r)[0].name == o;
          }
        }
      } else if l[0].name != x.name {
        forall o | Named(l, o) || o == x.name ensures Named([x] + l, o) {
          if o == x.name {
            assert ([x] + l)[0].name == o;
          } else {
            var i :| 0 <= i < |l| && l[i].name == o;
            assert ([x] + l)[i + 1].name == o;
          }
        }
      }
    } else {
      assert [x][0].name == x.name;
    }
  }

  lemma {:induction false} EmplaceAllSorted(l: seq<Symb>, xs: seq<Symb>)
    requires Sorted(l)
    ensures Sorted(EmplaceAll(l, xs))
    ensures forall y :: y in EmplaceAll(l, xs) ==> y in xs || y in l
    ensures forall o :: Named(l, o) || Named(xs, o) ==> Named(EmplaceAll(l, xs), o)
  {
    if xs != [] {
      var m := EmplaceAll(l, xs[..|xs| - 1]);
      EmplaceAllSorted(l, xs[..|xs| - 1]);
      EmplaceSorted(m, xs[|xs| - 1]);
      forall o | Named(xs, o) ensures Named(EmplaceAll(l, xs), o) {
        var i :| 0 <= i < |xs| && xs[i].name == o;
        if i < |xs| - 1 {
          assert xs[..|xs| - 1][i].name == o;
        }
      }
    }
  }

  /** Every parameter and declared symbol has exactly one slot, and nothing else does. */
  lemma LocalsExact(f: Func)
    ensures Sorted(Locals(f))
    ensures forall x :: x in Locals(f) ==> x in ParamSymbs(f.arity) || x in f.decl
    ensures forall i :: 0 <= i < f.arity ==> Named(Locals(f), Param(i))
    ensures forall i :: 0 <= i < |f.decl| ==> Named(Locals(f), f.decl[i].name)
  {
    var ps := ParamSymbs(f.arity);
    EmplaceAllSorted([], ps);
    EmplaceAllSorted(EmplaceAll([], ps), f.decl);
    forall i | 0 <= i < f.arity ensures Named(Locals(f), Param(i)) {
      assert ps[i].name == Param(i);
      assert Named(ps, Param(i));
    }
    forall i | 0 <= i < |f.decl| ensures Named(Locals(f), f.decl[i].name) {
      assert Named(f.decl, f.decl[i].name);
    }
  }

  // ----- the slots are sound -----

  ghost predicate SizesOk(l: seq<Symb>) {
    forall x :: x in l ==> x.len >= 0 && x.len % 4 == 0
  }

  lemma EndStep(base: int, l: seq<Symb>)
    requires l != []
    ensures End(base, l) == End(base, l[..|l| - 1]) + Size(l[|l| - 1])
  {
  }

  lemma SizeOk(l: seq<Symb>, i: nat)
    requires SizesOk(l) && i < |l|
    ensures Size(l[i]) > 0 && Size(l[i]) % 4 == 0 && SizesOk(l[..i])
  {
    assert l[i] in l;
  }

  lemma {:induction false} EndAligned(base: int, l: seq<Symb>)
    requires SizesOk(l) && base % 4 == 0
    ensures End(base, l) % 4 == 0
  {
    hide SizesOk, Size;
    if l != [] {
      SizeOk(l, |l| - 1);
      EndAligned(base, l[..|l| - 1]);
    }
  }

  lemma {:induction false} EndGrows(base: int, l: seq<Symb>, i: nat)
    requires i <= |l| && SizesOk(l)
    ensures End(base, l[..i]) <= End(base, l)
    ensures i < |l| ==> End(base, l[..i]) + Size(l[i]) <= End(base, l)
    decreases |l|
  {
    hide *;
    if i == |l| {
      assert l[..i] == l;
    } else {
      var n := |l| - 1;
      EndStep(base, l);
      SizeOk(l, n);
      EndGrows(base, l[..n], i);
      assert l[..n][..i] == l[..i];
    }
  }

  /** Which symbol a slot belongs to. */
  lemma {:induction false} SlotOwner(base: int, l: seq<Symb>, o: Operand) returns (i: nat)
    requires o in Slots(base, l)
    ensures i < |l| && l[i].name == o && Slots(base, l)[o] == Slot(End(base, l[..i]), l[i].len)
  {
    var n := |l| - 1;
    if l[n].name == o {
      i := n;
    } else {
      i := SlotOwner(base, l[..n], o);
      assert l[..n][..i] == l[..i];
    }
  }

  lemma {:induction false} NamedHasSlot(base: int, l: seq<Symb>, i: nat)
    requires i < |l|
    ensures l[i].name in Slots(base, l)
  {
    if i < |l| - 1 {
      NamedHasSlot(base, l[..|l| - 1], i);
    }
  }

  function Extent(s: Slot): int {
    if s.len != 0 then s.len else 4
  }

  /** Slots lie between the callee-saved area and the end of the frame, word aligned. */
  lemma SlotInFrame(f: Func, o: Operand)
    requires SizesOk(f.decl) && o in SlotsOf(f)
    ensures var s := SlotsOf(f)[o];
            4 * CalleeSavedHeuristic(f) <= s.offset && s.offset + Extent(s) <= FrameOf(f) && s.offset % 4 == 0
            && s.len >= 0 && s.len % 4 == 0
  {
    var base, l := 4 * CalleeSavedHeuristic(f), Locals(f);
    hide CalleeSavedHeuristic;
    LocalsSized(f);
    var i := SlotOwner(base, l, o);
    EndGrows(base, l, i);
    EndGrows(base, l[..i], 0);
    EndAligned(base, l[..i]);
    assert l[i] in l;
  }

  lemma LocalsSized(f: Func)
    requires SizesOk(f.decl)
    ensures SizesOk(Locals(f)) && forall i :: 0 <= i <= |Locals(f)| ==> SizesOk(Locals(f)[..i])
  {
    LocalsExact(f);
  }

  /** Different symbols have disjoint slots. */
  lemma SlotsDisjoint(f: Func, o: Operand, p: Operand)
    requires SizesOk(f.decl) && o in SlotsOf(f) && p in SlotsOf(f) && o != p
    ensures var s, t := SlotsOf(f)[o], SlotsOf(f)[p];
            s.offset + Extent(s) <= t.offset || t.offset + Extent(t) <= s.offset
  {
    var base, l := 4 * CalleeSavedHeuristic(f), Locals(f);
    hide CalleeSavedHeuristic;
    LocalsSized(f);
    var i := SlotOwner(base, l, o);
    var j := SlotOwner(base, l, p);
    if i < j {
      EndGrows(base, l[..j], i);
      assert l[..j][..i] == l[..i];
    } else {
      EndGrows(base, l[..i], j);
      assert l[..i][..j] == l[..j];
    }
  }

  lemma SlotOf(f: Func, i: nat)
    requires i < |Locals(f)|
    ensures Locals(f)[i].name in SlotsOf(f)
    ensures SlotsOf(f)[Locals(f)[i].name] == Slot(End(4 * CalleeSavedHeuristic(f), Locals(f)[..i]), Locals(f)[i].len)
  {
    var base, l := 4 * CalleeSavedHeuristic(f), Locals(f);
    hide CalleeSavedHeuristic, Locals, End, Slots;
    LocalsExact(f);
    NamedHasSlot(base, l, i);
    var j := SlotOwner(base, l, l[i].name);
    if i < j {
      LessTotal(l[i].name, l[j].name);
    } else if j < i {
      LessTotal(l[j].name, l[i].name);
    }
  }

  lemma EndNext(base: int, l: seq<Symb>, i: nat)
    requires i < |l|
    ensures End(base, l[..i + 1]) == End(base, l[..i]) + Size(l[i])
  {
    assert l[..i + 1][..i] == l[..i];
  }

  /** Slots are packed: the first begins behind the callee-saved registers, each where the one before ends, and
      the frame ends with the last. */
  lemma SlotsPacked(f: Func, i: nat)
    requires i < |Locals(f)|
    ensures forall j :: 0 <= j < |Locals(f)| ==> Locals(f)[j].name in SlotsOf(f)
    ensures var s := SlotsOf(f)[Locals(f)[i].name];
            && (i == 0 ==> s.offset == 4 * CalleeSavedHeuristic(f))
            && s.offset + Extent(s)
               == if i + 1 < |Locals(f)| then SlotsOf(f)[Locals(f)[i + 1].name].offset else FrameOf(f)
  {
    var base, l := 4 * CalleeSavedHeuristic(f), Locals(f);
    hide CalleeSavedHeuristic, Locals, Slots;
    forall j: nat | j < |l| ensures l[j].name in SlotsOf(f) && SlotsOf(f)[l[j].name] == Slot(End(base, l[..j]), l[j].len) {
      SlotOf(f, j);
    }
    EndNext(base, l, i);
    assert l[..|l|] == l && l[..0] == [];
  }

  // ----- the machine frame -----

  /** The size of the machine frame that `convert_func` reserves for a Dashie frame. */
  function StackSize(frame: int): int {
    (frame / 4 + 1) * 16
  }

  /** It is a multiple of 16 and its last word, for the return address, lies above every slot. */
  lemma StackSizeSound(frame: int)
    requires frame >= 0
    ensures StackSize(frame) % 16 == 0 && frame <= StackSize(frame) - 4
  {
  }
}
