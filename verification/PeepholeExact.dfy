/** What the peephole passes achieve: no load is left that repeats what a register already holds, no store
    that nothing reads, and exactly which jumps to the next unit stay. */
module PeepholeExact {
  import opened Words
  import opened Wrappers
  import opened Layout
  import opened Dashie
  import opened Peephole

  /** Where unit `q` of the rewritten code comes from. */
  lemma Origin(pass: Pass, code: seq<Unit>, q: nat) returns (i: nat)
    requires q < |Rewrite(pass, code)|
    ensures i < |code| && Start(Blocks(pass, code), i) == q && Block(pass, code, i) == [Rewrite(pass, code)[q]]
  {
    hide AliasAt, Emit, EmitSlot, Threaded, Flatten, Start;
    var blocks := Blocks(pass, code);
    var j: nat;
    i, j := Locate(blocks, q);
    BlockSmall(pass, code, i);
  }

  lemma BlockSmall(pass: Pass, code: seq<Unit>, i: nat)
    requires i < |code|
    ensures |Block(pass, code, i)| <= 1
  {
    hide AliasAt, FirstAlias;
  }

  /** A unit that is kept between two others lands between them. */
  lemma Between(pass: Pass, code: seq<Unit>, i: nat, j: nat, k: nat) returns (m: nat)
    requires i < j < k < |code| && Block(pass, code, i) != [] && Block(pass, code, j) != []
    ensures Start(Blocks(pass, code), i) < m < Start(Blocks(pass, code), k) && m < |Rewrite(pass, code)|
    ensures Block(pass, code, j) == [Rewrite(pass, code)[m]]
  {
    hide AliasAt, Emit, EmitSlot, Threaded, Flatten, Start, Block;
    var blocks := Blocks(pass, code);
    BlockSmall(pass, code, i);
    BlockSmall(pass, code, j);
    StartNext(blocks, i);
    StartNext(blocks, j);
    StartMonotone(blocks, i + 1, j);
    StartMonotone(blocks, j + 1, k);
    BlockAt(blocks, j);
    m := Start(blocks, j);
  }

  lemma OriginsOrdered(pass: Pass, code: seq<Unit>, i: nat, j: nat)
    requires i < |code| && j < |code| && Start(Blocks(pass, code), i) < Start(Blocks(pass, code), j)
    ensures i < j
  {
    hide Start, Blocks;
    if j <= i {
      StartMonotone(Blocks(pass, code), j, i);
    }
  }

  // ----- loads of constants -----

  /** A unit that loads a constant of the kind: an address of a global, a literal or a frame address. */
  predicate LoadsConstant(k: Kind, u: Unit) {
    match k
    case GloPtr => u.PtrGlo?
    case Imm => u.Ci?
    case StkPtr => u.PtrStk?
  }

  /** Unit `u` may change `r`, or control may come or go there. */
  predicate Disturbs(u: Unit, r: Reg) {
    Barrier(u) || Destination(u) == Some(r)
  }

  lemma LoadIs(k: Kind, u: Unit)
    ensures LoadsConstant(k, u) <==> Remembered(k, u).Some?
    ensures LoadsConstant(k, u) ==> Destination(u) == Some(Remembered(k, u).value.reg)
  {
  }

  lemma TrackKeeps(k: Kind, a: map<Reg, int>, u: Unit, r: Reg)
    requires r in a && (Emit(k, a, u) == [] || !Disturbs(u, r))
    ensures r in Track(k, a, u) && Track(k, a, u)[r] == a[r]
  {
  }

  /** What is known stays known as far as nothing kept disturbs it. */
  lemma {:induction false} KnownUntil(k: Kind, code: seq<Unit>, i: nat, j: nat, r: Reg)
    requires i < j <= |code| && Block(Alias(k), code, i) != [] && Remembered(k, code[i]).Some? && r == Remembered(k, code[i]).value.reg
    requires forall m: nat :: i < m < j && Block(Alias(k), code, m) != [] ==> !Disturbs(code[m], r)
    ensures r in AliasAt(Alias(k), code, j) && AliasAt(Alias(k), code, j)[r] == Remembered(k, code[i]).value.value
    decreases j
  {
    hide Track, Emit, Remembered;
    if i == j - 1 {
      TrackLearns(k, AliasAt(Alias(k), code, i), code[i]);
    } else {
      KnownUntil(k, code, i, j - 1, r);
      TrackKeeps(k, AliasAt(Alias(k), code, j - 1), code[j - 1], r);
    }
  }

  lemma TrackLearns(k: Kind, a: map<Reg, int>, u: Unit)
    requires Remembered(k, u).Some?
    ensures var f := Remembered(k, u).value; f.reg in Track(k, a, u) && Track(k, a, u)[f.reg] == f.value
  {
  }

  /** After a pass over constants no register is loaded with what it holds: between two equal loads there is
      a unit that may have changed the register. */
  lemma NoRepeatedLoad(k: Kind, code: seq<Unit>, p: nat, q: nat)
    requires p < q < |Rewrite(Alias(k), code)| && LoadsConstant(k, Rewrite(Alias(k), code)[p])
    requires Rewrite(Alias(k), code)[p] == Rewrite(Alias(k), code)[q]
    ensures exists m :: p < m < q && Disturbs(Rewrite(Alias(k), code)[m], Destination(Rewrite(Alias(k), code)[p]).value)
  {
    hide Rewrite, Start, Track, Disturbs, AliasAt;
    var pass, short := Alias(k), Rewrite(Alias(k), code);
    LoadIs(k, short[p]);
    var r := Destination(short[p]).value;
    var i := Origin(pass, code, p);
    var j := Origin(pass, code, q);
    OriginsOrdered(pass, code, i, j);
    if forall m :: p < m < q ==> !Disturbs(short[m], r) {
      forall m: nat | i < m < j && Block(pass, code, m) != [] ensures !Disturbs(code[m], r) {
        var at := Between(pass, code, i, m, j);
        assert short[at] == code[m];
      }
      KnownUntil(k, code, i, j, r);
    }
  }

  // ----- loads of slots -----

  lemma {:induction false} LeastIn(s: set<Reg>, r: Reg) returns (least: Reg)
    requires r in s
    ensures least in s && forall q :: q in s ==> q == least || RegLess(least, q)
    decreases s
  {
    var rest := s - {r};
    if rest == {} {
      least := r;
    } else {
      var q :| q in rest;
      var l := LeastIn(rest, q);
      RegLessTotal(r, l);
      least := if RegLess(r, l) then r else l;
      assert s == rest + {r};
    }
  }

  lemma SomeAlias(a: map<Reg, int>, off: int, r: Reg)
    requires r in a && a[r] == off
    ensures FirstAlias(a, off).Some?
  {
    var holders := set q | q in a && a[q] == off;
    var least := LeastIn(holders, r);
    assert IsFirst(a, off, least);
  }

  /** Unit `u` may change `r` or the slot at `off`, or associates `r` with another slot. */
  predicate DisturbsSlot(u: Unit, r: Reg, off: int) {
    Disturbs(u, r) || (u.Wstk? && (u.src == r || u.offset == off))
  }

  /** The register that a store or load of a slot leaves associated with it. */
  predicate Associates(u: Unit, r: Reg, off: int) {
    (u.Wstk? && u.src == r && u.offset == off) || (u.Rstk? && u.dst == r && u.offset == off)
  }

  lemma SlotKept(a: map<Reg, int>, u: Unit, r: Reg, off: int)
    requires r in a && a[r] == off
    requires |EmitSlot(a, u)| == 1 ==> !DisturbsSlot(EmitSlot(a, u)[0], r, off)
    ensures r in TrackSlot(a, u) && TrackSlot(a, u)[r] == off
  {
    hide FirstAlias;
  }

  lemma SlotLearnt(a: map<Reg, int>, u: Unit, r: Reg, off: int)
    requires Associates(u, r, off)
    ensures r in TrackSlot(a, u) && TrackSlot(a, u)[r] == off
  {
  }

  lemma {:induction false} SlotUntil(code: seq<Unit>, i: nat, j: nat, r: Reg, off: int)
    requires i < j <= |code| && Associates(code[i], r, off)
    requires forall m: nat :: i < m < j && Block(Slot, code, m) != [] ==> !DisturbsSlot(Block(Slot, code, m)[0], r, off)
    ensures r in AliasAt(Slot, code, j) && AliasAt(Slot, code, j)[r] == off
    decreases j
  {
    hide TrackSlot, EmitSlot, DisturbsSlot;
    if i == j - 1 {
      SlotLearnt(AliasAt(Slot, code, i), code[i], r, off);
    } else {
      SlotUntil(code, i, j - 1, r, off);
      assert Block(Slot, code, j - 1) == EmitSlot(AliasAt(Slot, code, j - 1), code[j - 1]);
      SlotKept(AliasAt(Slot, code, j - 1), code[j - 1], r, off);
    }
  }

  lemma LoadStays(a: map<Reg, int>, u: Unit, v: Unit)
    requires EmitSlot(a, u) == [v] && v.Rstk?
    ensures u == v && FirstAlias(a, v.offset).None?
  {
    hide FirstAlias;
  }

  lemma AssociationStays(a: map<Reg, int>, u: Unit, v: Unit, r: Reg, off: int)
    requires EmitSlot(a, u) == [v] && Associates(v, r, off)
    ensures u == v
  {
    hide FirstAlias;
  }

  /** After the pass over slots no slot is loaded that a register is associated with: between a store or a load
      of a slot and the next load of it there is a unit that may have changed register or slot. */
  lemma NoRepeatedSlotLoad(code: seq<Unit>, p: nat, q: nat, r: Reg)
    requires p < q < |Rewrite(Slot, code)| && Rewrite(Slot, code)[q].Rstk?
    requires Associates(Rewrite(Slot, code)[p], r, Rewrite(Slot, code)[q].offset)
    ensures exists m :: p < m < q && DisturbsSlot(Rewrite(Slot, code)[m], r, Rewrite(Slot, code)[q].offset)
  {
    hide Rewrite, Start, TrackSlot, EmitSlot, DisturbsSlot, AliasAt, Associates;
    var short := Rewrite(Slot, code);
    var off := short[q].offset;
    var i := Origin(Slot, code, p);
    var j := Origin(Slot, code, q);
    OriginsOrdered(Slot, code, i, j);
    AssociationStays(AliasAt(Slot, code, i), code[i], short[p], r, off);
    if forall m :: p < m < q ==> !DisturbsSlot(short[m], r, off) {
      forall m: nat | i < m < j && Block(Slot, code, m) != [] ensures !DisturbsSlot(Block(Slot, code, m)[0], r, off) {
        var at := Between(Slot, code, i, m, j);
      }
      SlotUntil(code, i, j, r, off);
      SomeAlias(AliasAt(Slot, code, j), off, r);
      LoadStays(AliasAt(Slot, code, j), code[j], short[q]);
    }
  }

  // ----- stores -----

  /** Kept units are in the rewritten code. */
  lemma Kept(pass: Pass, code: seq<Unit>, i: nat)
    requires i < |code| && Block(pass, code, i) != []
    ensures Start(Blocks(pass, code), i) < |Rewrite(pass, code)|
    ensures Block(pass, code, i) == [Rewrite(pass, code)[Start(Blocks(pass, code), i)]]
  {
    hide AliasAt, Emit, EmitSlot, Threaded, Flatten, Start, Block;
    BlockSmall(pass, code, i);
    BlockAt(Blocks(pass, code), i);
  }

  /** After the removal of stores, every slot that is stored is loaded somewhere or has its address taken. */
  lemma StoresAreRead(code: seq<Unit>, u: Unit)
    requires u in Rewrite(Unused(UsedStack(code)), code) && u.Wstk?
    ensures exists v :: v in Rewrite(Unused(UsedStack(code)), code) && ReadsSlot(v, u.offset)
  {
    hide Rewrite, Start, AliasAt;
    var pass := Unused(UsedStack(code));
    var short := Rewrite(pass, code);
    var q :| 0 <= q < |short| && short[q] == u;
    var i := Origin(pass, code, q);
    var v :| v in code && ReadsSlot(v, u.offset);
    var j :| 0 <= j < |code| && code[j] == v;
    Kept(pass, code, j);
  }

  // ----- jumps -----

  /** A jump to the label right behind it. */
  ghost predicate JumpsNext(code: seq<Unit>, q: nat) {
    q + 1 < |code| && code[q].Jmp? && code[q + 1] == Label(code[q].id)
  }

  /** Two jumps to the label right behind them. */
  ghost predicate JumpsTwice(code: seq<Unit>, i: nat) {
    i + 2 < |code| && code[i].Jmp? && code[i + 1] == code[i] && code[i + 2] == Label(code[i].id)
  }

  /** The origin of the unit behind a kept unit: everything in between was dropped. */
  lemma NextOrigin(code: seq<Unit>, q: nat) returns (i: nat, j: nat)
    requires q + 1 < |Rewrite(Threading, code)| && |code| > 2
    ensures i < j < |code| && code[i] == Rewrite(Threading, code)[q] && code[j] == Rewrite(Threading, code)[q + 1]
    ensures forall m: nat :: i < m < j ==> Threaded(code, m)
    ensures !Threaded(code, i)
  {
    hide Rewrite, Start;
    i := Origin(Threading, code, q);
    j := Origin(Threading, code, q + 1);
    OriginsOrdered(Threading, code, i, j);
    forall m: nat | i < m < j ensures Threaded(code, m) {
      if !Threaded(code, m) {
        var at := Between(Threading, code, i, m, j);
      }
    }
  }

  lemma PairFromTwice(code: seq<Unit>, q: nat)
    requires JumpsNext(Rewrite(Threading, code), q) && |code| > 2
    ensures exists i :: 0 <= i && JumpsTwice(code, i)
  {
    hide Rewrite;
    var i, j := NextOrigin(code, q);
    if i + 1 < j {
      assert Threaded(code, i + 1);
      assert i + 2 < j ==> Threaded(code, i + 2);
      assert JumpsTwice(code, i);
    }
  }

  lemma TwiceLeavesPair(code: seq<Unit>, i: nat)
    requires JumpsTwice(code, i)
    ensures exists q :: 0 <= q && JumpsNext(Rewrite(Threading, code), q)
  {
    hide Rewrite, Start, Flatten;
    var blocks := Blocks(Threading, code);
    Kept(Threading, code, i);
    Kept(Threading, code, i + 2);
    StartNext(blocks, i);
    StartNext(blocks, i + 1);
    assert JumpsNext(Rewrite(Threading, code), Start(blocks, i));
  }

  /** In code of more than two units, the pass over jumps leaves a jump to the next unit exactly if there were
      two of them in a row. */
  lemma JumpLeftIff(code: seq<Unit>)
    requires |code| > 2
    ensures (exists q :: 0 <= q && JumpsNext(Rewrite(Threading, code), q)) <==> (exists i :: 0 <= i && JumpsTwice(code, i))
  {
    hide Rewrite, JumpsNext, JumpsTwice;
    if exists q :: 0 <= q && JumpsNext(Rewrite(Threading, code), q) {
      var q :| 0 <= q && JumpsNext(Rewrite(Threading, code), q);
      PairFromTwice(code, q);
    }
    if exists i :: 0 <= i && JumpsTwice(code, i) {
      var i :| 0 <= i && JumpsTwice(code, i);
      TwiceLeavesPair(code, i);
    }
  }

  // ----- all six passes -----

  /** Unit `u` may change `r`, or stores it. */
  predicate Touches(u: Unit, r: Reg) {
    Disturbs(u, r) || (u.Wstk? && u.src == r)
  }

  predicate ConstantInto(k: Kind, u: Unit, r: Reg) {
    LoadsConstant(k, u) && Destination(u) == Some(r)
  }

  /** Between two equal loads of a constant into `r` something touches it. */
  ghost predicate Clean(k: Kind, r: Reg, code: seq<Unit>) {
    forall p: nat, q: nat :: p < q < |code| && ConstantInto(k, code[p], r) && code[q] == code[p] ==>
      exists m :: p < m < q && Touches(code[m], r)
  }

  ghost predicate NeverStored(code: seq<Unit>, r: Reg) {
    forall u :: u in code ==> !(u.Wstk? && u.src == r)
  }

  /** A unit whose block is a constant load, and what its block is. */
  lemma ConstantKept(pass: Pass, code: seq<Unit>, i: nat, k: Kind, u: Unit)
    requires i < |code| && Block(pass, code, i) == [u] && LoadsConstant(k, u)
    ensures code[i] == u
  {
    hide AliasAt, FirstAlias;
  }

  /** A pass touches `r` with no unit that did not, unless the unit is dropped. */
  lemma TouchesKept(pass: Pass, code: seq<Unit>, i: nat, r: Reg)
    requires i < |code| && Touches(code[i], r) && Block(pass, code, i) != []
    ensures Touches(Block(pass, code, i)[0], r)
  {
    hide AliasAt, FirstAlias;
  }

  /** The first unit from `i` on that touches `r`. */
  lemma {:induction false} FirstTouch(code: seq<Unit>, r: Reg, i: nat, m: nat) returns (f: nat)
    requires i <= m < |code| && Touches(code[m], r)
    ensures i <= f <= m && Touches(code[f], r) && forall j: nat :: i <= j < f ==> !Touches(code[j], r)
    decreases m - i
  {
    hide Touches;
    if Touches(code[i], r) {
      f := i;
    } else {
      f := FirstTouch(code, r, i + 1, m);
    }
  }

  lemma TrackForgets(pass: Pass, code: seq<Unit>, i: nat, k: Kind, r: Reg)
    requires i < |code| && ConstantInto(k, code[i], r) && (pass == Slot || (pass.Alias? && pass.kind != k))
    ensures r !in AliasAt(pass, code, i + 1)
  {
  }

  lemma TrackStaysOut(pass: Pass, code: seq<Unit>, i: nat, r: Reg)
    requires i < |code| && (pass == Slot || pass.Alias?) && r !in AliasAt(pass, code, i) && !Touches(code[i], r)
    ensures r !in AliasAt(pass, code, i + 1)
  {
  }

  lemma {:induction false} UnknownUntil(pass: Pass, code: seq<Unit>, i: nat, j: nat, k: Kind, r: Reg)
    requires i < j <= |code| && ConstantInto(k, code[i], r) && (pass == Slot || (pass.Alias? && pass.kind != k))
    requires forall m: nat :: i < m < j ==> !Touches(code[m], r)
    ensures r !in AliasAt(pass, code, j)
    decreases j
  {
    hide AliasAt, Touches, ConstantInto;
    if i == j - 1 {
      TrackForgets(pass, code, i, k, r);
    } else {
      UnknownUntil(pass, code, i, j - 1, k, r);
      TrackStaysOut(pass, code, j - 1, r);
    }
  }

  /** A tracker drops no unit that touches a register of which it knows nothing. */
  lemma UnknownKept(pass: Pass, code: seq<Unit>, i: nat, r: Reg)
    requires i < |code| && (pass == Slot || pass.Alias?) && r !in AliasAt(pass, code, i) && Touches(code[i], r)
    ensures Block(pass, code, i) != []
  {
    hide AliasAt, FirstAlias;
  }

  /** The removal of stores drops nothing that touches a register that is never stored. */
  lemma UnusedKept(used: set<int>, code: seq<Unit>, i: nat, r: Reg)
    requires i < |code| && NeverStored(code, r) && Touches(code[i], r)
    ensures Block(Unused(used), code, i) != []
  {
    assert code[i] in code;
  }

  /** A dropped jump leaves its label behind, which is as good. */
  lemma ThreadedLabel(code: seq<Unit>, i: nat, r: Reg)
    requires i < |code| && Block(Threading, code, i) == []
    ensures i + 1 < |code| && code[i + 1].Label? && Touches(code[i + 1], r) && Block(Threading, code, i + 1) != []
  {
  }

  /** Some kept unit between `i` and `j` touches `r`. */
  lemma TouchSurvives(pass: Pass, code: seq<Unit>, k: Kind, r: Reg, i: nat, j: nat) returns (m: nat)
    requires i < j < |code| && ConstantInto(k, code[i], r) && code[j] == code[i]
    requires exists m :: i < m < j && Touches(code[m], r)
    requires pass.Alias? ==> pass.kind != k
    requires pass.Unused? ==> NeverStored(code, r)
    ensures i < m < j && Touches(code[m], r) && Block(pass, code, m) != []
  {
    hide AliasAt, Block, Touches, ConstantInto, NeverStored;
    var n :| i < n < j && Touches(code[n], r);
    m := FirstTouch(code, r, i + 1, n);
    match pass {
      case Alias(_) =>
        UnknownUntil(pass, code, i, m, k, r);
        UnknownKept(pass, code, m, r);
      case Slot =>
        UnknownUntil(pass, code, i, m, k, r);
        UnknownKept(pass, code, m, r);
      case Unused(used) => UnusedKept(used, code, m, r);
      case Threading =>
        if Block(Threading, code, m) == [] {
          ThreadedLabel(code, m, r);
          NoLabel(k, code[j], r);
          m := m + 1;
        }
    }
  }

  lemma NoLabel(k: Kind, u: Unit, r: Reg)
    requires ConstantInto(k, u, r)
    ensures !u.Label?
  {
  }

  /** Later passes keep clean code clean. */
  lemma CleanKept(pass: Pass, code: seq<Unit>, k: Kind, r: Reg)
    requires Clean(k, r, code) && (pass.Alias? ==> pass.kind != k) && (pass.Unused? ==> NeverStored(code, r))
    ensures Clean(k, r, Rewrite(pass, code))
  {
    hide Rewrite, Block, Touches, AliasAt, Start, ConstantInto, NeverStored;
    var short := Rewrite(pass, code);
    forall p: nat, q: nat | p < q < |short| && ConstantInto(k, short[p], r) && short[q] == short[p]
      ensures exists m :: p < m < q && Touches(short[m], r)
    {
      var i := Origin(pass, code, p);
      var j := Origin(pass, code, q);
      OriginsOrdered(pass, code, i, j);
      IntoLoads(k, short[p], r);
      ConstantKept(pass, code, i, k, short[p]);
      ConstantKept(pass, code, j, k, short[q]);
      var n := TouchSurvives(pass, code, k, r, i, j);
      TouchesKept(pass, code, n, r);
      var m := Between(pass, code, i, n, j);
      assert Touches(short[m], r);
    }
  }

  lemma IntoLoads(k: Kind, u: Unit, r: Reg)
    requires ConstantInto(k, u, r)
    ensures LoadsConstant(k, u)
  {
  }

  /** The pass of the kind makes it so. */
  lemma CleanAfter(k: Kind, code: seq<Unit>, r: Reg)
    ensures Clean(k, r, Rewrite(Alias(k), code))
  {
    hide Rewrite, Disturbs, LoadsConstant;
    var short := Rewrite(Alias(k), code);
    forall p: nat, q: nat | p < q < |short| && ConstantInto(k, short[p], r) && short[q] == short[p]
      ensures exists m :: p < m < q && Touches(short[m], r)
    {
      NoRepeatedLoad(k, code, p, q);
    }
  }

  lemma NeverStoredKept(pass: Pass, code: seq<Unit>, r: Reg)
    requires NeverStored(code, r)
    ensures NeverStored(Rewrite(pass, code), r)
  {
    hide Rewrite, Start, AliasAt, FirstAlias;
    var short := Rewrite(pass, code);
    forall u | u in short ensures !(u.Wstk? && u.src == r) {
      var q :| 0 <= q < |short| && short[q] == u;
      var i := Origin(pass, code, q);
      assert code[i] in code;
    }
  }

  lemma TrackedClean(code: seq<Unit>, k: Kind, r: Reg)
    requires NeverStored(code, r)
    ensures Clean(k, r, Tracked(code)) && NeverStored(Tracked(code), r)
  {
    hide Rewrite, Clean, NeverStored;
    var c1 := Rewrite(Alias(GloPtr), code);
    var c2 := Rewrite(Alias(Imm), c1);
    var c3 := Rewrite(Alias(StkPtr), c2);
    NeverStoredKept(Alias(GloPtr), code, r);
    NeverStoredKept(Alias(Imm), c1, r);
    NeverStoredKept(Alias(StkPtr), c2, r);
    NeverStoredKept(Slot, c3, r);
    match k {
      case GloPtr =>
        CleanAfter(GloPtr, code, r);
        CleanKept(Alias(Imm), c1, k, r);
        CleanKept(Alias(StkPtr), c2, k, r);
      case Imm =>
        CleanAfter(Imm, c1, r);
        CleanKept(Alias(StkPtr), c2, k, r);
      case StkPtr => CleanAfter(StkPtr, c2, r);
    }
    CleanKept(Slot, c3, k, r);
  }

  /** In optimised code a register that is never stored is not loaded with a constant that it holds: between two
      equal loads there is a unit that may have changed it. */
  lemma OptimizedLoads(code: seq<Unit>, p: nat, q: nat, k: Kind)
    requires p < q < |Optimized(code)| && LoadsConstant(k, Optimized(code)[p]) && Optimized(code)[q] == Optimized(code)[p]
    ensures var r := Destination(Optimized(code)[p]);
            && r.Some?
            && (NeverStored(code, r.value) ==> exists m :: p < m < q && Disturbs(Optimized(code)[m], r.value))
  {
    hide Rewrite, NeverStored, Tracked, Disturbs;
    LoadIs(k, Optimized(code)[p]);
    var r := Destination(Optimized(code)[p]).value;
    if NeverStored(code, r) {
      var c4 := Tracked(code);
      var used := UsedStack(c4);
      var c5 := Rewrite(Unused(used), c4);
      TrackedClean(code, k, r);
      CleanKept(Unused(used), c4, k, r);
      NeverStoredKept(Unused(used), c4, r);
      CleanKept(Threading, c5, k, r);
      NeverStoredKept(Threading, c5, r);
      var final := Optimized(code);
      assert final == Rewrite(Threading, c5);
      assert ConstantInto(k, final[p], r);
      var m :| p < m < q && Touches(final[m], r);
      NotStored(final, final[m], r);
    }
  }

  lemma NotStored(code: seq<Unit>, u: Unit, r: Reg)
    requires NeverStored(code, r) && u in code && Touches(u, r)
    ensures Disturbs(u, r)
  {
    hide Disturbs;
  }

  lemma SameReads(code: seq<Unit>, off: int)
    requires exists v :: v in code && ReadsSlot(v, off)
    ensures exists v :: v in Rewrite(Threading, code) && ReadsSlot(v, off)
  {
    hide Rewrite, Start;
    var v :| v in code && ReadsSlot(v, off);
    var j :| 0 <= j < |code| && code[j] == v;
    Kept(Threading, code, j);
  }

  /** In optimised code every slot that is stored is loaded somewhere or has its address taken. */
  lemma OptimizedStores(code: seq<Unit>, u: Unit)
    requires u in Optimized(code) && u.Wstk?
    ensures exists v :: v in Optimized(code) && ReadsSlot(v, u.offset)
  {
    hide Rewrite, Tracked, UsedStack;
    var c5 := Rewrite(Unused(UsedStack(Tracked(code))), Tracked(code));
    var q :| 0 <= q < |Optimized(code)| && Optimized(code)[q] == u;
    var i := Origin(Threading, c5, q);
    assert c5[i] in c5;
    StoresAreRead(Tracked(code), u);
    SameReads(c5, u.offset);
  }

  /** Between two uses of a slot, the second a load, there is a unit that may change register or slot. */
  ghost predicate SlotClean(r: Reg, off: int, code: seq<Unit>) {
    forall p: nat, q: nat :: p < q < |code| && Associates(code[p], r, off) && LoadsSlot(code[q], off) ==>
      exists m :: p < m < q && DisturbsSlot(code[m], r, off)
  }

  predicate LoadsSlot(u: Unit, off: int) {
    u.Rstk? && u.offset == off
  }

  ghost predicate StoredOnlyTo(code: seq<Unit>, r: Reg, off: int) {
    forall u :: u in code && u.Wstk? && u.src == r ==> u.offset == off
  }

  /** What the last two passes drop: stores of slots that are not read, and jumps in front of their label. */
  lemma DroppedLast(pass: Pass, code: seq<Unit>, i: nat, r: Reg, off: int)
    requires i < |code| && DisturbsSlot(code[i], r, off) && StoredOnlyTo(code, r, off)
    requires pass == Threading || (pass.Unused? && off in pass.used)
    ensures Block(pass, code, i) == [code[i]]
            || (pass == Threading && i + 1 < |code| && code[i + 1].Label? && Block(pass, code, i + 1) == [code[i + 1]])
  {
    assert code[i] in code;
  }

  /** Some kept unit between `i` and `j` disturbs register or slot. */
  lemma DisturbanceSurvives(pass: Pass, code: seq<Unit>, r: Reg, off: int, i: nat, j: nat) returns (m: nat)
    requires i < j < |code| && LoadsSlot(code[j], off) && StoredOnlyTo(code, r, off)
    requires exists m :: i < m < j && DisturbsSlot(code[m], r, off)
    requires pass == Threading || (pass.Unused? && off in pass.used)
    ensures i < m < j && DisturbsSlot(code[m], r, off) && Block(pass, code, m) == [code[m]]
  {
    hide Block, DisturbsSlot, LoadsSlot, StoredOnlyTo;
    var n :| i < n < j && DisturbsSlot(code[n], r, off);
    DroppedLast(pass, code, n, r, off);
    LabelDisturbs(r, off);
    NotLabel(code[j], off);
    m := if Block(pass, code, n) == [code[n]] then n else n + 1;
  }

  lemma SubCode(pass: Pass, code: seq<Unit>)
    requires pass == Threading || pass.Unused?
    ensures forall u :: u in Rewrite(pass, code) ==> u in code
  {
    hide Rewrite, Block, Start;
    var short := Rewrite(pass, code);
    forall u | u in short ensures u in code {
      var q :| 0 <= q < |short| && short[q] == u;
      var i := LastOrigin(pass, code, q);
      assert code[i] in code;
    }
  }

  lemma SlotCleanKept(pass: Pass, code: seq<Unit>, r: Reg, off: int)
    requires SlotClean(r, off, code) && StoredOnlyTo(code, r, off)
    requires pass == Threading || (pass.Unused? && ((exists u :: u in code && LoadsSlot(u, off)) ==> off in pass.used))
    ensures SlotClean(r, off, Rewrite(pass, code)) && StoredOnlyTo(Rewrite(pass, code), r, off)
  {
    hide Rewrite, Block, DisturbsSlot, Start, Associates, LoadsSlot;
    var short := Rewrite(pass, code);
    SubCode(pass, code);
    forall p: nat, q: nat | p < q < |short| && Associates(short[p], r, off) && LoadsSlot(short[q], off)
      ensures exists m :: p < m < q && DisturbsSlot(short[m], r, off)
    {
      var i := LastOrigin(pass, code, p);
      var j := LastOrigin(pass, code, q);
      OriginsOrdered(pass, code, i, j);
      assert code[j] in code;
      var n := DisturbanceSurvives(pass, code, r, off, i, j);
      var m := Between(pass, code, i, n, j);
      assert DisturbsSlot(short[m], r, off);
    }
  }

  lemma LastOrigin(pass: Pass, code: seq<Unit>, q: nat) returns (i: nat)
    requires q < |Rewrite(pass, code)| && (pass == Threading || pass.Unused?)
    ensures i < |code| && Start(Blocks(pass, code), i) == q && code[i] == Rewrite(pass, code)[q] && Block(pass, code, i) == [code[i]]
  {
    hide Rewrite, Start;
    i := Origin(pass, code, q);
  }

  lemma LabelDisturbs(r: Reg, off: int)
    ensures forall u: Unit :: u.Label? ==> DisturbsSlot(u, r, off)
  {
  }

  lemma NotLabel(u: Unit, off: int)
    requires LoadsSlot(u, off)
    ensures !u.Label?
  {
  }

  lemma StoredOnlyKept(pass: Pass, code: seq<Unit>, r: Reg, off: int)
    requires StoredOnlyTo(code, r, off)
    ensures StoredOnlyTo(Rewrite(pass, code), r, off)
  {
    hide Rewrite, Start, AliasAt, FirstAlias;
    var short := Rewrite(pass, code);
    forall u | u in short && u.Wstk? && u.src == r ensures u.offset == off {
      var q :| 0 <= q < |short| && short[q] == u;
      var i := Origin(pass, code, q);
      assert code[i] in code;
    }
  }

  lemma SlotCleanAfter(code: seq<Unit>, r: Reg, off: int)
    ensures SlotClean(r, off, Rewrite(Slot, code))
  {
    hide Rewrite, DisturbsSlot, Associates;
    var short := Rewrite(Slot, code);
    forall p: nat, q: nat | p < q < |short| && Associates(short[p], r, off) && LoadsSlot(short[q], off)
      ensures exists m :: p < m < q && DisturbsSlot(short[m], r, off)
    {
      NoRepeatedSlotLoad(code, p, q, r);
    }
  }

  lemma LoadedIsUsed(code: seq<Unit>, off: int)
    requires exists u :: u in code && LoadsSlot(u, off)
    ensures off in UsedStack(code)
  {
    hide UsedStack;
  }

  /** In optimised code no slot is loaded that a register still holds, unless that register is stored to another
      slot: between a use of a slot and the next load of it there is a unit that may change register or slot. */
  lemma OptimizedSlotLoads(code: seq<Unit>, p: nat, q: nat, r: Reg)
    requires p < q < |Optimized(code)| && Optimized(code)[q].Rstk?
    requires Associates(Optimized(code)[p], r, Optimized(code)[q].offset) && StoredOnlyTo(code, r, Optimized(code)[q].offset)
    ensures exists m :: p < m < q && DisturbsSlot(Optimized(code)[m], r, Optimized(code)[q].offset)
  {
    hide Rewrite, StoredOnlyTo, DisturbsSlot, Associates, UsedStack;
    var off := Optimized(code)[q].offset;
    var c1 := Rewrite(Alias(GloPtr), code);
    var c2 := Rewrite(Alias(Imm), c1);
    var c3 := Rewrite(Alias(StkPtr), c2);
    StoredOnlyKept(Alias(GloPtr), code, r, off);
    StoredOnlyKept(Alias(Imm), c1, r, off);
    StoredOnlyKept(Alias(StkPtr), c2, r, off);
    StoredOnlyKept(Slot, c3, r, off);
    SlotCleanAfter(c3, r, off);
    var c4 := Rewrite(Slot, c3);
    if exists u :: u in c4 && LoadsSlot(u, off) {
      LoadedIsUsed(c4, off);
    }
    SlotCleanKept(Unused(UsedStack(c4)), c4, r, off);
    SlotCleanKept(Threading, Rewrite(Unused(UsedStack(c4)), c4), r, off);
    assert LoadsSlot(Optimized(code)[q], off);
  }
}
