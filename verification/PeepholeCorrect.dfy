/** Every peephole pass is a bisimulation: each alias entry is true of every reachable state. */
module PeepholeCorrect {
  import opened Words
  import opened Wrappers
  import opened Primitive
  import opened Layout
  import opened Dashie
  import opened Peephole

  // ----- what the passes rely on -----

  /** The zero register is never a destination. */
  ghost predicate ZeroFree(code: seq<Unit>) {
    forall u :: u in code ==> Destination(u) != Some(Zero)
  }

  /** No label is defined twice. */
  ghost predicate DistinctLabels(code: seq<Unit>) {
    forall i, j :: 0 <= i < j < |code| && code[i].Label? ==> code[i] != code[j]
  }

  /** A removed store is to a slot that no unit loads. */
  ghost predicate Sees(pass: Pass, off: int) {
    pass.Unused? ==> off in pass.used
  }

  ghost predicate Ready(pass: Pass, code: seq<Unit>) {
    && ZeroFree(code) && DistinctLabels(code)
    && (forall u :: u in code && u.Rstk? ==> Sees(pass, u.offset))
  }

  // ----- alias entries are true -----

  /** The word that a remembered value stands for. */
  ghost function Meaning(k: Kind, c: Context, v: int): Option<Word> {
    match k
    case GloPtr => GlobalAddress(c, v)
    case Imm => if -0x8000_0000 <= v < 0x8000_0000 then Some(v) else None
    case StkPtr => Some(Wrap(c.sp + v))
  }

  ghost predicate Holds(pass: Pass, c: Context, a: map<Reg, int>, s: State) {
    match pass
    case Alias(k) =>
      forall r :: r in a ==> r != Zero && r in s.regs && Meaning(k, c, a[r]) == Some(s.regs[r])
    case Slot =>
      forall r :: r in a ==> a[r] in s.frame && Read(s, r) == Some(s.frame[a[r]])
    case _ => true
  }

  /** Wherever control is, except at a label, the alias map is true of the state. */
  ghost predicate Inv(pass: Pass, code: seq<Unit>, c: Context, s: State) {
    s.status == Running && s.pc < |code| && !code[s.pc].Label? ==> Holds(pass, c, AliasAt(pass, code, s.pc), s)
  }

  /** What a unit that is no barrier can change. */
  lemma ExecFrame(code: seq<Unit>, c: Context, u: Unit, s: State)
    requires !Barrier(u) && Destination(u) != Some(Zero) && Exec(code, c, u, s).status != Stuck && s.status == Running
    ensures var s' := Exec(code, c, u, s);
            && s'.pc == s.pc + 1 && s'.status == Running
            && (forall r :: Destination(u) != Some(r) ==> Read(s', r) == Read(s, r) && (r in s.regs <==> r in s'.regs))
            && (!u.Wstk? ==> s'.frame == s.frame)
            && (u.Wstk? ==> u.offset in s.frame && Read(s, u.src).Some? && s'.frame == s.frame[u.offset := Read(s, u.src).value])
            && (u.Rstk? ==> u.offset in s.frame && Read(s', u.dst) == Some(s.frame[u.offset]))
  {
    hide Wrap, EvalUnary, EvalBinary;
  }

  lemma RememberedExec(code: seq<Unit>, c: Context, k: Kind, u: Unit, s: State)
    requires Remembered(k, u).Some? && Destination(u) != Some(Zero) && Exec(code, c, u, s).status != Stuck
    ensures var f, s' := Remembered(k, u).value, Exec(code, c, u, s);
            && Destination(u) == Some(f.reg) && !Barrier(u) && Meaning(k, c, f.value).Some?
            && s' == s.(regs := s.regs[f.reg := Meaning(k, c, f.value).value], pc := s.pc + 1)
  {
    hide Wrap;
  }

  lemma AliasHolds(code: seq<Unit>, c: Context, k: Kind, a: map<Reg, int>, u: Unit, s: State)
    requires Holds(Alias(k), c, a, s) && Destination(u) != Some(Zero) && s.status == Running
    requires Exec(code, c, u, s).status != Stuck && !Barrier(u)
    ensures Holds(Alias(k), c, Track(k, a, u), Exec(code, c, u, s))
  {
    hide Meaning, Remembered, Exec;
    ExecFrame(code, c, u, s);
    if Remembered(k, u).Some? {
      RememberedExec(code, c, k, u, s);
    }
  }

  lemma SlotHolds(code: seq<Unit>, c: Context, a: map<Reg, int>, u: Unit, s: State)
    requires Holds(Slot, c, a, s) && Destination(u) != Some(Zero) && s.status == Running
    requires Exec(code, c, u, s).status != Stuck && !Barrier(u)
    ensures Holds(Slot, c, TrackSlot(a, u), Exec(code, c, u, s))
  {
    ExecFrame(code, c, u, s);
    hide Exec, Read;
  }

  lemma BarrierExec(code: seq<Unit>, c: Context, u: Unit, s: State)
    requires Barrier(u) && Exec(code, c, u, s).status == Running
    ensures var s' := Exec(code, c, u, s); s'.pc == s.pc + 1 || (s'.pc < |code| && code[s'.pc].Label?)
  {
    hide EvalBinary, ExecCall;
    CallNext(c, s);
  }

  lemma CallNext(c: Context, s: State)
    ensures forall name :: ExecCall(c, s, name).status == s.status && ExecCall(c, s, name).status != Stuck ==>
              ExecCall(c, s, name).pc == s.pc + 1
    ensures forall name :: s.status == Running || ExecCall(c, s, name).status != Running
  {
    hide CallEvent, RegsAfter, MemAfter, ArgsReadable;
  }

  lemma NoAlias(pass: Pass, c: Context, s: State)
    ensures Holds(pass, c, map[], s)
  {
  }

  lemma AliasAfterBarrier(pass: Pass, code: seq<Unit>, i: nat)
    requires i < |code| && Barrier(code[i])
    ensures AliasAt(pass, code, i + 1) == map[]
  {
    hide Forget;
  }

  /** One step keeps the alias map true. */
  lemma InvStep(pass: Pass, code: seq<Unit>, c: Context, s: State)
    requires Ready(pass, code) && Inv(pass, code, c, s) && Step(code, c, s).status != Stuck
    ensures Inv(pass, code, c, Step(code, c, s))
  {
    hide Exec, Holds, Track, TrackSlot, DistinctLabels, Sees;
    if s.status == Running && s.pc < |code| {
      var u := code[s.pc];
      assert u in code;
      if Barrier(u) {
        AliasAfterBarrier(pass, code, s.pc);
        NoAlias(pass, c, Step(code, c, s));
        if Step(code, c, s).status == Running {
          BarrierExec(code, c, u, s);
        }
      } else {
        ExecFrame(code, c, u, s);
        var a := AliasAt(pass, code, s.pc);
        match pass {
          case Alias(k) => AliasHolds(code, c, k, a, u, s);
          case Slot => SlotHolds(code, c, a, u, s);
          case _ => NoAlias(pass, c, Step(code, c, s));
        }
      }
    }
  }

  // ----- what a pass makes of a unit -----

  /** Equal states but for control and for slots that nobody loads. */
  ghost predicate Same(pass: Pass, s: State, t: State) {
    && t == s.(pc := t.pc, frame := t.frame) && t.frame.Keys == s.frame.Keys
    && (forall off :: off in s.frame && Sees(pass, off) ==> t.frame[off] == s.frame[off])
    && (!pass.Unused? ==> t.frame == s.frame)
  }

  lemma BlockShape(pass: Pass, code: seq<Unit>, i: nat)
    requires i < |code|
    ensures var b := Block(pass, code, i);
            || b == []
            || b == [code[i]]
            || (pass.Slot? && code[i].Rstk? && FirstAlias(AliasAt(pass, code, i), code[i].offset).Some?
                && b == [Cr(code[i].dst, FirstAlias(AliasAt(pass, code, i), code[i].offset).value)])
    ensures code[i].Label? ==> Block(pass, code, i) == [code[i]]
    ensures Block(pass, code, i) == [] ==>
              match pass
              case Alias(k) =>
                var r, a := Remembered(k, code[i]), AliasAt(pass, code, i);
                r.Some? && r.value.reg in a && a[r.value.reg] == r.value.value
              case Slot =>
                var a := AliasAt(pass, code, i);
                code[i].Rstk? && code[i].dst in a && a[code[i].dst] == code[i].offset
              case Unused(used) => code[i].Wstk? && code[i].offset !in used
              case Threading => i + 1 < |code| && code[i].Jmp? && code[i + 1] == Label(code[i].id)
  {
    hide FirstAlias, AliasAt;
  }

  /** A jump to a label that is defined once goes to its definition. */
  lemma DistinctPlace(code: seq<Unit>, i: nat)
    requires DistinctLabels(code) && i < |code| && code[i].Label?
    ensures IndexOf(code, code[i]) == Some(i)
  {
    forall j | 0 <= j < i ensures code[j] != code[i] {
      if code[j].Label? {
        assert code[j] != code[i];
      }
    }
    IndexOfIs(code, code[i], i);
  }

  /** A removed unit has no visible effect but to move on. */
  lemma DroppedExec(pass: Pass, code: seq<Unit>, c: Context, s: State)
    requires Ready(pass, code) && Inv(pass, code, c, s) && s.status == Running && s.pc < |code|
    requires Block(pass, code, s.pc) == [] && Exec(code, c, code[s.pc], s).status != Stuck
    ensures var s' := Exec(code, c, code[s.pc], s); s'.pc == s.pc + 1 && Same(pass, s', s)
  {
    var u, a := code[s.pc], AliasAt(pass, code, s.pc);
    assert u in code;
    BlockShape(pass, code, s.pc);
    hide AliasAt, Block, Meaning, Remembered, FirstAlias;
    match pass {
      case Alias(k) => RememberedExec(code, c, k, u, s);
      case Slot => ExecFrame(code, c, u, s);
      case Unused(_) =>
      case Threading => DistinctPlace(code, s.pc + 1);
    }
  }

  lemma FirstAliasMeans(a: map<Reg, int>, off: int)
    requires FirstAlias(a, off).Some?
    ensures FirstAlias(a, off).value in a && a[FirstAlias(a, off).value] == off
  {
  }

  /** A load replaced by a copy of a register that holds the slot. */
  lemma CopyExec(pass: Pass, code: seq<Unit>, flat: seq<Unit>, c: Context, s: State, t: State, r: Reg)
    requires pass == Slot && s.pc < |code| && code[s.pc].Rstk? && Holds(Slot, c, AliasAt(pass, code, s.pc), s)
    requires r in AliasAt(pass, code, s.pc) && AliasAt(pass, code, s.pc)[r] == code[s.pc].offset && Same(pass, s, t)
    ensures var s', t' := Exec(code, c, code[s.pc], s), Exec(flat, c, Cr(code[s.pc].dst, r), t);
            Same(pass, s', t') && s'.pc == s.pc + 1 && t'.pc == t.pc + 1
  {
    hide AliasAt;
  }

  /** Where a jump goes in the rewritten code. */
  lemma JumpPlace(pass: Pass, code: seq<Unit>, l: int)
    ensures IndexOf(code, Label(l)).None? ==> IndexOf(Rewrite(pass, code), Label(l)).None?
    ensures IndexOf(code, Label(l)).Some? ==>
              IndexOf(Rewrite(pass, code), Label(l)) == Some(Start(Blocks(pass, code), IndexOf(code, Label(l)).value))
  {
    hide Start, IndexOf, Flatten, Block, AliasAt;
    forall i | 0 <= i < |code|
      ensures code[i] == Label(l) ==> |Blocks(pass, code)[i]| > 0 && Blocks(pass, code)[i][0] == Label(l)
      ensures code[i] != Label(l) ==> Label(l) !in Blocks(pass, code)[i]
    {
      BlockShape(pass, code, i);
    }
    LabelImage(code, Blocks(pass, code), Label(l), Label(l));
  }

  /** The outcome of one unit on two states that look the same. */
  ghost predicate SameMove(pass: Pass, s: State, t: State, s': State, t': State) {
    && Same(pass, s', t') && t'.pc - t.pc == s'.pc - s.pc
    && (s.status == Running && s'.status == Running ==> s'.pc == s.pc + 1)
    && (s.status == Running && s'.status != Running ==> s'.pc == s.pc)
  }

  lemma WriteSame(pass: Pass, s: State, t: State, r: Reg, v: Option<Word>)
    requires Same(pass, s, t)
    ensures SameMove(pass, s, t, Write(s, r, v), Write(t, r, v))
  {
    hide Sees;
  }

  lemma ReadSame(pass: Pass, s: State, t: State)
    requires Same(pass, s, t)
    ensures t.mem == s.mem && forall r :: Read(s, r) == Read(t, r)
  {
    hide Sees;
  }

  lemma ComputedSame(pass: Pass, c: Context, u: Unit, s: State, t: State)
    requires Destination(u).Some? && Same(pass, s, t) && (u.Rstk? ==> Sees(pass, u.offset))
    ensures Computed(c, u, s) == Computed(c, u, t)
  {
    ReadSame(pass, s, t);
    hide Read, ApplyBinary, ApplyUnary, Offset, GlobalAddress, Wrap, Sees;
  }

  lemma StoreSame(pass: Pass, code: seq<Unit>, flat: seq<Unit>, c: Context, u: Unit, s: State, t: State)
    requires (u.Aw? || u.Wstk? || u.Label? || u.Ret? || u.Call?) && Same(pass, s, t)
    ensures SameMove(pass, s, t, Exec(code, c, u, s), Exec(flat, c, u, t))
  {
    if u.Call? {
      CallExecSame(pass, code, flat, c, u, s, t);
    } else {
      ReadSame(pass, s, t);
      hide Read, Offset, Sees, ExecCall;
    }
  }

  lemma CallExecSame(pass: Pass, code: seq<Unit>, flat: seq<Unit>, c: Context, u: Unit, s: State, t: State)
    requires u.Call? && Same(pass, s, t)
    ensures SameMove(pass, s, t, Exec(code, c, u, s), Exec(flat, c, u, t))
  {
    CallSame(c, s, t, u.name);
    CallNext(c, s);
    hide Read, Offset, Sees, ExecCall;
  }

  /** A kept unit that does not jump does the same to both states. */
  lemma PlainExec(pass: Pass, code: seq<Unit>, flat: seq<Unit>, c: Context, u: Unit, s: State, t: State)
    requires !u.Jmp? && !u.Jc? && Same(pass, s, t) && (u.Rstk? ==> Sees(pass, u.offset))
    ensures SameMove(pass, s, t, Exec(code, c, u, s), Exec(flat, c, u, t))
  {
    hide Same, SameMove, Exec, Sees, Computed;
    if Destination(u).Some? {
      ComputedMeans(code, c, u, s);
      ComputedMeans(flat, c, u, t);
      ComputedSame(pass, c, u, s, t);
      WriteSame(pass, s, t, Destination(u).value, Computed(c, u, s));
    } else {
      StoreSame(pass, code, flat, c, u, s, t);
    }
  }

  lemma CallSame(c: Context, s: State, t: State, name: string)
    requires t == s.(pc := t.pc, frame := t.frame)
    ensures ExecCall(c, t, name)
         == ExecCall(c, s, name).(pc := t.pc + ExecCall(c, s, name).pc - s.pc, frame := t.frame)
    ensures ExecCall(c, s, name).frame == s.frame && ExecCall(c, s, name).pc >= s.pc
  {
    hide MemAfter, GlobalsView, ArraysView;
    forall r ensures Read(s, r) == Read(t, r) {
    }
    if ArgsReadable(s, c.arity(name)) {
      assert CallArgs(s, c.arity(name)) == CallArgs(t, c.arity(name));
    }
    hide Read, AbiArgument;
  }

  /** Control in the rewritten code stands at the image of control in the code. */
  ghost predicate Rel(pass: Pass, code: seq<Unit>, s: State, t: State) {
    s.pc <= |code| && t.pc == Start(Blocks(pass, code), s.pc) && Same(pass, s, t)
  }

  lemma GotoSame(pass: Pass, code: seq<Unit>, l: int, s: State, t: State)
    requires Same(pass, s, t)
    ensures var s', t' := Goto(code, s, l), Goto(Rewrite(pass, code), t, l);
            && Same(pass, s', t')
            && (s'.status == s.status && s.status != Stuck ==>
                  s'.pc <= |code| && t'.pc == Start(Blocks(pass, code), s'.pc))
            && (s'.status == Stuck && s.status != Stuck ==> s'.pc == s.pc && t'.pc == t.pc)
  {
    JumpPlace(pass, code, l);
    hide Rewrite, Start, Sees, Blocks;
  }

  /** Whether a jump unit jumps, if its operands can be read. */
  ghost function Taken(u: Unit, s: State): Option<bool>
    requires u.Jmp? || u.Jc?
  {
    if u.Jmp? then Some(true)
    else
      match ApplyBinary(u.bop, Read(s, u.src1), Read(s, u.src2))
      case None => None
      case Some(v) => Some(v != 0)
  }

  lemma JumpMeans(code: seq<Unit>, c: Context, u: Unit, s: State)
    requires u.Jmp? || u.Jc?
    ensures Exec(code, c, u, s)
         == match Taken(u, s)
            case None => Halt(s, Stuck)
            case Some(j) => if j then Goto(code, s, u.id) else Next(s)
  {
    hide ApplyBinary, Goto, Halt, Next, Read;
  }

  lemma TakenSame(pass: Pass, u: Unit, s: State, t: State)
    requires (u.Jmp? || u.Jc?) && Same(pass, s, t)
    ensures Taken(u, s) == Taken(u, t)
  {
    hide ApplyBinary, Sees;
  }

  lemma HaltRel(pass: Pass, code: seq<Unit>, s: State, t: State)
    requires Rel(pass, code, s, t)
    ensures Rel(pass, code, Halt(s, Stuck), Halt(t, Stuck))
    ensures s.pc < |code| && Start(Blocks(pass, code), s.pc + 1) == t.pc + 1 ==> Rel(pass, code, Next(s), Next(t))
  {
    hide Start, Sees, Blocks;
  }

  lemma GotoRel(pass: Pass, code: seq<Unit>, l: int, s: State, t: State)
    requires Rel(pass, code, s, t) && s.status == Running
    ensures Rel(pass, code, Goto(code, s, l), Goto(Rewrite(pass, code), t, l))
  {
    GotoSame(pass, code, l, s, t);
    hide Start, Sees, Blocks, Rewrite, IndexOf, Same;
  }

  lemma JumpExec(pass: Pass, code: seq<Unit>, c: Context, u: Unit, s: State, t: State)
    requires (u.Jmp? || u.Jc?) && Rel(pass, code, s, t) && s.status == Running && s.pc < |code|
    requires Start(Blocks(pass, code), s.pc + 1) == Start(Blocks(pass, code), s.pc) + 1
    ensures Rel(pass, code, Exec(code, c, u, s), Exec(Rewrite(pass, code), c, u, t))
  {
    hide *;
    RelMeans(pass, code, s, t);
    JumpMeans(code, c, u, s);
    JumpMeans(Rewrite(pass, code), c, u, t);
    TakenSame(pass, u, s, t);
    HaltRel(pass, code, s, t);
    GotoRel(pass, code, u.id, s, t);
  }

  lemma BlockPlace(pass: Pass, code: seq<Unit>, i: nat)
    requires i < |code|
    ensures Start(Blocks(pass, code), i + 1) == Start(Blocks(pass, code), i) + |Block(pass, code, i)|
    ensures |Block(pass, code, i)| == 1 ==>
              Start(Blocks(pass, code), i) < |Rewrite(pass, code)|
              && Rewrite(pass, code)[Start(Blocks(pass, code), i)] == Block(pass, code, i)[0]
  {
    hide Start, Flatten, Block;
    BlockAt(Blocks(pass, code), i);
  }

  /** A kept or replaced unit takes related states to related states. */
  lemma KeptExec(pass: Pass, code: seq<Unit>, c: Context, s: State, t: State)
    requires Ready(pass, code) && Inv(pass, code, c, s) && Rel(pass, code, s, t) && s.status == Running && s.pc < |code|
    requires Block(pass, code, s.pc) != []
    ensures t.pc < |Rewrite(pass, code)| && t.status == Running
    ensures Rel(pass, code, Exec(code, c, code[s.pc], s), Exec(Rewrite(pass, code), c, Rewrite(pass, code)[t.pc], t))
  {
    var u, flat := code[s.pc], Rewrite(pass, code);
    assert u in code;
    BlockShape(pass, code, s.pc);
    BlockPlace(pass, code, s.pc);
    hide Block, Blocks, Rewrite, Start, Exec, Read, AliasAt, FirstAlias, Sees, IndexOf, Holds, Destination;
    if u.Jmp? || u.Jc? {
      JumpExec(pass, code, c, u, s, t);
    } else if Block(pass, code, s.pc) == [u] {
      PlainExec(pass, code, flat, c, u, s, t);
    } else {
      var a := AliasAt(pass, code, s.pc);
      FirstAliasMeans(a, u.offset);
      CopyExec(pass, code, flat, c, s, t, FirstAlias(a, u.offset).value);
    }
  }

  // ----- whole runs -----

  lemma StepIs(code: seq<Unit>, c: Context, s: State)
    ensures s.status != Running ==> Step(code, c, s) == s
    ensures s.status == Running && s.pc < |code| ==> Step(code, c, s) == Exec(code, c, code[s.pc], s)
    ensures s.status == Running && s.pc >= |code| ==> Step(code, c, s) == Halt(s, Stuck)
  {
    hide Exec;
  }

  lemma RunIs(code: seq<Unit>, c: Context, s: State, n: nat)
    ensures n == 0 ==> Run(code, c, s, n) == s
    ensures n > 0 ==> Run(code, c, s, n) == Step(code, c, Run(code, c, s, n - 1))
    ensures Run(code, c, s, 1) == Step(code, c, s)
  {
    hide Step;
    assert Run(code, c, s, 0) == s;
  }

  lemma SameTrans(pass: Pass, s: State, t: State, v: State)
    requires Same(pass, s, t) && Same(pass, t, v)
    ensures Same(pass, s, v)
  {
    hide Sees;
  }

  lemma RelMeans(pass: Pass, code: seq<Unit>, s: State, t: State)
    ensures Rel(pass, code, s, t) <==> s.pc <= |code| && t.pc == Start(Blocks(pass, code), s.pc) && Same(pass, s, t)
    ensures Rel(pass, code, s, t) ==> t.status == s.status
  {
    hide Start, Blocks, Sees;
  }

  /** One step of the code is at most one step of the rewritten code. */
  lemma StepRel(pass: Pass, code: seq<Unit>, c: Context, s: State, t: State) returns (k: nat)
    requires Ready(pass, code) && Inv(pass, code, c, s) && Rel(pass, code, s, t) && Step(code, c, s).status != Stuck
    ensures k <= 1 && Rel(pass, code, Step(code, c, s), Run(Rewrite(pass, code), c, t, k))
    ensures s.status == Running && s.pc < |code| && Block(pass, code, s.pc) != [] ==> k == 1
    ensures s.status == Running && k == 0 ==> Step(code, c, s).pc == s.pc + 1
    ensures s.status == Running ==> s.pc < |code|
  {
    hide *;
    StepIs(code, c, s);
    RelMeans(pass, code, s, t);
    RunIs(Rewrite(pass, code), c, t, 0);
    k := 0;
    if s.status == Running {
      HaltStuck(s);
      if Block(pass, code, s.pc) == [] {
        DroppedExec(pass, code, c, s);
        SameTrans(pass, Step(code, c, s), s, t);
        BlockPlace(pass, code, s.pc);
        RelMeans(pass, code, Step(code, c, s), t);
      } else {
        KeptExec(pass, code, c, s, t);
        StepIs(Rewrite(pass, code), c, t);
        RunIs(Rewrite(pass, code), c, t, 1);
        k := 1;
      }
    }
  }

  lemma HaltStuck(s: State)
    ensures Halt(s, Stuck).status == Stuck
  {
  }

  lemma Begin(pass: Pass, code: seq<Unit>, c: Context, s: State)
    requires s.pc == 0
    ensures Rel(pass, code, s, s) && Inv(pass, code, c, s)
  {
    NoAlias(pass, c, s);
  }

  /** Every run of the code is followed by the rewritten code in at most as many steps, and the
      alias map is true wherever the run gets. */
  lemma {:induction false} PassCorrect(pass: Pass, code: seq<Unit>, c: Context, s: State, n: nat) returns (m: nat)
    requires Ready(pass, code) && s.pc == 0 && Run(code, c, s, n).status != Stuck
    ensures m <= n && Rel(pass, code, Run(code, c, s, n), Run(Rewrite(pass, code), c, s, m))
    ensures Inv(pass, code, c, Run(code, c, s, n))
  {
    hide *;
    RunIs(code, c, s, n);
    m := 0;
    if n == 0 {
      Begin(pass, code, c, s);
      RunIs(Rewrite(pass, code), c, s, 0);
    } else {
      NeverStuck(code, c, s, n - 1, n);
      m := PassCorrect(pass, code, c, s, n - 1);
      var k := StepRel(pass, code, c, Run(code, c, s, n - 1), Run(Rewrite(pass, code), c, s, m));
      InvStep(pass, code, c, Run(code, c, s, n - 1));
      RunAdd(Rewrite(pass, code), c, s, m, k);
      m := m + k;
    }
  }

  /** From a running state of a run that never gets stuck, the next kept unit is executed after
      finitely many removed ones. */
  lemma {:induction false} NextKept(pass: Pass, code: seq<Unit>, c: Context, s: State, t: State) returns (k: nat)
    requires Ready(pass, code) && Inv(pass, code, c, s) && Rel(pass, code, s, t)
    requires forall n :: Run(code, c, s, n).status != Stuck
    ensures Rel(pass, code, Run(code, c, s, k), Step(Rewrite(pass, code), c, t)) && Inv(pass, code, c, Run(code, c, s, k))
    ensures k > 0
    decreases |code| - s.pc
  {
    hide *;
    RunIs(code, c, s, 1);
    RelMeans(pass, code, s, t);
    assert Run(code, c, s, 1).status != Stuck;
    var j := StepRel(pass, code, c, s, t);
    InvStep(pass, code, c, s);
    RunIs(Rewrite(pass, code), c, t, j);
    StepIs(Rewrite(pass, code), c, t);
    StepIs(code, c, s);
    if s.status != Running || j == 1 {
      RunIs(Rewrite(pass, code), c, t, 1);
      k := 1;
    } else {
      var s' := Step(code, c, s);
      forall n: nat ensures Run(code, c, s', n).status != Stuck {
        RunAdd(code, c, s, 1, n);
        assert Run(code, c, s, 1 + n).status != Stuck;
      }
      RelMeans(pass, code, s', t);
      k := NextKept(pass, code, c, s', t);
      RunAdd(code, c, s, 1, k);
      k := 1 + k;
    }
  }

  /** Every run of the rewritten code is one of the code. */
  lemma {:induction false} PassReflects(pass: Pass, code: seq<Unit>, c: Context, s: State, m: nat) returns (n: nat)
    requires Ready(pass, code) && s.pc == 0 && forall n :: Run(code, c, s, n).status != Stuck
    ensures n >= m && Rel(pass, code, Run(code, c, s, n), Run(Rewrite(pass, code), c, s, m))
    ensures Inv(pass, code, c, Run(code, c, s, n))
  {
    hide *;
    RunIs(Rewrite(pass, code), c, s, m);
    n := 0;
    if m == 0 {
      Begin(pass, code, c, s);
      RunIs(code, c, s, 0);
    } else {
      n := PassReflects(pass, code, c, s, m - 1);
      var s' := Run(code, c, s, n);
      forall k: nat ensures Run(code, c, s', k).status != Stuck {
        RunAdd(code, c, s, n, k);
        assert Run(code, c, s, n + k).status != Stuck;
      }
      var k := NextKept(pass, code, c, s', Run(Rewrite(pass, code), c, s, m - 1));
      RunAdd(code, c, s, n, k);
      n := n + k;
    }
  }

  // ----- the passes one after the other -----

  lemma BlockUnits(pass: Pass, code: seq<Unit>, i: nat, u: Unit)
    requires i < |code| && u in Block(pass, code, i)
    ensures |Block(pass, code, i)| == 1 && Destination(u) == Destination(code[i]) && (u.Label? ==> u == code[i])
  {
    BlockShape(pass, code, i);
    hide Block, FirstAlias, AliasAt;
  }

  lemma OriginOf(pass: Pass, code: seq<Unit>, q: nat) returns (i: nat)
    requires q < |Rewrite(pass, code)|
    ensures i < |code| && q == Start(Blocks(pass, code), i)
    ensures var u := Rewrite(pass, code)[q]; Destination(u) == Destination(code[i]) && (u.Label? ==> u == code[i])
  {
    hide Start, Block, Destination, Flatten;
    var j: nat;
    i, j := Locate(Blocks(pass, code), q);
    BlockUnits(pass, code, i, Rewrite(pass, code)[q]);
  }

  /** Rewriting keeps what the next pass relies on. */
  lemma RewriteReady(pass: Pass, code: seq<Unit>)
    requires ZeroFree(code) && DistinctLabels(code)
    ensures ZeroFree(Rewrite(pass, code)) && DistinctLabels(Rewrite(pass, code))
  {
    hide Rewrite, Blocks, Start, Destination;
    var flat := Rewrite(pass, code);
    forall u | u in flat ensures Destination(u) != Some(Zero) {
      var q :| 0 <= q < |flat| && flat[q] == u;
      var i := OriginOf(pass, code, q);
      assert code[i] in code;
    }
    forall p, q | 0 <= p < q < |flat| && flat[p].Label? ensures flat[p] != flat[q] {
      var i := OriginOf(pass, code, p);
      var j := OriginOf(pass, code, q);
      if flat[p] == flat[q] {
        DistinctPlace(code, i);
        DistinctPlace(code, j);
      }
    }
  }

  lemma PassReady(pass: Pass, code: seq<Unit>)
    requires ZeroFree(code) && DistinctLabels(code) && (pass.Unused? ==> pass == Unused(UsedStack(code)))
    ensures Ready(pass, code)
  {
    hide UsedStack, ZeroFree, DistinctLabels;
  }

  /** Both runs look the same: registers, memory, calls, status, and every slot that the code loads. */
  ghost predicate Alike(code: seq<Unit>, s: State, t: State) {
    Same(Unused(UsedStack(Tracked(code))), s, t)
  }

  lemma SameChainBack(pass: Pass, last: Pass, s: State, t: State, v: State)
    requires Same(last, s, t) && Same(pass, t, v) && !pass.Unused?
    ensures Same(last, s, v)
  {
    hide Sees;
  }

  /** The six versions of the code. */
  ghost function Version(code: seq<Unit>, i: nat): seq<Unit> {
    if i == 0 then code else Rewrite(PassOf(code, i - 1), Version(code, i - 1))
  }

  ghost function PassOf(code: seq<Unit>, i: nat): Pass {
    if i == 0 then Alias(GloPtr)
    else if i == 1 then Alias(Imm)
    else if i == 2 then Alias(StkPtr)
    else if i == 3 then Slot
    else if i == 4 then Unused(UsedStack(Tracked(code)))
    else Threading
  }

  lemma Versions(code: seq<Unit>)
    ensures Version(code, 4) == Tracked(code) && Version(code, 6) == Optimized(code)
  {
    hide Rewrite, UsedStack;
    var c1 := Version(code, 1);
    assert c1 == Rewrite(Alias(GloPtr), Version(code, 0));
    var c2 := Version(code, 2);
    assert c2 == Rewrite(Alias(Imm), c1);
    var c3 := Version(code, 3);
    assert c3 == Rewrite(Alias(StkPtr), c2);
    var c4 := Version(code, 4);
    assert c4 == Rewrite(Slot, c3);
    var c5 := Version(code, 5);
    assert Version(code, 6) == Rewrite(Threading, c5);
  }

  lemma {:induction false} VersionReady(code: seq<Unit>, i: nat)
    requires ZeroFree(code) && DistinctLabels(code)
    ensures ZeroFree(Version(code, i)) && DistinctLabels(Version(code, i)) && Ready(PassOf(code, i), Version(code, i))
    decreases i
  {
    hide Rewrite, ZeroFree, DistinctLabels, UsedStack, Tracked, Ready;
    if i > 0 {
      VersionReady(code, i - 1);
      RewriteReady(PassOf(code, i - 1), Version(code, i - 1));
    }
    Versions(code);
    PassReady(PassOf(code, i), Version(code, i));
  }

  lemma SameSelf(pass: Pass, s: State)
    ensures Same(pass, s, s)
  {
  }

  lemma VersionNext(code: seq<Unit>, i: nat)
    ensures Version(code, i + 1) == Rewrite(PassOf(code, i), Version(code, i)) && Version(code, 0) == code
    ensures PassOf(code, i).Unused? <==> i == 4
    ensures PassOf(code, 4) == Unused(UsedStack(Tracked(code)))
  {
    hide Rewrite, UsedStack, Tracked;
  }

  lemma AlikeIs(code: seq<Unit>, s: State, t: State)
    ensures Alike(code, s, t) <==> Same(PassOf(code, 4), s, t)
  {
    hide Same, UsedStack, Tracked;
  }

  lemma {:induction false} VersionCorrect(code: seq<Unit>, c: Context, s: State, n: nat, i: nat) returns (m: nat)
    requires ZeroFree(code) && DistinctLabels(code) && s.pc == 0 && Run(code, c, s, n).status != Stuck
    ensures m <= n && Alike(code, Run(code, c, s, n), Run(Version(code, i), c, s, m))
    ensures Run(Version(code, i), c, s, m).status == Run(code, c, s, n).status
    decreases i
  {
    hide *;
    var last, s' := PassOf(code, 4), Run(code, c, s, n);
    VersionNext(code, i);
    if i == 0 {
      SameSelf(last, s');
      m := n;
    } else {
      m := VersionCorrect(code, c, s, n, i - 1);
      var t := Run(Version(code, i - 1), c, s, m);
      VersionReady(code, i - 1);
      var pass := PassOf(code, i - 1);
      VersionNext(code, i - 1);
      AlikeIs(code, s', t);
      m := PassCorrect(pass, Version(code, i - 1), c, s, m);
      RelMeans(pass, Version(code, i - 1), t, Run(Version(code, i), c, s, m));
      if i - 1 == 4 {
        SameTrans(last, s', t, Run(Version(code, i), c, s, m));
      } else {
        SameChainBack(pass, last, s', t, Run(Version(code, i), c, s, m));
      }
    }
    AlikeIs(code, s', Run(Version(code, i), c, s, m));
  }

  /** The optimised code follows every run of the code: the same calls with the same arguments, the
      same memory and registers, and the same contents in every slot that is ever loaded. */
  lemma PeepholeCorrect(code: seq<Unit>, c: Context, s: State, n: nat) returns (m: nat)
    requires ZeroFree(code) && DistinctLabels(code) && s.pc == 0 && Run(code, c, s, n).status != Stuck
    ensures m <= n && Alike(code, Run(code, c, s, n), Run(Optimized(code), c, s, m))
    ensures Run(Optimized(code), c, s, m).status == Run(code, c, s, n).status
  {
    hide *;
    Versions(code);
    m := VersionCorrect(code, c, s, n, 6);
  }

  lemma {:induction false} VersionReflects(code: seq<Unit>, c: Context, s: State, m: nat, i: nat) returns (n: nat)
    requires ZeroFree(code) && DistinctLabels(code) && s.pc == 0 && forall k :: Run(code, c, s, k).status != Stuck
    ensures n >= m && Alike(code, Run(code, c, s, n), Run(Version(code, i), c, s, m))
    ensures Run(Version(code, i), c, s, m).status == Run(code, c, s, n).status
    decreases i
  {
    hide *;
    var last := PassOf(code, 4);
    VersionNext(code, i);
    if i == 0 {
      n := m;
      SameSelf(last, Run(code, c, s, n));
    } else {
      VersionReady(code, i - 1);
      VersionNext(code, i - 1);
      var before, pass := Version(code, i - 1), PassOf(code, i - 1);
      forall k: nat ensures Run(before, c, s, k).status != Stuck {
        var j := VersionReflects(code, c, s, k, i - 1);
        assert Run(code, c, s, j).status != Stuck;
      }
      var k := PassReflects(pass, before, c, s, m);
      n := VersionReflects(code, c, s, k, i - 1);
      var s', t, v := Run(code, c, s, n), Run(before, c, s, k), Run(Version(code, i), c, s, m);
      RelMeans(pass, before, t, v);
      AlikeIs(code, s', t);
      if i - 1 == 4 {
        SameTrans(last, s', t, v);
      } else {
        SameChainBack(pass, last, s', t, v);
      }
    }
    AlikeIs(code, Run(code, c, s, n), Run(Version(code, i), c, s, m));
  }

  /** Nor does the optimised code do anything else: each of its runs is one of the code, so it stops
      only where the code stops. */
  lemma PeepholeReflects(code: seq<Unit>, c: Context, s: State, m: nat) returns (n: nat)
    requires ZeroFree(code) && DistinctLabels(code) && s.pc == 0 && forall k :: Run(code, c, s, k).status != Stuck
    ensures n >= m && Alike(code, Run(code, c, s, n), Run(Optimized(code), c, s, m))
    ensures Run(Optimized(code), c, s, m).status == Run(code, c, s, n).status
  {
    hide *;
    Versions(code);
    n := VersionReflects(code, c, s, m, 6);
  }
}
