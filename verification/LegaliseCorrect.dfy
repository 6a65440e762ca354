/** Making immediates fit preserves every run, up to the scratch register. */
module LegaliseCorrect {
  import opened Words
  import opened Wrappers
  import opened Layout
  import opened Glimmy
  import opened RiscvOutput

  // ----- states that differ in the scratch register only -----

  ghost predicate Near(s: State, t: State) {
    && t == s.(pc := t.pc, regs := t.regs)
    && (forall r :: r != T(0) ==> (r in t.regs <==> r in s.regs) && (r in s.regs ==> t.regs[r] == s.regs[r]))
  }

  /** The instruction does not name the scratch register. */
  predicate NoScratch(x: Unit) {
    match x
    case Rrr(_, r1, r2, r3, _) => r1 != T(0) && r2 != T(0) && r3 != T(0)
    case Rri(_, r1, r2, _) => r1 != T(0) && r2 != T(0)
    case Li(r1, _) => r1 != T(0)
    case Rr(_, r1, r2) => r1 != T(0) && r2 != T(0)
    case Br(_, r1, r2, _) => r1 != T(0) && r2 != T(0)
    case La(r1, _) => r1 != T(0)
    case _ => true
  }

  ghost predicate CodeOk(code: seq<Unit>) {
    forall x :: x in code ==> Plain(x) && NoScratch(x)
  }

  lemma ReadNear(s: State, t: State)
    requires Near(s, t)
    ensures t.mem == s.mem && t.trace == s.trace && t.status == s.status
    ensures forall r :: r != T(0) ==> Read(t, r) == Read(s, r)
  {
  }

  lemma WriteNear(s: State, t: State, r: Reg, v: Option<Word>)
    requires Near(s, t)
    ensures Near(Write(s, r, v), Write(t, r, v))
    ensures v.Some? ==> Write(s, r, v).pc == s.pc + 1 && Write(t, r, v).pc == t.pc + 1
    ensures v.None? ==> Write(s, r, v).status == Stuck
  {
  }

  lemma ScratchNear(s: State, t: State, v: Word, p: nat)
    requires Near(s, t)
    ensures Near(s, t.(regs := t.regs[T(0) := v], pc := p))
  {
  }

  lemma StoreNear(s: State, t: State, a: Option<Word>, v: Option<Word>)
    requires Near(s, t) && StoreWord(s, a, v).status != Stuck
    ensures Near(StoreWord(s, a, v), StoreWord(t, a, v))
    ensures StoreWord(s, a, v).pc == s.pc + 1 && StoreWord(t, a, v).pc == t.pc + 1
  {
  }

  // ----- calls -----

  lemma AbiNotScratch(i: nat)
    ensures AbiArgument(i) != T(0) && AbiArgument(i) != X0
  {
  }

  lemma ArgsNear(s: State, t: State, n: nat)
    requires Near(s, t)
    ensures ArgsReadable(s, n) <==> ArgsReadable(t, n)
    ensures ArgsReadable(s, n) ==> CallArgs(s, n) == CallArgs(t, n)
  {
    ReadNear(s, t);
    forall i | 0 <= i < n ensures Read(t, AbiArgument(i)) == Read(s, AbiArgument(i)) {
      AbiNotScratch(i);
    }
    hide Near, AbiArgument, Read;
  }

  lemma CallNear(c: Context, s: State, t: State, name: string)
    requires Near(s, t) && s.status == Running && ExecCall(c, s, name).status != Stuck
    ensures Near(ExecCall(c, s, name), ExecCall(c, t, name)) && ExecCall(c, s, name).status == Running
    ensures ExecCall(c, s, name).pc == s.pc + 1 && ExecCall(c, t, name).pc == t.pc + 1
  {
    ArgsNear(s, t, c.dash.arity(name));
    hide ArgsReadable, CallArgs, Data, Overwrite, AbiArgument, D.MemAfter, D.GlobalsView, D.ArraysView;
  }

  // ----- one instruction -----

  /** An instruction that stays as it is and does not jump. */
  lemma SameExec(code: seq<Unit>, flat: seq<Unit>, c: Context, x: Unit, s: State, t: State)
    requires NoScratch(x) && !x.J? && !x.Br? && Near(s, t) && s.status == Running && Exec(code, c, x, s).status != Stuck
    ensures var s', t' := Exec(code, c, x, s), Exec(flat, c, x, t);
            && Near(s', t') && (s'.status == Running ==> s'.pc == s.pc + 1 && t'.pc == t.pc + 1)
            && (s'.status != Running ==> s'.pc == s.pc && t'.pc == t.pc)
  {
    ReadNear(s, t);
    hide Near, Wrap, ApplyRRR, EvalRR, Read;
    match x {
      case Rrr(op, r1, r2, r3, imm) => WriteNear(s, t, r1, ApplyRRR(op, Read(s, r2), Third(s, r3, imm)));
      case Rri(op, r1, r2, imm) =>
        if op == Sw {
          StoreNear(s, t, Address(Read(s, r1), imm), Read(s, r2));
        } else {
          WriteNear(s, t, r1,
            if op == Addi then ApplyRRR(Add, Read(s, r2), Some(Wrap(imm)))
            else if op == Slti then ApplyRRR(Slt, Read(s, r2), Some(Wrap(imm)))
            else LoadWord(s, Address(Read(s, r2), imm)));
        }
      case Li(r1, imm) => WriteNear(s, t, r1, Some(Wrap(imm)));
      case Rr(op, r1, r2) =>
        WriteNear(s, t, r1, if Read(s, r2).Some? then Some(EvalRR(op, Read(s, r2).value)) else None);
      case Call(name) => CallNear(c, s, t, name);
      case La(r1, g) => WriteNear(s, t, r1, D.GlobalAddress(c.dash, g));
      case _ => NearPlain(s, t);
    }
  }

  lemma NearPlain(s: State, t: State)
    requires Near(s, t)
    ensures Near(Next(s), Next(t)) && forall st :: Near(Halt(s, st), Halt(t, st))
  {
  }

  /** The scratch register gets the immediate. */
  lemma LiStep(code: seq<Unit>, c: Context, s: State, t: State, imm: int)
    requires Near(s, t) && t.status == Running && t.pc < |code| && code[t.pc] == Li(T(0), imm)
    ensures var t' := Run(code, c, t, 1);
            && Near(s, t') && t'.pc == t.pc + 1 && t'.status == Running && Read(t', T(0)) == Some(Wrap(imm))
  {
    hide Wrap, Near;
    RunNone(code, c, t);
    OneMore(code, c, t, 0, Li(T(0), imm));
    ScratchNear(s, t, Wrap(imm), t.pc + 1);
  }

  /** A three-register instruction whose last operand came into the scratch register. */
  lemma ScratchOperand(code: seq<Unit>, c: Context, s: State, t: State, n: nat, op: RRR, r1: Reg, r2: Reg, i: int, v: Word)
    requires Near(s, Run(code, c, t, n)) && Run(code, c, t, n).status == Running && r2 != T(0)
    requires Read(Run(code, c, t, n), T(0)) == Some(v) && ApplyRRR(op, Read(s, r2), Some(v)).Some?
    requires Run(code, c, t, n).pc < |code| && code[Run(code, c, t, n).pc] == Rrr(op, r1, r2, T(0), i)
    ensures Near(Write(s, r1, ApplyRRR(op, Read(s, r2), Some(v))), Run(code, c, t, n + 1))
    ensures Run(code, c, t, n + 1).pc == Run(code, c, t, n).pc + 1
  {
    var t1 := Run(code, c, t, n);
    ReadNear(s, t1);
    OneMore(code, c, t, n, Rrr(op, r1, r2, T(0), i));
    hide Near, Run, Read, Write, ApplyRRR;
    WriteNear(s, t1, r1, ApplyRRR(op, Read(s, r2), Some(v)));
  }

  /** The address of a load or store comes into the scratch register. */
  lemma ScratchAddress(code: seq<Unit>, c: Context, s: State, t: State, base: Reg, imm: int)
    requires Near(s, t) && t.status == Running && Read(s, base).Some? && base != T(0)
    requires t.pc + 1 < |code| && code[t.pc] == Li(T(0), imm) && code[t.pc + 1] == Rrr(Add, T(0), base, T(0), 0)
    ensures var t' := Run(code, c, t, 2);
            && Near(s, t') && t'.pc == t.pc + 2 && t'.status == Running
            && Address(Read(t', T(0)), 0) == Address(Read(s, base), imm)
  {
    LiStep(code, c, s, t, imm);
    var t1 := Run(code, c, t, 1);
    ReadNear(s, t1);
    hide Run, Exec, Near, Wrap;
    OneMore(code, c, t, 1, Rrr(Add, T(0), base, T(0), 0));
    AddExec(code, c, t1, base, Wrap(imm));
    var x := Read(s, base).value;
    WrapAdd(imm, x);
    ScratchNear(s, t1, Wrap(x + imm), t1.pc + 1);
  }

  lemma AddExec(code: seq<Unit>, c: Context, t: State, base: Reg, v: Word)
    requires Read(t, base).Some? && Read(t, T(0)) == Some(v)
    ensures Exec(code, c, Rrr(Add, T(0), base, T(0), 0), t)
         == t.(regs := t.regs[T(0) := Wrap(Read(t, base).value + v)], pc := t.pc + 1)
  {
    hide Wrap;
  }

  /** What the instructions in place of `x` did. */
  ghost predicate Lowered(code: seq<Unit>, flat: seq<Unit>, c: Context, x: Unit, s: State, t: State) {
    var s', t' := Exec(code, c, x, s), Run(flat, c, t, |Lower(x)|);
    Near(s', t') && s'.pc == s.pc + 1 && t'.pc == t.pc + |Lower(x)|
  }

  lemma NotStuckParts(code: seq<Unit>, c: Context, x: Unit, s: State)
    requires (x.Rrr? || x.Rri?) && s.status == Running && Exec(code, c, x, s).status != Stuck
    ensures Exec(code, c, x, s).pc == s.pc + 1 && Exec(code, c, x, s).status == Running
    ensures x.Rrr? ==> ApplyRRR(x.rrr, Read(s, x.reg2), Third(s, x.reg3, x.imm)).Some?
    ensures x.Rri? && x.rri == Addi ==> ApplyRRR(Add, Read(s, x.reg2), Some(Wrap(x.imm))).Some?
    ensures x.Rri? && x.rri == Slti ==> ApplyRRR(Slt, Read(s, x.reg2), Some(Wrap(x.imm))).Some?
    ensures x.Rri? && x.rri == Lw ==> Read(s, x.reg2).Some? && LoadWord(s, Address(Read(s, x.reg2), x.imm)).Some?
    ensures x.Rri? && x.rri == Sw ==>
              && Read(s, x.reg1).Some? && Read(s, x.reg2).Some?
              && StoreWord(s, Address(Read(s, x.reg1), x.imm), Read(s, x.reg2)).status != Stuck
  {
    hide Wrap, EvalRRR;
  }

  /** An operand that does not fit an instruction, or an immediate form that does not hold it. */
  lemma TwoStepLowered(code: seq<Unit>, flat: seq<Unit>, c: Context, x: Unit, s: State, t: State, op: RRR, i: int)
    requires NoScratch(x) && Near(s, t) && s.status == Running && Exec(code, c, x, s).status != Stuck
    requires (x.Rrr? && x.reg3 == Imm && op == x.rrr)
          || (x.Rri? && ((x.rri == Addi && op == Add) || (x.rri == Slti && op == Slt)))
    requires Lower(x) == [Li(T(0), x.imm), Rrr(op, x.reg1, x.reg2, T(0), i)] && Sits(flat, t.pc, Lower(x))
    ensures Lowered(code, flat, c, x, s, t)
  {
    SitsUnit(flat, t.pc, Lower(x), 0);
    SitsUnit(flat, t.pc, Lower(x), 1);
    ReadNear(s, t);
    NotStuckParts(code, c, x, s);
    hide Lower, Near, Run, Read, Write, ApplyRRR, Sits, Wrap;
    LiStep(flat, c, s, t, x.imm);
    ScratchOperand(flat, c, s, t, 1, op, x.reg1, x.reg2, i, Wrap(x.imm));
  }

  lemma LastExec(code: seq<Unit>, flat: seq<Unit>, c: Context, x: Unit, s: State, t: State)
    requires x.Rri? && (x.rri == Lw || x.rri == Sw)
    ensures x.rri == Lw ==>
              && Exec(code, c, x, s) == Write(s, x.reg1, LoadWord(s, Address(Read(s, x.reg2), x.imm)))
              && Exec(flat, c, Rri(Lw, x.reg1, T(0), 0), t) == Write(t, x.reg1, LoadWord(t, Address(Read(t, T(0)), 0)))
    ensures x.rri == Sw ==>
              && Exec(code, c, x, s) == StoreWord(s, Address(Read(s, x.reg1), x.imm), Read(s, x.reg2))
              && Exec(flat, c, Rri(Sw, T(0), x.reg2, 0), t) == StoreWord(t, Address(Read(t, T(0)), 0), Read(t, x.reg2))
  {
    hide Write, StoreWord, LoadWord, Address, Read;
  }

  lemma LoweredIs(code: seq<Unit>, flat: seq<Unit>, c: Context, x: Unit, s: State, t: State)
    requires var s', t' := Exec(code, c, x, s), Run(flat, c, t, |Lower(x)|);
             Near(s', t') && s'.pc == s.pc + 1 && t'.pc == t.pc + |Lower(x)|
    ensures Lowered(code, flat, c, x, s, t)
  {
    hide Near, Lower, Exec, Run;
  }

  lemma NoScratchRri(x: Unit)
    requires NoScratch(x) && x.Rri?
    ensures x.reg1 != T(0) && x.reg2 != T(0)
  {
  }

  lemma LoadStoreLowered(code: seq<Unit>, flat: seq<Unit>, c: Context, x: Unit, s: State, t: State)
    requires NoScratch(x) && Near(s, t) && s.status == Running && Exec(code, c, x, s).status != Stuck
    requires x.Rri? && (x.rri == Lw || x.rri == Sw) && Sits(flat, t.pc, Lower(x))
    requires Lower(x) == if x.rri == Lw then
                           [Li(T(0), x.imm), Rrr(Add, T(0), x.reg2, T(0), 0), Rri(Lw, x.reg1, T(0), 0)]
                         else
                           [Li(T(0), x.imm), Rrr(Add, T(0), x.reg1, T(0), 0), Rri(Sw, T(0), x.reg2, 0)]
    ensures Lowered(code, flat, c, x, s, t)
  {
    hide *;
    SitsUnit(flat, t.pc, Lower(x), 0);
    SitsUnit(flat, t.pc, Lower(x), 1);
    SitsUnit(flat, t.pc, Lower(x), 2);
    ReadNear(s, t);
    NotStuckParts(code, c, x, s);
    NoScratchRri(x);
    var base := if x.rri == Lw then x.reg2 else x.reg1;
    ScratchAddress(flat, c, s, t, base, x.imm);
    var t2 := Run(flat, c, t, 2);
    ReadNear(s, t2);
    OneMore(flat, c, t, 2, Lower(x)[2]);
    LoadNear(s, t2, Address(Read(s, base), x.imm));
    LastExec(code, flat, c, x, s, t2);
    if x.rri == Lw {
      WriteNear(s, t2, x.reg1, LoadWord(s, Address(Read(s, base), x.imm)));
    } else {
      StoreNear(s, t2, Address(Read(s, base), x.imm), Read(s, x.reg2));
    }
    LoweredIs(code, flat, c, x, s, t);
  }

  lemma LoadNear(s: State, t: State, a: Option<Word>)
    requires Near(s, t)
    ensures LoadWord(s, a) == LoadWord(t, a)
  {
  }

  lemma OneStepLowered(code: seq<Unit>, flat: seq<Unit>, c: Context, x: Unit, y: Unit, s: State, t: State)
    requires NoScratch(y) && !y.J? && !y.Br? && !y.Ret? && Near(s, t) && s.status == Running && Exec(code, c, x, s).status != Stuck
    requires Exec(code, c, y, s) == Exec(code, c, x, s) && Lower(x) == [y] && Sits(flat, t.pc, Lower(x))
    ensures Lowered(code, flat, c, x, s, t)
  {
    hide *;
    SitsUnit(flat, t.pc, Lower(x), 0);
    ReadNear(s, t);
    RunNone(flat, c, t);
    OneMore(flat, c, t, 0, y);
    SameExec(code, flat, c, y, s, t);
    PlainRuns(code, c, y, s);
    LoweredIs(code, flat, c, x, s, t);
  }

  lemma PlainRuns(code: seq<Unit>, c: Context, x: Unit, s: State)
    requires !x.Ret? && s.status == Running && Exec(code, c, x, s).status != Stuck
    ensures Exec(code, c, x, s).status == Running
  {
    hide ApplyRRR, EvalRR, Wrap, EvalBranch, CallEvent, Overwrite, RegsAfter, ArgsReadable;
  }

  lemma OptExec(code: seq<Unit>, c: Context, x: Unit, s: State)
    ensures Exec(code, c, ImmOpt(x), s) == Exec(code, c, x, s)
    ensures NoScratch(x) ==> NoScratch(ImmOpt(x))
    ensures ImmOpt(x).J? == x.J? && ImmOpt(x).Br? == x.Br? && ImmOpt(x).Ret? == x.Ret?
  {
    hide Wrap, EvalRRR;
  }

  /** The instructions in place of `x` do what `x` does. */
  lemma LowerRuns(code: seq<Unit>, flat: seq<Unit>, c: Context, x: Unit, s: State, t: State)
    requires NoScratch(x) && !x.J? && !x.Br? && !x.Ret? && Near(s, t) && s.status == Running && Exec(code, c, x, s).status != Stuck
    requires Sits(flat, t.pc, Lower(x))
    ensures Lowered(code, flat, c, x, s, t)
  {
    hide Lower, Near, Exec, NoScratch, Lowered, Sits;
    LowerIs(x);
    OptExec(code, c, x, s);
    if x.Rri? && !IsInt12(x.imm) {
      if x.rri == Addi {
        TwoStepLowered(code, flat, c, x, s, t, Add, 0);
      } else if x.rri == Slti {
        TwoStepLowered(code, flat, c, x, s, t, Slt, 0);
      } else {
        LoadStoreLowered(code, flat, c, x, s, t);
      }
    } else if x.Rrr? && x.reg3 == Imm && !((x.rrr == Add || x.rrr == Slt) && IsInt12(x.imm)) {
      TwoStepLowered(code, flat, c, x, s, t, x.rrr, x.imm);
    } else {
      OneStepLowered(code, flat, c, x, ImmOpt(x), s, t);
    }
  }

  // ----- control -----

  ghost predicate Rel(code: seq<Unit>, s: State, t: State) {
    s.pc <= |code| && t.pc == Start(LowerAll(code), s.pc) && Near(s, t)
  }

  lemma LowerLabels(x: Unit, l: int)
    ensures x == Label(l) ==> Lower(x) == [Label(l)]
    ensures x != Label(l) ==> Label(l) !in Lower(x)
    ensures Lower(x) != [] && (x.J? || x.Br? || x.Ret? ==> Lower(x) == [x])
  {
    LowerIs(x);
    hide Lower;
  }

  lemma JumpPlace(code: seq<Unit>, l: int)
    ensures IndexOf(code, Label(l)).None? ==> IndexOf(Flatten(LowerAll(code)), Label(l)).None?
    ensures IndexOf(code, Label(l)).Some? ==>
              IndexOf(Flatten(LowerAll(code)), Label(l)) == Some(Start(LowerAll(code), IndexOf(code, Label(l)).value))
  {
    hide Start, IndexOf, Flatten, Lower;
    forall i | 0 <= i < |code|
      ensures code[i] == Label(l) ==> |LowerAll(code)[i]| > 0 && LowerAll(code)[i][0] == Label(l)
      ensures code[i] != Label(l) ==> Label(l) !in LowerAll(code)[i]
    {
      LowerLabels(code[i], l);
    }
    LabelImage(code, LowerAll(code), Label(l), Label(l));
  }

  lemma GotoRel(code: seq<Unit>, l: int, s: State, t: State)
    requires Near(s, t) && s.status == Running && Goto(code, s, l).status != Stuck
    ensures Rel(code, Goto(code, s, l), Goto(Flatten(LowerAll(code)), t, l))
  {
    JumpPlace(code, l);
    hide Start, Flatten, LowerAll;
  }

  /** Whether a jump jumps, if its operands can be read. */
  ghost function Taken(x: Unit, s: State): Option<bool>
    requires x.J? || x.Br?
  {
    if x.J? then Some(true)
    else if Read(s, x.reg1).None? || Read(s, x.reg2).None? then None
    else Some(EvalBranch(x.branch, Read(s, x.reg1).value, Read(s, x.reg2).value))
  }

  lemma JumpMeans(code: seq<Unit>, c: Context, x: Unit, s: State)
    requires x.J? || x.Br?
    ensures Exec(code, c, x, s)
         == match Taken(x, s)
            case None => Halt(s, Stuck)
            case Some(j) => if j then Goto(code, s, x.id) else Next(s)
  {
    hide EvalBranch, Goto, Halt, Next, Read;
  }

  lemma TakenNear(x: Unit, s: State, t: State)
    requires (x.J? || x.Br?) && NoScratch(x) && Near(s, t)
    ensures Taken(x, s) == Taken(x, t)
  {
    ReadNear(s, t);
    hide EvalBranch, Read, Near;
  }

  lemma NextRel(code: seq<Unit>, s: State, t: State)
    requires Rel(code, s, t) && s.pc < |code| && Start(LowerAll(code), s.pc + 1) == t.pc + 1
    ensures Rel(code, Next(s), Next(t)) && Halt(s, Stuck).status == Stuck
  {
    hide Start, LowerAll;
  }

  lemma JumpRuns(code: seq<Unit>, c: Context, x: Unit, s: State, t: State)
    requires (x.J? || x.Br?) && NoScratch(x) && Rel(code, s, t) && s.status == Running && s.pc < |code|
    requires Exec(code, c, x, s).status != Stuck && Start(LowerAll(code), s.pc + 1) == t.pc + 1
    ensures Rel(code, Exec(code, c, x, s), Exec(Flatten(LowerAll(code)), c, x, t))
  {
    hide *;
    RelMeans(code, s, t);
    JumpMeans(code, c, x, s);
    JumpMeans(Flatten(LowerAll(code)), c, x, t);
    TakenNear(x, s, t);
    NextRel(code, s, t);
    if Taken(x, s) == Some(true) {
      GotoRel(code, x.id, s, t);
    }
  }

  lemma LowerPlace(code: seq<Unit>, i: nat)
    requires i < |code|
    ensures Sits(Flatten(LowerAll(code)), Start(LowerAll(code), i), Lower(code[i]))
    ensures Start(LowerAll(code), i + 1) == Start(LowerAll(code), i) + |Lower(code[i])|
  {
    hide Start, Flatten, Lower;
    BlockAt(LowerAll(code), i);
  }

  lemma StepIs(code: seq<Unit>, c: Context, s: State)
    ensures s.status != Running ==> Step(code, c, s) == s
    ensures s.status == Running && s.pc < |code| ==> Step(code, c, s) == Exec(code, c, code[s.pc], s)
    ensures s.status == Running && s.pc >= |code| ==> Step(code, c, s).status == Stuck
  {
    hide Exec;
  }

  lemma RunIs(code: seq<Unit>, c: Context, s: State, n: nat)
    ensures n == 0 ==> Run(code, c, s, n) == s
    ensures n > 0 ==> Run(code, c, s, n) == Step(code, c, Run(code, c, s, n - 1))
  {
    hide Step;
  }

  lemma RelMeans(code: seq<Unit>, s: State, t: State)
    ensures Rel(code, s, t) <==> s.pc <= |code| && t.pc == Start(LowerAll(code), s.pc) && Near(s, t)
    ensures Near(s, t) ==> t.status == s.status
  {
    hide Start, LowerAll;
  }

  lemma CodeMeans(code: seq<Unit>, i: nat)
    requires CodeOk(code) && i < |code|
    ensures NoScratch(code[i])
  {
    assert code[i] in code;
  }

  lemma LoweredMeans(code: seq<Unit>, flat: seq<Unit>, c: Context, x: Unit, s: State, t: State)
    requires Lowered(code, flat, c, x, s, t)
    ensures var s', t' := Exec(code, c, x, s), Run(flat, c, t, |Lower(x)|);
            Near(s', t') && s'.pc == s.pc + 1 && t'.pc == t.pc + |Lower(x)|
  {
    hide Near, Lower, Exec, Run;
  }

  lemma RetRel(code: seq<Unit>, flat: seq<Unit>, c: Context, s: State, t: State)
    requires Near(s, t)
    ensures Near(Exec(code, c, Ret, s), Exec(flat, c, Ret, t))
    ensures Exec(code, c, Ret, s).pc == s.pc && Exec(flat, c, Ret, t).pc == t.pc
  {
  }

  lemma StepRel(code: seq<Unit>, c: Context, s: State, t: State) returns (k: nat)
    requires CodeOk(code) && Rel(code, s, t) && s.status == Running && Step(code, c, s).status != Stuck
    ensures k > 0 && Rel(code, Step(code, c, s), Run(Flatten(LowerAll(code)), c, t, k))
  {
    hide *;
    var flat := Flatten(LowerAll(code));
    StepIs(code, c, s);
    RelMeans(code, s, t);
    var x := code[s.pc];
    CodeMeans(code, s.pc);
    LowerPlace(code, s.pc);
    LowerLabels(x, 0);
    k := |Lower(x)|;
    if x.J? || x.Br? || x.Ret? {
      SitsUnit(flat, t.pc, Lower(x), 0);
      RunNone(flat, c, t);
      OneMore(flat, c, t, 0, x);
      if x.Ret? {
        RetRel(code, flat, c, s, t);
        RelMeans(code, Step(code, c, s), Run(flat, c, t, k));
      } else {
        JumpRuns(code, c, x, s, t);
      }
    } else {
      LowerRuns(code, flat, c, x, s, t);
      LoweredMeans(code, flat, c, x, s, t);
      RelMeans(code, Step(code, c, s), Run(flat, c, t, k));
    }
  }

  lemma Begin(code: seq<Unit>, s: State)
    requires s.pc == 0
    ensures Rel(code, s, s)
  {
  }

  /** Every run is followed by the legalised code, which ends it when the run ends. */
  lemma {:induction false} LegaliseRuns(code: seq<Unit>, c: Context, s: State, n: nat) returns (m: nat)
    requires CodeOk(code) && s.pc == 0 && Run(code, c, s, n).status != Stuck
    ensures Near(Run(code, c, s, n), Run(Legalise(code), c, s, m)) && Rel(code, Run(code, c, s, n), Run(Legalise(code), c, s, m))
    ensures Run(code, c, s, n).status == Running ==> m >= n
  {
    hide *;
    LegaliseEach(code);
    RunIs(code, c, s, n);
    m := 0;
    if n == 0 {
      Begin(code, s);
      RunIs(Legalise(code), c, s, 0);
    } else {
      NeverStuck(code, c, s, n - 1, n);
      m := LegaliseRuns(code, c, s, n - 1);
      var s' := Run(code, c, s, n - 1);
      StepIs(code, c, s');
      if s'.status == Running {
        var k := StepRel(code, c, s', Run(Legalise(code), c, s, m));
        RunAdd(Legalise(code), c, s, m, k);
        m := m + k;
      }
    }
    RelMeans(code, Run(code, c, s, n), Run(Legalise(code), c, s, m));
  }
}
