/** What the register code satisfies before and after the peephole passes: registers that exist, no
    write to the zero register, no use of the scratch register, labels defined once. */
module BackendStatic {
  import opened Words
  import opened Wrappers
  import opened Primitive
  import opened Layout
  import opened Dashie
  import P = Pinkie
  import E = Embedding
  import opened Backend
  import BC = BackendCorrect
  import opened Peephole
  import PC = PeepholeCorrect
  import R = RiscvOutput
  import CC = ConvertCorrect

  /** A unit that instruction selection can handle. */
  predicate Fine(u: Unit) {
    R.Encodable(u) && CC.UnitPlain(u)
  }

  predicate AllFine(code: seq<Unit>) {
    forall u :: u in code ==> Fine(u)
  }

  lemma FinePlain(code: seq<Unit>)
    requires AllFine(code)
    ensures CC.CodePlain(code) && PC.ZeroFree(code)
  {
    forall u | u in code ensures R.Encodable(u) && CC.UnitPlain(u) {
      assert Fine(u);
    }
    hide R.Encodable;
  }

  // ----- generated units -----

  predicate GoodReg(r: Reg) {
    R.RegOk(r) && r != Temp(0)
  }

  lemma PoolGood(env: Env, cnt: nat)
    requires BC.EnvOk(env) && cnt < |env.pool|
    ensures GoodReg(RegAt(env, cnt)) && RegAt(env, cnt) != Zero
  {
  }

  lemma AbiGood(i: nat)
    requires i < 12
    ensures GoodReg(AbiArgument(i)) && AbiArgument(i) != Zero
  {
  }

  lemma LoadFine(env: Env, r: Reg, o: Operand)
    requires Known(env, o) && GoodReg(r) && r != Zero
    ensures Fine(LoadUnit(env, r, o))
  {
    hide Known;
  }

  lemma StoreFine(env: Env, t: Reg, r: Reg, o: Operand)
    requires Storable(env, o) && GoodReg(r) && GoodReg(t) && t != Zero
    ensures AllFine(StoreUnits(env, t, r, o))
  {
    hide Storable;
  }

  /** The operators that instruction selection knows. */
  ghost predicate OperatorsOk(u: P.Unit) {
    (u.Binary? ==> R.BinaryCode(u.bop).Some?) && (u.JumpIf? ==> R.BranchCode(u.bop).Some?)
  }

  lemma PoolThree(env: Env, cnt: nat)
    requires BC.EnvOk(env) && cnt < |env.pool|
    ensures var a, b, t := BC.Tmp0(env, cnt), BC.Tmp1(env, cnt), BC.Tmp2(env, cnt);
            && GoodReg(a) && GoodReg(b) && GoodReg(t) && a != Zero && b != Zero && t != Zero
  {
    BC.PoolRegs(env, cnt);
    PoolGood(env, Next1(env, cnt));
    PoolGood(env, Next2(env, cnt));
    PoolGood(env, Next3(env, cnt));
    hide BC.EnvOk, GoodReg;
  }

  lemma RegUnitsFine(op: BinaryOp, uop: UnaryOp, a: Reg, b: Reg, w: Word, l: int, name: string)
    requires GoodReg(a) && GoodReg(b) && a != Zero
    ensures R.BinaryCode(op).Some? ==> Fine(Rbr(op, a, a, b)) && Fine(Rbi(op, a, a, w))
    ensures R.BranchCode(op).Some? ==> Fine(Jc(op, l, a, Zero))
    ensures Fine(Ur(uop, a, a)) && Fine(Ar(a, b, w)) && Fine(Aw(a, w, b))
    ensures Fine(Jmp(l)) && Fine(Label(l)) && Fine(Call(name)) && Fine(Ret)
    ensures Fine(Rbr(Plus, a, a, b))
  {
  }

  lemma AllOf(a: seq<Unit>, b: seq<Unit>)
    requires AllFine(a) && AllFine(b)
    ensures AllFine(a + b)
  {
  }

  lemma ScalarFine(env: Env, cnt: nat, paramC: nat, u: P.Unit)
    requires BC.EnvOk(env) && cnt < |env.pool| && UnitOk(env, paramC, u) && OperatorsOk(u)
    requires u.Unary? || u.Copy? || u.Binary?
    ensures AllFine(UnitCode(env, cnt, paramC, u))
  {
    hide *;
    var a, b, t := BC.Tmp0(env, cnt), BC.Tmp1(env, cnt), BC.Tmp2(env, cnt);
    PoolThree(env, cnt);
    BC.ScalarCode(env, cnt, paramC, u);
    OperatorsMean(u);
    StoreFine(env, t, a, u.dst);
    var head;
    if u.Binary? {
      LoadFine(env, a, u.src1);
      RegUnitsFine(u.bop, UPlus, a, b, if u.src2.Lit? then u.src2.word else 0, 0, "");
      if u.src2.Lit? {
        head := [LoadUnit(env, a, u.src1), Rbi(u.bop, a, a, u.src2.word)];
      } else {
        LoadFine(env, b, u.src2);
        head := [LoadUnit(env, a, u.src1), LoadUnit(env, b, u.src2), Rbr(u.bop, a, a, b)];
      }
    } else {
      LoadFine(env, a, u.src);
      if u.Unary? {
        RegUnitsFine(Plus, u.uop, a, b, 0, 0, "");
        head := [LoadUnit(env, a, u.src), Ur(u.uop, a, a)];
      } else {
        head := [LoadUnit(env, a, u.src)];
      }
    }
    AllIs(head);
    AllOf(head, StoreUnits(env, t, a, u.dst));
  }

  lemma AllIs(code: seq<Unit>)
    requires forall i :: 0 <= i < |code| ==> Fine(code[i])
    ensures AllFine(code)
  {
    hide Fine;
  }

  lemma OperatorsMean(u: P.Unit)
    requires OperatorsOk(u)
    ensures (u.Binary? ==> R.BinaryCode(u.bop).Some?) && (u.JumpIf? ==> R.BranchCode(u.bop).Some?)
  {
  }

  lemma ArrayFine(env: Env, cnt: nat, paramC: nat, u: P.Unit)
    requires BC.EnvOk(env) && cnt < |env.pool| && UnitOk(env, paramC, u) && (u.ArrayRead? || u.ArrayWrite?)
    ensures AllFine(UnitCode(env, cnt, paramC, u))
  {
    hide *;
    var a, b, t := BC.Tmp0(env, cnt), BC.Tmp1(env, cnt), BC.Tmp2(env, cnt);
    PoolThree(env, cnt);
    var w: Word := if u.incr.Lit? then u.incr.word else 0;
    RegUnitsFine(Plus, UPlus, a, b, w, 0, "");
    RegUnitsFine(Plus, UPlus, b, a, w, 0, "");
    if u.ArrayRead? {
      BC.ReadCode(env, cnt, paramC, u);
      StoreFine(env, t, a, u.dst);
      LoadFine(env, b, u.base);
      LoadFine(env, a, u.incr);
      var head :=
        if u.incr.Lit? then [LoadUnit(env, b, u.base), Ar(a, b, u.incr.word)]
        else [LoadUnit(env, b, u.base), LoadUnit(env, a, u.incr), Rbr(Plus, b, b, a), Ar(a, b, 0)];
      AllIs(head);
      AllOf(head, StoreUnits(env, t, a, u.dst));
    } else {
      BC.WriteCode(env, cnt, paramC, u);
      LoadFine(env, a, u.base);
      LoadFine(env, b, u.incr);
      LoadFine(env, b, u.src);
      AllIs(UnitCode(env, cnt, paramC, u));
    }
  }

  lemma CallFine(env: Env, cnt: nat, paramC: nat, u: P.Unit)
    requires BC.EnvOk(env) && cnt < |env.pool| && UnitOk(env, paramC, u) && (u.CallI? || u.CallV?)
    ensures AllFine(UnitCode(env, cnt, paramC, u))
  {
    hide *;
    CallIs(u);
    PoolThree(env, cnt);
    AbiGood(0);
    BC.AbiZero();
    BC.CallCode(env, cnt, paramC, u);
    RegUnitsFine(Plus, UPlus, Arg(0), Arg(0), 0, 0, u.name);
    AllIs([Call(u.name)]);
    if u.CallI? {
      StoreFine(env, BC.Tmp2(env, cnt), Arg(0), u.dst);
      AllOf([Call(u.name)], StoreUnits(env, BC.Tmp2(env, cnt), Arg(0), u.dst));
    }
  }

  lemma CallIs(u: P.Unit)
    requires u.CallI? || u.CallV?
    ensures P.IsCall(u)
  {
  }

  lemma ControlFine(env: Env, cnt: nat, paramC: nat, u: P.Unit)
    requires BC.EnvOk(env) && cnt < |env.pool| && UnitOk(env, paramC, u) && OperatorsOk(u)
    requires u.Label? || u.Jump? || u.JumpIf? || u.Arg? || u.RetI? || u.RetV?
    ensures AllFine(UnitCode(env, cnt, paramC, u))
  {
    hide *;
    var a := BC.Tmp0(env, cnt);
    PoolThree(env, cnt);
    BC.ControlCode(env, cnt, paramC, u);
    OperatorsMean(u);
    AbiGood(0);
    BC.AbiZero();
    var l := if u.Label? || u.Jump? || u.JumpIf? then u.id else env.epilogue;
    RegUnitsFine(if u.JumpIf? then u.bop else Plus, UPlus, a, a, 0, l, "");
    if u.JumpIf? {
      LoadFine(env, a, u.src1);
    } else if u.Arg? {
      AbiGood(paramC);
      LoadFine(env, AbiArgument(paramC), u.val);
    } else if u.RetI? {
      LoadFine(env, Arg(0), u.val);
    }
    AllIs(UnitCode(env, cnt, paramC, u));
  }

  lemma UnitFine(env: Env, cnt: nat, paramC: nat, u: P.Unit)
    requires BC.EnvOk(env) && cnt < |env.pool| && UnitOk(env, paramC, u) && OperatorsOk(u)
    ensures AllFine(UnitCode(env, cnt, paramC, u))
  {
    hide *;
    if u.Unary? || u.Copy? || u.Binary? {
      ScalarFine(env, cnt, paramC, u);
    } else if u.ArrayRead? || u.ArrayWrite? {
      ArrayFine(env, cnt, paramC, u);
    } else if u.CallI? || u.CallV? {
      CallFine(env, cnt, paramC, u);
    } else {
      NoNop(env, paramC, u);
      ControlFine(env, cnt, paramC, u);
    }
  }

  lemma NoNop(env: Env, paramC: nat, u: P.Unit)
    requires UnitOk(env, paramC, u)
    ensures !u.Nop?
  {
  }

  // ----- generated functions -----

  lemma FrameFine(env: Env, arity: nat)
    requires BC.EnvOk(env) && ParamsKnown(env, arity) && arity <= 12
    ensures AllFine(Prologue(env, arity)) && AllFine(Epilogue(env))
  {
    forall i | 0 <= i < arity ensures Fine(SaveParams(env, arity)[i]) {
      AbiGood(i);
    }
    SaveRestoreFine(env);
    hide Fine, AbiArgument;
    assert AllFine(SaveParams(env, arity));
  }

  lemma SaveRestoreFine(env: Env)
    requires env.nSaved <= 12
    ensures AllFine(SaveRegs(env.nSaved)) && AllFine(Epilogue(env))
  {
  }

  lemma CodeFine(env: Env, arity: nat, code: seq<P.Unit>)
    requires BC.FuncReady(env, arity, code) && arity <= 12 && (forall u :: u in code ==> OperatorsOk(u))
    ensures ParamsKnown(env, arity) && CodeOk(env, code) && AllFine(FunctionCode(env, arity, code))
  {
    hide *;
    BC.ReadyFunc(env, arity, code);
    var blocks := BodyBlocks(env, code);
    FrameFine(env, arity);
    forall i | 0 <= i < |code| ensures AllFine(blocks[i]) {
      BC.CntInPool(env, code, i);
      OkAt(env, code, i);
      UnitFine(env, CntAt(env, code, i), ParamAt(code, i), code[i]);
    }
    AllFlat(blocks);
    AllOf(Prologue(env, arity), Flatten(blocks));
    AllOf(Prologue(env, arity) + Flatten(blocks), Epilogue(env));
    BC.FunctionCodeIs(env, arity, code);
  }

  lemma OkAt(env: Env, code: seq<P.Unit>, i: nat)
    requires CodeOk(env, code) && i < |code|
    ensures UnitOk(env, ParamAt(code, i), code[i]) && code[i] in code
  {
    hide UnitOk, ParamAt;
  }

  lemma {:induction false} AllFlat(blocks: seq<seq<Unit>>)
    requires forall i :: 0 <= i < |blocks| ==> AllFine(blocks[i])
    ensures AllFine(Flatten(blocks))
  {
    hide AllFine;
    if blocks != [] {
      AllFlat(blocks[..|blocks| - 1]);
      AllOf(Flatten(blocks[..|blocks| - 1]), blocks[|blocks| - 1]);
    } else {
      NoneFine();
    }
  }

  lemma NoneFine()
    ensures AllFine([])
  {
  }

  /** Where a label of the generated code comes from. */
  lemma LabelOrigin(env: Env, arity: nat, code: seq<P.Unit>, q: nat, l: int) returns (i: nat)
    requires ParamsKnown(env, arity) && CodeOk(env, code)
    requires q < |FunctionCode(env, arity, code)| && FunctionCode(env, arity, code)[q] == Label(l)
    ensures i <= |code| && q == BC.PcOf(env, arity, code, i)
    ensures i < |code| ==> code[i] == P.Label(l)
    ensures i == |code| ==> l == env.epilogue
  {
    hide *;
    var blocks, n := BodyBlocks(env, code), |Prologue(env, arity)|;
    BC.FunctionCodeIs(env, arity, code);
    PcIs(env, arity, code);
    BC.PrologueHasNoLabels(env, arity, l);
    if q < n + |Flatten(blocks)| {
      var j: nat;
      i, j := Locate(blocks, q - n);
      OkAt(env, code, i);
      BC.UnitLabels(env, CntAt(env, code, i), ParamAt(code, i), code[i], l);
      assert Label(l) in blocks[i];
    } else {
      i := |code|;
      StartLast(blocks);
      EpilogueLabels(env, q - n - |Flatten(blocks)|);
    }
  }

  lemma PcIs(env: Env, arity: nat, code: seq<P.Unit>)
    requires ParamsKnown(env, arity) && CodeOk(env, code)
    ensures forall i :: 0 <= i <= |code| ==> BC.PcOf(env, arity, code, i) == |Prologue(env, arity)| + Start(BodyBlocks(env, code), i)
  {
    hide ParamsKnown, CodeOk, Prologue, Start;
  }

  lemma EpilogueLabels(env: Env, k: nat)
    requires k < |Epilogue(env)| && Epilogue(env)[k].Label?
    ensures k == 0 && Epilogue(env)[k].id == env.epilogue
  {
  }

  lemma FunctionLabels(env: Env, arity: nat, code: seq<P.Unit>)
    requires BC.FuncReady(env, arity, code) && E.DistinctLabels(code)
    ensures ParamsKnown(env, arity) && CodeOk(env, code) && PC.DistinctLabels(FunctionCode(env, arity, code))
  {
    BC.ReadyFunc(env, arity, code);
    hide FunctionCode, BC.FuncReady, ParamsKnown, CodeOk, BC.PcOf;
    var flat := FunctionCode(env, arity, code);
    forall p, q | 0 <= p < q < |flat| && flat[p].Label? ensures flat[p] != flat[q] {
      var i := LabelOrigin(env, arity, code, p, flat[p].id);
      if flat[q].Label? {
        var j := LabelOrigin(env, arity, code, q, flat[q].id);
        if i < |code| {
          E.LabelFound(code, i, flat[p].id);
        }
        if j < |code| {
          E.LabelFound(code, j, flat[q].id);
        }
      }
    }
  }

  // ----- the peephole passes -----

  ghost predicate GoodAlias(a: map<Reg, int>) {
    forall r :: r in a ==> GoodReg(r)
  }

  lemma TrackGood(k: Kind, a: map<Reg, int>, u: Unit)
    requires GoodAlias(a) && Fine(u)
    ensures GoodAlias(Track(k, a, u)) && GoodAlias(TrackSlot(a, u))
  {
  }

  lemma {:induction false} AliasGood(pass: Pass, code: seq<Unit>, i: nat)
    requires AllFine(code) && i <= |code|
    ensures GoodAlias(AliasAt(pass, code, i))
  {
    hide Fine, Track, TrackSlot, GoodReg;
    if i > 0 {
      AliasGood(pass, code, i - 1);
      assert code[i - 1] in code;
      match pass {
        case Alias(k) => TrackGood(k, AliasAt(pass, code, i - 1), code[i - 1]);
        case Slot => TrackGood(GloPtr, AliasAt(pass, code, i - 1), code[i - 1]);
        case _ =>
      }
    }
  }

  lemma CopyFine(u: Unit, r: Reg)
    requires Fine(u) && u.Rstk? && GoodReg(r)
    ensures Fine(Cr(u.dst, r))
  {
  }

  lemma BlockFine(pass: Pass, code: seq<Unit>, i: nat)
    requires AllFine(code) && i < |code|
    ensures AllFine(Block(pass, code, i))
  {
    PC.BlockShape(pass, code, i);
    AliasGood(pass, code, i);
    assert code[i] in code;
    hide Block, FirstAlias, AliasAt, Fine, GoodReg;
    var a := AliasAt(pass, code, i);
    if Block(pass, code, i) != [] && Block(pass, code, i) != [code[i]] {
      PC.FirstAliasMeans(a, code[i].offset);
      CopyFine(code[i], FirstAlias(a, code[i].offset).value);
    }
  }

  lemma RewriteFine(pass: Pass, code: seq<Unit>)
    requires AllFine(code)
    ensures AllFine(Rewrite(pass, code))
  {
    hide AllFine, Block;
    forall i | 0 <= i < |code| ensures AllFine(Blocks(pass, code)[i]) {
      BlockFine(pass, code, i);
    }
    AllFlat(Blocks(pass, code));
  }

  /** The peephole passes keep all registers in range and never name the scratch register. */
  lemma OptimizedFine(code: seq<Unit>)
    requires AllFine(code)
    ensures AllFine(Optimized(code))
  {
    hide AllFine, Rewrite, UsedStack;
    RewriteFine(Alias(GloPtr), code);
    var c1 := Rewrite(Alias(GloPtr), code);
    RewriteFine(Alias(Imm), c1);
    var c2 := Rewrite(Alias(Imm), c1);
    RewriteFine(Alias(StkPtr), c2);
    var c3 := Rewrite(Alias(StkPtr), c2);
    RewriteFine(Slot, c3);
    var c4 := Rewrite(Slot, c3);
    RewriteFine(Unused(UsedStack(c4)), c4);
    RewriteFine(Threading, Rewrite(Unused(UsedStack(c4)), c4));
  }
}
