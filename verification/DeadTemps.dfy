/** Removal of writes to temporaries that nothing reads, and of the no-ops that folding leaves. */
module DeadTemps {
  import opened Words
  import opened Wrappers
  import opened Primitive
  import opened Layout
  import opened Pinkie

  // ----- the pass -----

  function TempIds(ops: seq<Operand>): set<int> {
    set o | o in ops && o.Temp? :: o.id
  }

  /** The temporaries some unit reads, counting array bases and call results as read. */
  function UsedTemps(code: seq<Unit>): set<int> {
    if code == [] then {} else UsedTemps(code[..|code| - 1]) + TempIds(HrOps(code[|code| - 1]))
  }

  predicate Dropped(used: set<int>, u: Unit) {
    (!u.CallI? && !u.ArrayWrite? && |WOps(u)| > 0 && WOps(u)[0].Temp? && WOps(u)[0].id !in used) || u.Nop?
  }

  /** What becomes of each unit: itself or nothing. */
  function Kept(used: set<int>, code: seq<Unit>): (r: seq<seq<Unit>>)
    ensures |r| == |code|
    ensures forall i :: 0 <= i < |r| ==> r[i] == if Dropped(used, code[i]) then [] else [code[i]]
  {
    seq(|code|, i requires 0 <= i < |code| => if Dropped(used, code[i]) then [] else [code[i]])
  }

  function Blocks(code: seq<Unit>): seq<seq<Unit>> {
    Kept(UsedTemps(code), code)
  }

  function RemoveUnused(code: seq<Unit>): seq<Unit> {
    Flatten(Blocks(code))
  }

  method RemoveUnusedCode(code: seq<Unit>) returns (r: seq<Unit>)
    ensures r == RemoveUnused(code)
  {
    var used: set<int> := {};
    for i := 0 to |code|
      invariant used == UsedTemps(code[..i])
    {
      assert code[..i + 1][..i] == code[..i];
      for k := 0 to |HrOps(code[i])|
        invariant used == UsedTemps(code[..i]) + TempIds(HrOps(code[i])[..k])
      {
        var op := HrOps(code[i])[k];
        assert HrOps(code[i])[..k + 1] == HrOps(code[i])[..k] + [op];
        if op.Temp? {
          used := used + {op.id};
        }
      }
      assert HrOps(code[i])[..|HrOps(code[i])|] == HrOps(code[i]);
    }
    assert code[..|code|] == code;
    r := [];
    for i := 0 to |code|
      invariant r == Flatten(Kept(used, code)[..i])
    {
      assert Kept(used, code)[..i + 1][..i] == Kept(used, code)[..i];
      if Dropped(used, code[i]) {
        continue;
      }
      r := r + [code[i]];
    }
    assert Kept(used, code)[..|code|] == Kept(used, code);
  }

  function RemoveFuncs(funcs: seq<Func>): (r: seq<Func>)
    ensures |r| == |funcs|
    ensures forall i :: 0 <= i < |r| ==> r[i] == funcs[i].(code := RemoveUnused(funcs[i].code))
  {
    seq(|funcs|, i requires 0 <= i < |funcs| => funcs[i].(code := RemoveUnused(funcs[i].code)))
  }

  method UnusedTempRemove(prog: Prog) returns (r: Prog)
    ensures r == prog.(funcs := RemoveFuncs(prog.funcs))
  {
    var funcs := prog.funcs;
    for i := 0 to |funcs|
      invariant |funcs| == |prog.funcs|
      invariant forall k :: 0 <= k < |funcs| ==> funcs[k] == if k < i then RemoveFuncs(prog.funcs)[k] else prog.funcs[k]
    {
      var newCode := RemoveUnusedCode(funcs[i].code);
      funcs := funcs[i := funcs[i].(code := newCode)];
    }
    assert funcs == RemoveFuncs(prog.funcs);
    r := prog.(funcs := funcs);
  }

  // ----- its correctness -----

  ghost predicate Dead(code: seq<Unit>, o: Operand) {
    o.Temp? && o.id !in UsedTemps(code)
  }

  ghost function Live(code: seq<Unit>, env: map<Operand, Word>): map<Operand, Word> {
    map o | o in env && !Dead(code, o) :: env[o]
  }

  /** The state of the shortened code that stands for `s`. */
  ghost function Image(code: seq<Unit>, s: State): State
    requires s.pc <= |code|
  {
    s.(pc := Start(Blocks(code), s.pc), env := Live(code, s.env))
  }

  lemma {:induction false} ReadIsUsed(code: seq<Unit>, i: nat, o: Operand)
    requires i < |code| && o in HrOps(code[i])
    ensures !Dead(code, o)
  {
    if i < |code| - 1 {
      ReadIsUsed(code[..|code| - 1], i, o);
    }
  }

  /** Units keep their labels, so jumps go to the images of their targets. */
  lemma LabelsMove(code: seq<Unit>, l: int)
    ensures IndexOf(code, Label(l)).None? ==> IndexOf(RemoveUnused(code), Label(l)).None?
    ensures IndexOf(code, Label(l)).Some? ==>
              IndexOf(RemoveUnused(code), Label(l)) == Some(Start(Blocks(code), IndexOf(code, Label(l)).value))
  {
    LabelImage(code, Blocks(code), Label(l), Label(l));
  }

  lemma LiveValue(code: seq<Unit>, c: Context, env: map<Operand, Word>, o: Operand)
    requires !Dead(code, o)
    ensures Value(c, Live(code, env), o) == Value(c, env, o)
  {
  }

  lemma LiveGlobals(code: seq<Unit>, c: Context, env: map<Operand, Word>)
    requires ContextOk(c)
    ensures Restrict(Live(code, env), c.globals) == Restrict(env, c.globals)
    ensures forall g :: Overlay(Live(code, env), Restrict(g, c.globals)) == Live(code, Overlay(env, Restrict(g, c.globals)))
  {
  }

  lemma LiveUpdate(code: seq<Unit>, env: map<Operand, Word>, o: Operand, v: Word)
    ensures !Dead(code, o) ==> Live(code, env[o := v]) == Live(code, env)[o := v]
    ensures Dead(code, o) ==> Live(code, env[o := v]) == Live(code, env)
  {
  }

  lemma DroppedExec(code: seq<Unit>, c: Context, u: Unit, s: State)
    requires Dropped(UsedTemps(code), u) && Exec(code, c, u, s).status != Stuck
    ensures var t := Exec(code, c, u, s);
            if u.Nop? then t == Next(s)
            else u.dst in t.env && Dead(code, u.dst) && t == Next(s.(env := s.env[u.dst := t.env[u.dst]]))
  {
    hide EvalUnary, EvalBinary, Wrap, UsedTemps;
  }

  /** A dropped unit only moves control on, as far as its image shows. */
  lemma DroppedStep(code: seq<Unit>, c: Context, s: State)
    requires s.status == Running && s.pc < |code| && Dropped(UsedTemps(code), code[s.pc])
    requires Step(code, c, s).status != Stuck
    ensures Step(code, c, s).pc == s.pc + 1
    ensures Image(code, Step(code, c, s)) == Image(code, s)
  {
    hide UsedTemps, Start, Flatten, Live, Exec;
    StartNext(Blocks(code), s.pc);
    hide Blocks;
    var u := code[s.pc];
    DroppedExec(code, c, u, s);
    if !u.Nop? {
      LiveUpdate(code, s.env, u.dst, Exec(code, c, u, s).env[u.dst]);
    }
  }

  /** Operands that a unit reads keep their values. */
  lemma ReadsKept(code: seq<Unit>, c: Context, env: map<Operand, Word>, i: nat)
    requires i < |code|
    ensures forall o :: o in HrOps(code[i]) ==> Value(c, Live(code, env), o) == Value(c, env, o) && !Dead(code, o)
  {
    forall o | o in HrOps(code[i]) ensures Value(c, Live(code, env), o) == Value(c, env, o) && !Dead(code, o) {
      ReadIsUsed(code, i, o);
      LiveValue(code, c, env, o);
    }
  }

  lemma ImageAssign(code: seq<Unit>, c: Context, s: State, dst: Operand, v: Option<Word>)
    requires s.pc < |code| && !Dropped(UsedTemps(code), code[s.pc]) && !Dead(code, dst)
    requires Assign(c, s, dst, v).status != Stuck
    ensures Assign(c, Image(code, s), dst, v) == Image(code, Assign(c, s, dst, v))
  {
    hide UsedTemps, Start, Flatten, Live, Dropped;
    StartNext(Blocks(code), s.pc);
    LiveUpdate(code, s.env, dst, v.value);
  }

  lemma ImageGoto(code: seq<Unit>, s: State, l: int)
    requires s.pc < |code| && Goto(code, s, l).status != Stuck
    ensures Goto(code, s, l).pc <= |code|
    ensures Goto(RemoveUnused(code), Image(code, s), l) == Image(code, Goto(code, s, l))
  {
    hide Start, Live, RemoveUnused, Blocks;
    LabelsMove(code, l);
  }

  lemma KeptAssign(code: seq<Unit>, c: Context, u: Unit, s: State)
    requires s.status == Running && s.pc < |code| && u == code[s.pc]
    requires !Dropped(UsedTemps(code), u) && (u.Unary? || u.Binary? || u.Copy? || u.ArrayRead?)
    requires Exec(code, c, u, s).status != Stuck
    ensures Exec(RemoveUnused(code), c, u, Image(code, s)) == Image(code, Exec(code, c, u, s))
  {
    hide EvalUnary, EvalBinary, Wrap, UsedTemps, Start, Flatten, Live, RemoveUnused, Assign, IndexOf, Value, Blocks;
    ReadsKept(code, c, s.env, s.pc);
    match u
    case Unary(op, dst, src) =>
      assert src in HrOps(u);
      ImageAssign(code, c, s, dst, ApplyUnary(op, Value(c, s.env, src)));
    case Copy(dst, src) =>
      assert src in HrOps(u);
      ImageAssign(code, c, s, dst, Value(c, s.env, src));
    case Binary(op, dst, src1, src2) =>
      assert src1 in HrOps(u) && src2 in HrOps(u);
      ImageAssign(code, c, s, dst, ApplyBinary(op, Value(c, s.env, src1), Value(c, s.env, src2)));
    case ArrayRead(dst, base, incr) =>
      assert base in HrOps(u) && incr in HrOps(u);
      ImageAssign(code, c, s, dst, Load(s.mem, Address(Value(c, s.env, base), Value(c, s.env, incr))));
  }

  lemma KeptCall(code: seq<Unit>, c: Context, u: Unit, s: State)
    requires ContextOk(c) && s.status == Running && s.pc < |code| && u == code[s.pc] && (u.CallI? || u.CallV?)
    requires Exec(code, c, u, s).status != Stuck
    ensures Exec(RemoveUnused(code), c, u, Image(code, s)) == Image(code, Exec(code, c, u, s))
  {
    hide UsedTemps, Start, Flatten, Live, RemoveUnused, Restrict, Overlay;
    assert Blocks(code)[s.pc] == [u];
    StartNext(Blocks(code), s.pc);
    hide Blocks;
    LiveGlobals(code, c, s.env);
    ReadsKept(code, c, s.env, s.pc);
    if u.CallI? {
      assert u.dst in HrOps(u);
      ImageAssign(code, c, AfterCall(c, s, u.name), u.dst, Some(CallValue(c, s, u.name)));
    }
  }

  lemma KeptOther(code: seq<Unit>, c: Context, u: Unit, s: State)
    requires s.status == Running && s.pc < |code| && u == code[s.pc]
    requires u.ArrayWrite? || u.Label? || u.Jump? || u.JumpIf? || u.Arg? || u.RetI? || u.RetV?
    requires JumpsCompareLiterals(code)
    requires Exec(code, c, u, s).status != Stuck
    ensures Exec(code, c, u, s).pc <= |code|
    ensures Exec(RemoveUnused(code), c, u, Image(code, s)) == Image(code, Exec(code, c, u, s))
  {
    hide EvalUnary, EvalBinary, Wrap, UsedTemps, Start, Flatten, Live, RemoveUnused, Goto, Value, IndexOf;
    assert Blocks(code)[s.pc] == [u];
    StartNext(Blocks(code), s.pc);
    hide Blocks;
    ReadsKept(code, c, s.env, s.pc);
    match u
    case JumpIf(op, l, src1, src2) =>
      assert src1 in HrOps(u);
      LiteralValue(code, c, s.env, src2);
      if ApplyBinary(op, Value(c, s.env, src1), Value(c, s.env, src2)).value != 0 {
        ImageGoto(code, s, l);
      }
    case Jump(l) => ImageGoto(code, s, l);
    case ArrayWrite(base, src, incr) =>
      assert base in HrOps(u) && incr in HrOps(u) && src in HrOps(u);
    case Arg(val) => assert val in HrOps(u);
    case RetI(val) => assert val in HrOps(u);
    case _ =>
  }

  lemma LiteralValue(code: seq<Unit>, c: Context, env: map<Operand, Word>, o: Operand)
    requires o.Lit?
    ensures Value(c, Live(code, env), o) == Value(c, env, o)
  {
  }

  lemma AssignMovesOn(code: seq<Unit>, c: Context, u: Unit, s: State)
    requires u.Unary? || u.Binary? || u.Copy? || u.ArrayRead? || u.CallI? || u.CallV?
    requires Exec(code, c, u, s).status != Stuck
    ensures Exec(code, c, u, s).pc == s.pc + 1
  {
    hide EvalUnary, EvalBinary, Wrap, Restrict, Overlay;
  }

  lemma EntryImage(code: seq<Unit>, s: State)
    requires Entry(s)
    ensures Image(code, s) == s
  {
    assert Live(code, s.env) == s.env;
  }

  /** One step of the original is one step of the shortened code, or none. */
  lemma ImageStep(code: seq<Unit>, c: Context, s: State) returns (k: nat)
    requires ContextOk(c) && JumpsCompareLiterals(code) && s.pc <= |code|
    requires Step(code, c, s).status != Stuck
    ensures k <= 1 && Step(code, c, s).pc <= |code|
    ensures k == 0 ==> Image(code, Step(code, c, s)) == Image(code, s) && Step(code, c, s).pc > s.pc
    ensures k == 1 ==> Step(RemoveUnused(code), c, Image(code, s)) == Image(code, Step(code, c, s))
  {
    hide Exec, Live, Start, UsedTemps, Flatten;
    if s.status != Running {
      return 1;
    }
    StartLast(Blocks(code));
    if s.pc == |code| {
      return 1;
    }
    var u := code[s.pc];
    BlockAt(Blocks(code), s.pc);
    if Dropped(UsedTemps(code), u) {
      DroppedStep(code, c, s);
      return 0;
    }
    assert Blocks(code)[s.pc] == [u];
    assert RemoveUnused(code)[Start(Blocks(code), s.pc)] == u;
    hide Dropped, Blocks, RemoveUnused;
    if u.Unary? || u.Binary? || u.Copy? || u.ArrayRead? {
      KeptAssign(code, c, u, s);
      AssignMovesOn(code, c, u, s);
    } else if u.CallI? || u.CallV? {
      KeptCall(code, c, u, s);
      AssignMovesOn(code, c, u, s);
    } else {
      KeptOther(code, c, u, s);
    }
    k := 1;
  }

  /** After any number of steps of the original, the shortened code has reached the image of that
      state in as many steps as units were kept on the way. */
  lemma {:induction false} RemoveUnusedCorrect(code: seq<Unit>, c: Context, s: State, n: nat) returns (k: nat)
    requires ContextOk(c) && Entry(s) && JumpsCompareLiterals(code)
    requires Run(code, c, s, n).status != Stuck
    ensures k <= n && Run(code, c, s, n).pc <= |code|
    ensures Run(RemoveUnused(code), c, s, k) == Image(code, Run(code, c, s, n))
  {
    hide Step, RemoveUnused, Image, Blocks, UsedTemps;
    if n == 0 {
      k := 0;
      EntryImage(code, s);
    } else {
      NeverStuck(code, c, s, n - 1, n);
      k := RemoveUnusedCorrect(code, c, s, n - 1);
      var k' := ImageStep(code, c, Run(code, c, s, n - 1));
      k := k + k';
    }
  }

  /** The original leaves the units that vanish after finitely many steps. */
  lemma {:induction false} CatchUp(code: seq<Unit>, c: Context, s: State, n: nat, k: nat) returns (n': nat)
    requires ContextOk(c) && JumpsCompareLiterals(code)
    requires Run(code, c, s, n).pc <= |code|
    requires Run(RemoveUnused(code), c, s, k) == Image(code, Run(code, c, s, n))
    ensures Run(code, c, s, n').status != Stuck ==>
              Run(code, c, s, n').pc <= |code|
              && Run(RemoveUnused(code), c, s, k + 1) == Image(code, Run(code, c, s, n'))
    decreases |code| - Run(code, c, s, n).pc
  {
    hide RemoveUnused, Image, Blocks, UsedTemps, Exec;
    n' := n + 1;
    var t := Run(code, c, s, n);
    if Step(code, c, t).status != Stuck {
      var d := ImageStep(code, c, t);
      if d == 0 {
        n' := CatchUp(code, c, s, n + 1, k);
      }
    }
  }

  /** Conversely, every state of the shortened code is the image of a state of the original,
      unless the original gets stuck. */
  lemma {:induction false} RemoveUnusedReflects(code: seq<Unit>, c: Context, s: State, k: nat) returns (n: nat)
    requires ContextOk(c) && Entry(s) && JumpsCompareLiterals(code)
    ensures Run(code, c, s, n).status != Stuck ==>
              Run(code, c, s, n).pc <= |code|
              && Run(RemoveUnused(code), c, s, k) == Image(code, Run(code, c, s, n))
  {
    hide Step, RemoveUnused, Image, Blocks, UsedTemps;
    if k == 0 {
      n := 0;
      EntryImage(code, s);
    } else {
      n := RemoveUnusedReflects(code, c, s, k - 1);
      if Run(code, c, s, n).status != Stuck {
        n := CatchUp(code, c, s, n, k - 1);
      }
    }
  }
}
