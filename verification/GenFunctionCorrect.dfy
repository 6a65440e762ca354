/** A generated function does what the source function means, from entry to return. */
module GenFunctionCorrect {
  import opened Words
  import opened Wrappers
  import opened Primitive
  import opened Layout
  import opened Pinkie
  import Ast
  import opened Embedding
  import opened GenEeyore
  import opened GenExprCorrect
  import opened GenStmtCorrect

  /** What the body starts from: `main` first runs the initialisers of the globals. */
  ghost function BodyStore(c: Context, f: GenEeyore.Function, st: Store): Store {
    if f.name == "main" then Ast.CallStore(c, INITIALIZER, [], st) else st
  }

  /** What a call of a source function means: it returns what the body returns; a body that ends
      without a return leaves 0 in a function that returns nothing, and no value in one that should. */
  ghost function Meaning(
    c: Context, f: GenEeyore.Function, st: Store, fuel: nat, ord: Ast.Reading := Ast.AtUse): Ast.Outcome
  {
    match Ast.Exec(c, f.body, BodyStore(c, f, st), fuel, ord)
    case Done(Fall, st1) => Ast.Done(Ast.Ret(if f.isVoid then Some(0) else None), st1)
    case o => o
  }

  ghost predicate FunctionOk(c: Context, f: GenEeyore.Function) {
    ContextOk(c) && Ast.StmtOk(c, f.body, false) && (f.name == "main" ==> c.arity(INITIALIZER) == 0)
  }

  ghost predicate StoreOk(st: Store) {
    forall o :: o in st.vars ==> !o.Temp?
  }

  lemma EntryRepresents(st: Store)
    requires StoreOk(st)
    ensures Represents(st, Ast.AsState(st, []), []) && Ast.AsState(st, []).pc == 0
    ensures Entry(Ast.AsState(st, []))
  {
  }

  /** The parts of a function's code. */
  ghost function Front(f: GenEeyore.Function): seq<Unit> {
    if f.name == "main" then [CallV(INITIALIZER)] else []
  }

  lemma Parts(f: GenEeyore.Function, body: seq<Unit>)
    ensures var code := FunctionCode(f, body);
            && Sits(code, |Front(f)|, body) && Sits(code, 0, Front(f))
            && (f.isVoid ==> |code| == |Front(f)| + |body| + 1 && code[|Front(f)| + |body|] == RetI(Lit(0)))
            && (!f.isVoid ==> |code| == |Front(f)| + |body|)
  {
  }

  lemma FrontMeans(f: GenEeyore.Function)
    ensures f.name == "main" ==> Front(f) == [CallV(INITIALIZER)]
    ensures f.name != "main" ==> Front(f) == []
  {
  }

  lemma ReadyIs(code: seq<Unit>, c: Context, x: Stmt, t: int, l: int, s: State, st: Store)
    requires ContextOk(c) && DistinctLabels(code) && Sits(code, s.pc, GenStmt(x, t, l, None, None).code)
    requires Represents(st, s, []) && Ast.StmtOk(c, x, false)
    ensures StmtReady(code, c, x, t, l, None, None, false, s, st)
  {
    hide GenStmt, Sits, Represents, Ast.StmtOk, DistinctLabels;
  }

  lemma ArrivedIs(code: seq<Unit>, c: Context, s: State, n: nat, p: nat, st: Store)
    ensures Arrived(code, c, s, n, p, st) <==> Run(code, c, s, n).pc == p && Represents(st, Run(code, c, s, n), [])
  {
    hide Run, Represents;
  }

  /** Control is at the body. */
  lemma FrontRuns(code: seq<Unit>, c: Context, f: GenEeyore.Function, body: seq<Unit>, st: Store) returns (n: nat)
    requires ContextOk(c) && code == FunctionCode(f, body) && StoreOk(st) && (f.name == "main" ==> c.arity(INITIALIZER) == 0)
    ensures Arrived(code, c, Ast.AsState(st, []), n, |Front(f)|, BodyStore(c, f, st))
  {
    hide *;
    var s := Ast.AsState(st, []);
    EntryRepresents(st);
    Parts(f, body);
    FrontMeans(f);
    BodyStoreIs(c, f, st);
    RunZero(code, c, s);
    ArrivedIs(code, c, s, 0, 0, st);
    n := 0;
    if f.name == "main" {
      SitsUnit(code, 0, Front(f), 0);
      CallVStep(code, c, s, 0, 0, st, INITIALIZER, []);
      n := 1;
    }
  }

  lemma BodyStoreIs(c: Context, f: GenEeyore.Function, st: Store)
    ensures BodyStore(c, f, st) == if f.name == "main" then Ast.CallStore(c, INITIALIZER, [], st) else st
  {
    hide Ast.CallStore;
  }

  lemma FunctionMeans(c: Context, f: GenEeyore.Function)
    requires FunctionOk(c, f)
    ensures ContextOk(c) && Ast.StmtOk(c, f.body, false) && (f.name == "main" ==> c.arity(INITIALIZER) == 0)
  {
    hide Ast.StmtOk;
  }

  lemma MeaningIs(c: Context, f: GenEeyore.Function, st: Store, fuel: nat)
    ensures var o := Ast.Exec(c, f.body, BodyStore(c, f, st), fuel);
            Meaning(c, f, st, fuel)
            == if o.Done? && o.exit.Fall? then Ast.Done(Ast.Ret(if f.isVoid then Some(0) else None), o.st) else o
  {
    hide Ast.Exec, BodyStore;
  }

  /** A run that falls off the end of the body. */
  lemma EndRuns(code: seq<Unit>, c: Context, f: GenEeyore.Function, body: seq<Unit>, s: State, n: nat, st: Store)
    requires code == FunctionCode(f, body) && Arrived(code, c, s, n, |Front(f)| + |body|, st)
    ensures Stopped(code, c, s, n + 1, if f.isVoid then Some(0) else None, st)
  {
    Parts(f, body);
    hide FunctionCode, Sits, Front;
    if f.isVoid {
      OneMore(code, c, s, n, RetI(Lit(0)));
    }
  }

  /** The two ends of a run. */
  ghost predicate Finishes(code: seq<Unit>, c: Context, s: State, n: nat, o: Ast.Outcome, fuel: nat) {
    && (o.Done? ==> o.exit.Ret? && Stopped(code, c, s, n, o.exit.val, o.st))
    && (o.OutOfFuel? ==> n >= fuel && Run(code, c, s, n).status == Running)
  }

  lemma FollowsFinishes(code: seq<Unit>, c: Context, s: State, n: nat, o: Ast.Outcome, fuel: nat, end: nat)
    requires Follows(code, c, s, n, o, fuel, end, None, None) && !(o.Done? && o.exit.Fall?)
    ensures Finishes(code, c, s, n, o, fuel)
  {
    hide Stopped, Run, Arrived;
  }

  lemma FinishedEnd(code: seq<Unit>, c: Context, s: State, n: nat, v: Option<Word>, st: Store, fuel: nat)
    requires Stopped(code, c, s, n, v, st)
    ensures Finishes(code, c, s, n, Ast.Done(Ast.Ret(v), st), fuel)
  {
    hide Stopped, Run;
  }

  /** The generated code of a function returns with the value and the store that the function means;
      a function that runs out of any fuel keeps its code running. */
  lemma FunctionCorrect(c: Context, f: GenEeyore.Function, t: int, l: int, st: Store, fuel: nat) returns (n: nat)
    requires FunctionOk(c, f) && StoreOk(st) && DistinctLabels(GenFunction(f, t, l).code)
    requires !Meaning(c, f, st, fuel).Undefined?
    ensures Finishes(GenFunction(f, t, l).code, c, Ast.AsState(st, []), n, Meaning(c, f, st, fuel), fuel)
  {
    hide *;
    var body := GenStmt(f.body, t, l, None, None).code;
    var code, s := GenFunction(f, t, l).code, Ast.AsState(st, []);
    GenFunctionIs(f, t, l);
    FunctionMeans(c, f);
    MeaningIs(c, f, st, fuel);
    Parts(f, body);
    var m := FrontRuns(code, c, f, body, st);
    var st0, s1 := BodyStore(c, f, st), Run(code, c, s, m);
    ArrivedIs(code, c, s, m, |Front(f)|, st0);
    ReadyIs(code, c, f.body, t, l, s1, st0);
    var k := StmtCorrect(code, c, f.body, t, l, None, None, false, s1, st0, fuel);
    var o := Ast.Exec(c, f.body, st0, fuel);
    FollowsLater(code, c, s, m, k, o, fuel, fuel, |Front(f)| + |body|, None, None);
    n := m + k;
    if o.Done? && o.exit.Fall? {
      FollowsFall(code, c, s, n, o, fuel, |Front(f)| + |body|, None, None);
      EndRuns(code, c, f, body, s, n, o.st);
      n := n + 1;
      FinishedEnd(code, c, s, n, if f.isVoid then Some(0) else None, o.st, fuel);
    } else {
      FollowsFinishes(code, c, s, n, o, fuel, |Front(f)| + |body|);
    }
  }

  lemma GenFunctionIs(f: GenEeyore.Function, t: int, l: int)
    ensures GenFunction(f, t, l).code == FunctionCode(f, GenStmt(f.body, t, l, None, None).code)
    ensures GenFunction(f, t, l).name == f.name && GenFunction(f, t, l).arity == f.params
  {
    hide GenStmt, FunctionCode, TempDecs;
  }
}
