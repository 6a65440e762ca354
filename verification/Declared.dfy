/** What is declared and how large: every variable that the source declares has a place with room for all its
    elements. */
module Declared {
  import opened Words
  import opened Wrappers
  import opened Pinkie
  import opened Ast
  import opened GenEeyore
  import opened GenStatic
  import ClearTemps
  import O = Optimize
  import GP = GenProgram
  import CS = CompileStatic
  import B = Backend
  import D = Dashie
  import Frames

  // ----- what the source declares -----

  /** The statement declares `op` with `length` elements, none for a scalar. */
  ghost predicate Declares(s: Stmt, op: Operand, length: int) {
    match s
    case Declare(o, n, _) => o == op && n == length
    case Block(items) => exists i :: i in items && Declares(i, op, length)
    case If(_, t, f) => Declares(t, op, length) || (f.Some? && Declares(f.value, op, length))
    case While(_, body) => Declares(body, op, length)
    case _ => false
  }

  /** Four bytes for each of `length` elements, or a scalar. */
  ghost predicate SizedFor(len: int, length: int) {
    if length > 0 then len == 4 * length else len == 0
  }

  ghost predicate DeclaredAs(s: Stmt, d: Symb) {
    exists length :: Declares(s, d.name, length) && SizedFor(d.len, length)
  }

  // ----- generated code declares it -----

  lemma {:induction false} InitDeclares(op: Operand, length: int, init: seq<Alignment>, t: int, l: int)
    ensures GenInit(op, length, init, t, l).decs == []
  {
    hide GenExpr;
    if init != [] {
      var g := GenExpr(init[0].exp, t, l);
      InitDeclares(op, length, init[1..], g.temps, g.labels);
    }
  }

  lemma OneDeclared(op: Operand, length: int, init: seq<Alignment>, d: Symb)
    ensures DeclaredAs(Declare(op, length, init), d) <==> d == DeclarationCast(op, length)
  {
    var s := Declare(op, length, init);
    if d == DeclarationCast(op, length) {
      assert Declares(s, d.name, length) && SizedFor(d.len, length);
    }
  }

  lemma IfDeclared(s: Stmt, d: Symb)
    requires s.If?
    ensures DeclaredAs(s, d) <==> DeclaredAs(s.thenClause, d) || (s.elseClause.Some? && DeclaredAs(s.elseClause.value, d))
  {
    hide SizedFor;
    if DeclaredAs(s.thenClause, d) {
      var n :| Declares(s.thenClause, d.name, n) && SizedFor(d.len, n);
      assert Declares(s, d.name, n);
    }
    if s.elseClause.Some? && DeclaredAs(s.elseClause.value, d) {
      var n :| Declares(s.elseClause.value, d.name, n) && SizedFor(d.len, n);
      assert Declares(s, d.name, n);
    }
  }

  lemma WhileDeclared(s: Stmt, d: Symb)
    requires s.While?
    ensures DeclaredAs(s, d) <==> DeclaredAs(s.body, d)
  {
    hide SizedFor;
    if DeclaredAs(s.body, d) {
      var n :| Declares(s.body, d.name, n) && SizedFor(d.len, n);
      assert Declares(s, d.name, n);
    }
  }

  lemma BlockDeclared(items: seq<Stmt>, d: Symb)
    ensures DeclaredAs(Block(items), d) <==> exists i :: i in items && DeclaredAs(i, d)
  {
    hide SizedFor;
    var s := Block(items);
    if DeclaredAs(s, d) {
      var n :| Declares(s, d.name, n) && SizedFor(d.len, n);
      var i :| i in items && Declares(i, d.name, n);
      assert DeclaredAs(i, d);
    }
    if exists i :: i in items && DeclaredAs(i, d) {
      var i :| i in items && DeclaredAs(i, d);
      var n :| Declares(i, d.name, n) && SizedFor(d.len, n);
      assert Declares(s, d.name, n);
    }
  }

  lemma NothingDeclared(s: Stmt, t: int, l: int, cont: Option<int>, brk: Option<int>, d: Symb)
    requires !s.Block? && !s.Declare? && !s.If? && !s.While?
    ensures GenStmt(s, t, l, cont, brk).decs == [] && !DeclaredAs(s, d)
  {
    hide GenExpr, SizedFor;
  }

  lemma FlatDecs(s: Stmt, t: int, l: int, cont: Option<int>, brk: Option<int>)
    ensures s.Block? ==> GenStmt(s, t, l, cont, brk).decs == GenBlock(s.items, t, l, cont, brk).decs
    ensures s.Declare? ==> GenStmt(s, t, l, cont, brk).decs == [DeclarationCast(s.op, s.length)]
    ensures s.While? ==>
              var g := GenExpr(s.cond, t, l);
              GenStmt(s, t, l, cont, brk).decs
              == GenStmt(s.body, g.temps, g.labels + 2, Some(g.labels), Some(g.labels + 1)).decs
  {
    hide GenExpr, GenBlock, DeclarationCast, GenInit;
  }

  lemma IfDecs(s: Stmt, t: int, l: int, cont: Option<int>, brk: Option<int>)
    requires s.If?
    ensures var g := GenExpr(s.cond, t, l);
            var g0 := GenStmt(s.thenClause, g.temps, g.labels, cont, brk);
            GenStmt(s, t, l, cont, brk).decs
            == g0.decs + if s.elseClause.Some? then GenStmt(s.elseClause.value, g0.temps, g0.labels, cont, brk).decs else []
  {
    hide GenExpr, GenBlock, DeclarationCast, GenInit;
  }

  /** Generated code declares exactly the variables that the source declares, each with four bytes for every
      element. */
  lemma {:induction false} StmtDeclares(s: Stmt, t: int, l: int, cont: Option<int>, brk: Option<int>, d: Symb)
    ensures d in GenStmt(s, t, l, cont, brk).decs <==> DeclaredAs(s, d)
    decreases s, 1
  {
    hide *;
    FlatDecs(s, t, l, cont, brk);
    match s {
      case Block(items) =>
        BlockDeclares(items, t, l, cont, brk, d);
        BlockDeclared(items, d);
      case Declare(op, length, init) => OneDeclared(op, length, init, d);
      case If(cond, thenClause, elseClause) =>
        IfDecs(s, t, l, cont, brk);
        var g := GenExpr(cond, t, l);
        var g0 := GenStmt(thenClause, g.temps, g.labels, cont, brk);
        StmtDeclares(thenClause, g.temps, g.labels, cont, brk, d);
        if elseClause.Some? {
          StmtDeclares(elseClause.value, g0.temps, g0.labels, cont, brk, d);
        }
        IfDeclared(s, d);
      case While(cond, body) =>
        var g := GenExpr(cond, t, l);
        StmtDeclares(body, g.temps, g.labels + 2, Some(g.labels), Some(g.labels + 1), d);
        WhileDeclared(s, d);
      case _ => NothingDeclared(s, t, l, cont, brk, d);
    }
  }

  lemma {:induction false} BlockDeclares(items: seq<Stmt>, t: int, l: int, cont: Option<int>, brk: Option<int>, d: Symb)
    ensures d in GenBlock(items, t, l, cont, brk).decs <==> exists i :: i in items && DeclaredAs(i, d)
    decreases items, 0
  {
    hide GenStmt, DeclaredAs;
    if items != [] {
      var g := GenStmt(items[0], t, l, cont, brk);
      StmtDeclares(items[0], t, l, cont, brk, d);
      BlockDeclares(items[1..], g.temps, g.labels, cont, brk, d);
      assert items == [items[0]] + items[1..];
    }
  }

  // ----- a function of the generated program -----

  /** Names and parameter counts are the source's, and so are the variables declared beside temporaries. */
  lemma GeneratedSignature(p: GP.Program, k: nat, d: Symb)
    requires k <= |p.funcs| && !d.name.Temp?
    ensures |GP.Generate(p).funcs| == |p.funcs| + 1
    ensures var f := GP.Generate(p).funcs[k];
            && f.name == GP.SourceOf(p, k).name && f.arity == GP.SourceOf(p, k).params
            && (d in f.decl <==> k > 0 && DeclaredAs(GP.SourceOf(p, k).body, d))
  {
    hide GP.GenFuncs, GP.GenGlobals, GenStmt, TempDecs, DeclaredAs, FunctionCode, GP.Declares;
    GP.GenerateLength(p);
    var g := GP.GenGlobals(p.globals);
    if k == 0 {
      TempDecsExact(g.code + [RetV]);
    } else {
      GP.GenFuncsAt(p.funcs, g.temps, g.labels, k - 1);
      var b, f := GP.GenFuncs(p.funcs[..k - 1], g.temps, g.labels), p.funcs[k - 1];
      StmtDeclares(f.body, b.temps, b.labels, None, None, d);
      TempDecsExact(FunctionCode(f, GenStmt(f.body, b.temps, b.labels, None, None).code));
    }
  }

  lemma {:induction false} NamedKept(decl: seq<Symb>, d: Symb)
    ensures d in ClearTemps.NamedDecls(decl) <==> d in decl && !d.name.Temp?
  {
    if decl != [] {
      NamedKept(decl[..|decl| - 1], d);
      assert decl == decl[..|decl| - 1] + [decl[|decl| - 1]];
    }
  }

  lemma {:induction false} TempsOnly(lo: int, hi: int, d: Symb)
    requires lo <= hi && d in ClearTemps.TempDecls(lo, hi)
    ensures d.name.Temp?
    decreases hi - lo
  {
  }

  /** The same after the optimiser. */
  lemma OptimizedSignature(p: GP.Program, k: nat, d: Symb)
    requires k <= |p.funcs| && !d.name.Temp? && O.OptimizeProg(GP.Generate(p)).Some?
    ensures |O.OptimizeProg(GP.Generate(p)).value.funcs| == |p.funcs| + 1
    ensures var f := O.OptimizeProg(GP.Generate(p)).value.funcs[k];
            && f.name == GP.SourceOf(p, k).name && f.arity == GP.SourceOf(p, k).params
            && (d in f.decl <==> k > 0 && DeclaredAs(GP.SourceOf(p, k).body, d))
  {
    hide *;
    GP.GenerateLength(p);
    GeneratedSignature(p, k, d);
    CS.OptimizedIs(GP.Generate(p), k);
    var prog := GP.Generate(p);
    var r, short := ClearTemps.MeetFuncs(ClearTemps.START, CS.Shorts(prog)[..k]), CS.Shorts(prog)[k];
    CS.ClearFuncIs(r, short);
    NamedKept(short.decl, d);
    if d in ClearTemps.TempDecls(r.count, ClearTemps.MeetCode(r, short.code).count) {
      TempsOnly(r.count, ClearTemps.MeetCode(r, short.code).count, d);
    }
  }

  // ----- places are large enough -----

  lemma {:induction false} DeclaresNamed(sc: Scope, s: Stmt, inLoop: bool, op: Operand, length: int)
    requires StmtScoped(sc, s, inLoop) && Declares(s, op, length)
    ensures (op.Var? || op.Param?) && if length > 0 then op in sc.arrays else op in sc.scalars
  {
    hide ExprScoped, CallScoped;
    match s {
      case Block(items) =>
        var i :| i in items && Declares(i, op, length);
        DeclaresNamed(sc, i, inLoop, op, length);
      case If(_, t, f) =>
        if Declares(t, op, length) {
          DeclaresNamed(sc, t, inLoop, op, length);
        } else {
          DeclaresNamed(sc, f.value, inLoop, op, length);
        }
      case While(_, body) => DeclaresNamed(sc, body, true, op, length);
      case _ =>
    }
  }

  /** A name stands for one variable. */
  ghost predicate OneLength(s: Stmt, op: Operand, length: int) {
    forall n :: Declares(s, op, n) ==> n == length
  }

  lemma SlotSized(f: Func, op: Operand, len: int)
    requires (exists d :: d in f.decl && d.name == op) && (forall i :: 0 <= i < f.arity ==> op != Param(i))
    requires forall d :: d in f.decl && d.name == op ==> d.len == len
    ensures op in Frames.SlotsOf(f) && Frames.SlotsOf(f)[op].len == len
  {
    hide Frames.CalleeSavedHeuristic, Frames.Locals, Frames.Slots, Frames.End;
    Frames.LocalsExact(f);
    var base, l := 4 * Frames.CalleeSavedHeuristic(f), Frames.Locals(f);
    var d :| d in f.decl && d.name == op;
    var i :| 0 <= i < |f.decl| && f.decl[i] == d;
    assert Frames.Named(l, f.decl[i].name);
    var k :| 0 <= k < |l| && l[k].name == op;
    Frames.NamedHasSlot(base, l, k);
    var j := Frames.SlotOwner(base, l, op);
    assert l[j] in l;
  }

  /** A local array has all its words in its slot, whatever the optimiser did. */
  lemma SlotHolds(p: GP.Program, scs: seq<Scope>, k: nat, op: Operand, length: int)
    requires CS.FuncFits(p, scs, k) && 0 < k <= |p.funcs| && O.OptimizeProg(GP.Generate(p)).Some?
    requires Declares(GP.SourceOf(p, k).body, op, length) && length > 0 && OneLength(GP.SourceOf(p, k).body, op, length)
    ensures |O.OptimizeProg(GP.Generate(p)).value.funcs| == |p.funcs| + 1
    ensures var slots := Frames.SlotsOf(O.OptimizeProg(GP.Generate(p)).value.funcs[k]);
            op in slots && slots[op].len == 4 * length && forall i :: 0 <= i < length ==> 0 <= 4 * i && 4 * i + 4 <= slots[op].len
  {
    hide *;
    CS.FitsMeans(p, scs, k);
    ScopedBody(p, scs, k);
    GP.GenerateLength(p);
    DeclaresNamed(scs[k], GP.SourceOf(p, k).body, false, op, length);
    var d := Symb(op, 4 * length);
    OptimizedSignature(p, k, d);
    var f := O.OptimizeProg(GP.Generate(p)).value.funcs[k];
    DeclaredWith(GP.SourceOf(p, k).body, op, length);
    GeneratedSignature(p, k, d);
    ParamsApart(scs[k], B.GlobalTable(GP.Generate(p).globals), f.arity, GP.Generate(p).funcs[k].decl, op);
    assert d.name == op;
    forall e | e in f.decl && e.name == op ensures e.len == 4 * length {
      OptimizedSignature(p, k, e);
      OnlyLength(GP.SourceOf(p, k).body, e, length);
    }
    SlotSized(f, op, 4 * length);
  }

  lemma ScopedBody(p: GP.Program, scs: seq<Scope>, k: nat)
    requires GP.ProgramScoped(p, scs) && 0 < k <= |p.funcs|
    ensures StmtScoped(scs[k], GP.SourceOf(p, k).body, false)
  {
    hide StmtScoped, ExprScoped, Named;
    assert StmtScoped(scs[k - 1 + 1], p.funcs[k - 1].body, false);
  }

  lemma DeclaredWith(s: Stmt, op: Operand, length: int)
    requires Declares(s, op, length) && length > 0
    ensures DeclaredAs(s, Symb(op, 4 * length))
  {
    var d := Symb(op, 4 * length);
    assert Declares(s, d.name, length) && SizedFor(d.len, length);
  }

  lemma OnlyLength(s: Stmt, d: Symb, length: int)
    requires DeclaredAs(s, d) && OneLength(s, d.name, length) && length > 0
    ensures d.len == 4 * length
  {
    var n :| Declares(s, d.name, n) && SizedFor(d.len, n);
  }

  lemma ParamsApart(sc: Scope, table: map<Operand, D.Global>, arity: nat, decl: seq<Symb>, op: Operand)
    requires CS.ScopeFits(sc, table, arity, decl) && op in sc.arrays
    ensures forall i :: 0 <= i < arity ==> op != Param(i)
  {
    hide Frames.Named;
    forall i | 0 <= i < arity ensures op != Param(i) {
      assert Param(i) in sc.scalars;
    }
  }

  // ----- globals -----

  /** A global in the table is the first declaration of its name, and has its number in the data section. */
  lemma {:induction false} GlobalsNumbered(src: seq<Symb>, o: Operand)
    ensures o in B.GlobalTable(src) <==> exists i :: 0 <= i < |src| && src[i].name == o
    ensures o in B.GlobalTable(src) ==>
              var g := B.GlobalTable(src)[o];
              0 <= g.id < |src| && src[g.id].name == o && g == B.GlobalList(src)[g.id]
              && forall j :: 0 <= j < g.id ==> src[j].name != o
  {
    if src != [] {
      var n := |src| - 1;
      GlobalsNumbered(src[..n], o);
      if o in B.GlobalTable(src[..n]) {
        var g := B.GlobalTable(src[..n])[o];
        assert src[g.id].name == o;
      } else if src[n].name == o {
        forall j | 0 <= j < n ensures src[j].name != o {
          assert src[..n][j] == src[j];
        }
      } else {
        forall i | 0 <= i < |src| ensures src[i].name != o {
          assert i < n ==> src[..n][i] == src[i];
        }
      }
    }
  }

  lemma {:induction false} GlobalsDeclared(decs: seq<GP.Declaration>)
    ensures var r := GP.GenGlobals(decs).decs;
            |r| == |decs| && forall i :: 0 <= i < |r| ==> r[i].name == decs[i].op && SizedFor(r[i].len, decs[i].length)
  {
    hide GenInit;
    if decs != [] {
      GlobalsDeclared(decs[..|decs| - 1]);
    }
  }

  lemma GeneratedGlobals(p: GP.Program)
    ensures GP.Generate(p).globals == GP.GenGlobals(p.globals).decs
  {
    hide GP.GenGlobals, GP.GenFuncs;
  }

  /** The data section has one entry for every global, in order, with four bytes for each element, and the code
      refers to it by its place there. */
  lemma GlobalHolds(p: GP.Program, i: nat)
    requires i < |p.globals|
    ensures |GP.Generate(p).globals| == |p.globals|
    ensures var g := B.GlobalList(GP.Generate(p).globals)[i]; g.id == i && SizedFor(g.length, p.globals[i].length)
    ensures (forall j :: 0 <= j < i ==> p.globals[j].op != p.globals[i].op) ==>
              p.globals[i].op in CS.Table(p) && CS.Table(p)[p.globals[i].op] == B.GlobalList(GP.Generate(p).globals)[i]
  {
    hide GP.GenGlobals, GP.Generate, SizedFor, B.GlobalTable;
    GlobalsDeclared(p.globals);
    GeneratedGlobals(p);
    var src := GP.Generate(p).globals;
    GlobalsNumbered(src, p.globals[i].op);
    assert src[i].name == p.globals[i].op;
  }

  // ----- scopes of the source -----

  ghost predicate IsGlobal(p: GP.Program, o: Operand) {
    exists d :: d in p.globals && d.op == o
  }

  /** The source program is well scoped: scalars and arrays are kept apart, every name of function `k` is a
      global, a parameter or declared in its body, of the kind that it is used as, and there are at most
      twelve parameters. */
  ghost predicate SourceFits(p: GP.Program, scs: seq<Scope>, k: nat) {
    && GP.ProgramScoped(p, scs) && k <= |p.funcs| && |scs| == |p.funcs| + 1 && GP.SourceOf(p, k).params <= 12
    && (forall o :: o in scs[k].scalars ==> o !in scs[k].arrays)
    && (forall d :: d in p.globals ==>
          d.op.Var? && (d.op in scs[k].scalars ==> d.length <= 0) && (d.op in scs[k].arrays ==> d.length > 0))
    && (forall o :: o in scs[k].scalars && !IsGlobal(p, o) ==>
          (o.Param? && 0 <= o.id < GP.SourceOf(p, k).params)
          || (k > 0 && !o.Temp? && exists n :: n <= 0 && Declares(GP.SourceOf(p, k).body, o, n)))
    && (forall o :: o in scs[k].arrays && !IsGlobal(p, o) ==>
          k > 0 && !o.Temp? && exists n :: n > 0 && Declares(GP.SourceOf(p, k).body, o, n))
    && (forall i :: 0 <= i < GP.SourceOf(p, k).params ==> Param(i) in scs[k].scalars)
  }

  lemma GlobalKind(p: GP.Program, o: Operand)
    ensures o in CS.Table(p) <==> IsGlobal(p, o)
    ensures o in CS.Table(p) ==> exists d :: d in p.globals && d.op == o && SizedFor(CS.Table(p)[o].length, d.length)
  {
    hide GP.GenGlobals, GP.Generate, SizedFor, B.GlobalTable;
    GlobalsDeclared(p.globals);
    GeneratedGlobals(p);
    var src := GP.Generate(p).globals;
    GlobalsNumbered(src, o);
    if IsGlobal(p, o) {
      var d :| d in p.globals && d.op == o;
      var i :| 0 <= i < |p.globals| && p.globals[i] == d;
      assert src[i].name == o;
    }
    if o in CS.Table(p) {
      var g := CS.Table(p)[o];
      assert p.globals[g.id] in p.globals && SizedFor(src[g.id].len, p.globals[g.id].length);
    }
  }

  lemma LocalNamed(p: GP.Program, k: nat, o: Operand, n: int)
    requires 0 < k <= |p.funcs| && !o.Temp? && Declares(GP.SourceOf(p, k).body, o, n)
    ensures |GP.Generate(p).funcs| == |p.funcs| + 1 && Frames.Named(GP.Generate(p).funcs[k].decl, o)
  {
    hide GP.Generate, GP.SourceOf;
    var d := Symb(o, if n > 0 then 4 * n else 0);
    GeneratedSignature(p, k, d);
    assert SizedFor(d.len, n) && Declares(GP.SourceOf(p, k).body, d.name, n);
    assert DeclaredAs(GP.SourceOf(p, k).body, d);
    var decl := GP.Generate(p).funcs[k].decl;
    var i :| 0 <= i < |decl| && decl[i] == d;
    assert decl[i].name == o;
  }

  /** What the theorems about the compiler ask of a program is what its source has to satisfy. */
  lemma SourceCompiles(p: GP.Program, scs: seq<Scope>, k: nat)
    requires SourceFits(p, scs, k)
    ensures CS.FuncFits(p, scs, k)
  {
    hide GP.Generate, GP.ProgramScoped, GP.SourceOf, Declares, Frames.Named, CS.Table, B.GlobalTable, SizedFor;
    GeneratedSignature(p, k, Symb(Var(0), 0));
    var sc, table, f := scs[k], CS.Table(p), GP.Generate(p).funcs[k];
    TableIs(p);
    forall o | o in sc.scalars
      ensures if o in table then table[o].length == 0 else (o.Param? && 0 <= o.id < f.arity) || Frames.Named(f.decl, o)
    {
      GlobalKind(p, o);
      if o in table {
        var d :| d in p.globals && d.op == o && SizedFor(table[o].length, d.length);
        ScalarLength(table[o].length, d.length);
      } else if !(o.Param? && 0 <= o.id < f.arity) {
        var n :| n <= 0 && Declares(GP.SourceOf(p, k).body, o, n);
        LocalNamed(p, k, o, n);
      }
    }
    forall o | o in sc.arrays ensures if o in table then table[o].length != 0 else Frames.Named(f.decl, o) {
      GlobalKind(p, o);
      if o in table {
        var d :| d in p.globals && d.op == o && SizedFor(table[o].length, d.length);
        ScalarLength(table[o].length, d.length);
      } else {
        var n :| n > 0 && Declares(GP.SourceOf(p, k).body, o, n);
        LocalNamed(p, k, o, n);
      }
    }
    forall o | o in table ensures o.Var? {
      GlobalKind(p, o);
    }
    assert CS.ScopeFits(sc, table, f.arity, f.decl);
  }

  lemma TableIs(p: GP.Program)
    ensures CS.Table(p) == B.GlobalTable(GP.Generate(p).globals)
  {
    hide B.GlobalTable, GP.Generate;
  }

  lemma ScalarLength(len: int, length: int)
    requires SizedFor(len, length)
    ensures length <= 0 ==> len == 0
    ensures length > 0 ==> len != 0
  {
  }
}
