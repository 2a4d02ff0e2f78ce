/** The write-once verdict: a variable with a single write site, outside every loop and
    function, and no other kind of write that the walk sees, is constant. */
module ShConst {
  import opened ArithAst
  import G = ArithGuard
  import opened ShBuiltin

  // ---------------------------------------------------------------- the program

  /** Expressions by what they can write; Parts stands for every node that only walks its children. The
      last three write variables, but the walk only looks at their operands: an assignment where a
      command is expected (`true && x=2`, also `x+=(..)`), `${x:=value}`, and a command whose name is
      computed. */
  datatype Expr =
    | Arith(e: Ast)
    | Arrow(body: seq<Stmt>)
    | SetVar(x: string, value: Expr)
    | Builtin(cmd: string, words: seq<Word>)
    | Parts(es: seq<Expr>)
    | Assigned(x: string, value: Expr)
    | Defaulted(x: string, value: Expr)
    | Command(args: seq<Expr>)

  datatype Stmt =
    | Assign(x: string, e: Expr)
    | If(cond: Expr, thn: seq<Stmt>, elsifs: seq<Arm>, els: seq<Stmt>)
    | For(x: string, iter: Expr, body: seq<Stmt>)
    | While(cond: Expr, body: seq<Stmt>)
    | Function(body: seq<Stmt>)
    | Group(body: seq<Stmt>, targets: seq<Expr>)   // subshell, background, block, redirect
    | Case(disc: Expr, clauses: seq<Suite>)
    | Pipeline(stages: seq<Suite>)
    | Evaluate(e: Expr)                            // expression statement, return value

  datatype Arm = Arm(cond: Expr, body: seq<Stmt>)

  datatype Suite = Suite(body: seq<Stmt>)

  // ---------------------------------------------------------------- the walk

  /** What the walk has recorded. */
  datatype Acc = Acc(sites: multiset<string>, multiRun: set<string>, runtimeWritten: set<string>,
                     arithWritten: set<string>, indexWritten: set<string>, dyn: bool)

  const NOTHING: Acc := Acc(multiset{}, {}, {}, {}, {}, false)

  function Plus(a: Acc, b: Acc): Acc {
    Acc(a.sites + b.sites, a.multiRun + b.multiRun, a.runtimeWritten + b.runtimeWritten,
        a.arithWritten + b.arithWritten, a.indexWritten + b.indexWritten, a.dyn || b.dyn)
  }

  function Site(x: string, multi: bool): Acc {
    NOTHING.(sites := multiset{x}, multiRun := if multi then {x} else {})
  }

  /** An assignment target: a write to an element belongs to the array. */
  function OfTarget(x: string, multi: bool): Acc {
    if '[' in x then NOTHING.(indexWritten := {Base(x)}) else Site(x, multi)
  }

  /** A builtin's writes: declared names are sites, once each however often they are named. */
  function OfBuiltin(cmd: string, ws: seq<Word>, multi: bool): Acc {
    var names := Elements(NamedWords(ws));
    match KindOf(cmd)
    case Declares => NOTHING.(sites := multiset(names), multiRun := if multi then names else {})
    case Stores => NOTHING.(runtimeWritten := names)
    case Lets => NOTHING.(runtimeWritten := LetNames(ws))
    case Dynamic => NOTHING.(dyn := true)
    case Harmless => NOTHING
  }

  function OfExpr(e: Expr, multi: bool): Acc
    decreases e, 0
  {
    match e
    case Arith(a) => NOTHING.(arithWritten := set x | x in G.WrittenVars(a))
    case Arrow(body) => OfBlock(body, multi)
    case SetVar(x, value) => Plus(Site(x, multi), OfExpr(value, multi))
    case Builtin(cmd, ws) => OfBuiltin(cmd, ws, multi)
    case Parts(es) => OfExprs(es, multi)
    case Assigned(_, value) => OfExpr(value, multi)
    case Defaulted(_, value) => OfExpr(value, multi)
    case Command(args) => OfExprs(args, multi)
  }

  function OfExprs(es: seq<Expr>, multi: bool): Acc
    decreases es, 0
  {
    if es == [] then NOTHING else Plus(OfExpr(es[0], multi), OfExprs(es[1..], multi))
  }

  function OfStmt(s: Stmt, multi: bool): Acc
    decreases s, 0
  {
    match s
    case Assign(x, e) => Plus(OfTarget(x, multi), OfExpr(e, multi))
    case If(cond, thn, elsifs, els) =>
      Plus(Plus(OfExpr(cond, multi), OfBlock(thn, multi)), Plus(OfArms(elsifs, multi), OfBlock(els, multi)))
    case For(x, iter, body) => Plus(Plus(Site(x, true), OfExpr(iter, multi)), OfBlock(body, true))
    case While(cond, body) => Plus(OfExpr(cond, multi), OfBlock(body, true))
    case Function(body) => OfBlock(body, true)
    case Group(body, targets) => Plus(OfBlock(body, multi), OfExprs(targets, multi))
    case Case(disc, clauses) => Plus(OfExpr(disc, multi), OfSuites(clauses, multi))
    case Pipeline(stages) => OfSuites(stages, multi)
    case Evaluate(e) => OfExpr(e, multi)
  }

  function OfBlock(ss: seq<Stmt>, multi: bool): Acc
    decreases ss, 0
  {
    if ss == [] then NOTHING else Plus(OfStmt(ss[0], multi), OfBlock(ss[1..], multi))
  }

  function OfArms(arms: seq<Arm>, multi: bool): Acc
    decreases arms, 0
  {
    if arms == [] then NOTHING
    else Plus(Plus(OfExpr(arms[0].cond, multi), OfBlock(arms[0].body, multi)), OfArms(arms[1..], multi))
  }

  function OfSuites(suites: seq<Suite>, multi: bool): Acc
    decreases suites, 0
  {
    if suites == [] then NOTHING else Plus(OfBlock(suites[0].body, multi), OfSuites(suites[1..], multi))
  }

  predicate IsConst(acc: Acc, v: string) {
    && acc.sites[v] == 1 && v !in acc.multiRun && v !in acc.runtimeWritten
    && v !in acc.arithWritten && v !in acc.indexWritten && !acc.dyn
  }

  lemma PlusIsAssociative(a: Acc, b: Acc, c: Acc)
    ensures Plus(Plus(a, b), c) == Plus(a, Plus(b, c))
  {
  }

  lemma PlusNothing(a: Acc)
    ensures Plus(a, NOTHING) == a && Plus(NOTHING, a) == a
  {
  }

  /** The source's accumulator, filled in place by the walk. */
  class VarConstAcc {
    var sites: multiset<string>
    var multiRun: set<string>
    var runtimeWritten: set<string>
    var arithWritten: set<string>
    var indexWritten: set<string>
    var dyn: bool

    constructor ()
      ensures Recorded() == NOTHING
    {
      sites, multiRun, runtimeWritten, arithWritten, indexWritten, dyn := multiset{}, {}, {}, {}, {}, false;
    }

    function Recorded(): Acc
      reads this
    {
      Acc(sites, multiRun, runtimeWritten, arithWritten, indexWritten, dyn)
    }

    method AddSite(x: string, multi: bool)
      modifies this
      ensures Recorded() == Plus(old(Recorded()), Site(x, multi))
    {
      sites := sites + multiset{x};
      if multi {
        multiRun := multiRun + {x};
      }
    }

    method ClassifyBuiltin(cmd: string, ws: seq<Word>, multi: bool)
      modifies this
      ensures Recorded() == Plus(old(Recorded()), OfBuiltin(cmd, ws, multi))
    {
      hide KindOf, NamedWords, LetNames, Elements, Plus, Recorded;
      match KindOf(cmd) {
        case Dynamic => SetDynamic();
        case Stores =>
          var names := BuiltinNames(ws, {});
          assert names == Elements(NamedWords(ws));
          AddRuntime(names);
        case Lets =>
          var names := LetWords(ws);
          AddRuntime(names);
        case Declares =>
          var names := BuiltinNames(ws, {});
          assert names == Elements(NamedWords(ws));
          AddSites(names, multi);
        case Harmless => PlusNothing(Recorded());
      }
    }

    method SetDynamic()
      modifies this
      ensures Recorded() == Plus(old(Recorded()), NOTHING.(dyn := true))
    {
      dyn := true;
    }

    method AddRuntime(names: set<string>)
      modifies this
      ensures Recorded() == Plus(old(Recorded()), NOTHING.(runtimeWritten := names))
    {
      runtimeWritten := runtimeWritten + names;
    }

    /** A site for each name. */
    method AddSites(names: set<string>, multi: bool)
      modifies this
      ensures Recorded() == Plus(old(Recorded()), NOTHING.(sites := multiset(names), multiRun := if multi then names else {}))
    {
      sites := sites + multiset(names);
      if multi {
        multiRun := multiRun + names;
      }
    }

    method WalkExpr(e: Expr, multi: bool)
      modifies this
      ensures Recorded() == Plus(old(Recorded()), OfExpr(e, multi))
      decreases e, 0
    {
      match e {
        case Arith(a) => arithWritten := arithWritten + set x | x in G.WrittenVars(a);
        case Arrow(body) => WalkBlock(body, multi);
        case SetVar(x, value) =>
          AddSite(x, multi);
          WalkExpr(value, multi);
          PlusIsAssociative(old(Recorded()), Site(x, multi), OfExpr(value, multi));
        case Builtin(cmd, ws) => ClassifyBuiltin(cmd, ws, multi);
        case Parts(es) => WalkExprs(es, multi);
        case Assigned(_, value) => WalkExpr(value, multi);
        case Defaulted(_, value) => WalkExpr(value, multi);
        case Command(args) => WalkExprs(args, multi);
      }
    }

    method WalkExprs(es: seq<Expr>, multi: bool)
      modifies this
      ensures Recorded() == Plus(old(Recorded()), OfExprs(es, multi))
      decreases es, 0
    {
      for i := 0 to |es|
        invariant Plus(Recorded(), OfExprs(es[i..], multi)) == Plus(old(Recorded()), OfExprs(es, multi))
      {
        ghost var before := Recorded();
        WalkExpr(es[i], multi);
        assert es[i..][1..] == es[i + 1..];
        PlusIsAssociative(before, OfExpr(es[i], multi), OfExprs(es[i + 1..], multi));
      }
      PlusNothing(Recorded());
    }

    method WalkBlock(ss: seq<Stmt>, multi: bool)
      modifies this
      ensures Recorded() == Plus(old(Recorded()), OfBlock(ss, multi))
      decreases ss, 0
    {
      for i := 0 to |ss|
        invariant Plus(Recorded(), OfBlock(ss[i..], multi)) == Plus(old(Recorded()), OfBlock(ss, multi))
      {
        ghost var before := Recorded();
        WalkStmt(ss[i], multi);
        assert ss[i..][1..] == ss[i + 1..];
        PlusIsAssociative(before, OfStmt(ss[i], multi), OfBlock(ss[i + 1..], multi));
      }
      PlusNothing(Recorded());
    }

    method WalkSuites(suites: seq<Suite>, multi: bool)
      modifies this
      ensures Recorded() == Plus(old(Recorded()), OfSuites(suites, multi))
      decreases suites, 0
    {
      for i := 0 to |suites|
        invariant Plus(Recorded(), OfSuites(suites[i..], multi)) == Plus(old(Recorded()), OfSuites(suites, multi))
      {
        ghost var before := Recorded();
        WalkBlock(suites[i].body, multi);
        assert suites[i..][1..] == suites[i + 1..];
        PlusIsAssociative(before, OfBlock(suites[i].body, multi), OfSuites(suites[i + 1..], multi));
      }
      PlusNothing(Recorded());
    }

    method WalkArms(arms: seq<Arm>, multi: bool)
      modifies this
      ensures Recorded() == Plus(old(Recorded()), OfArms(arms, multi))
      decreases arms, 0
    {
      for i := 0 to |arms|
        invariant Plus(Recorded(), OfArms(arms[i..], multi)) == Plus(old(Recorded()), OfArms(arms, multi))
      {
        ghost var before := Recorded();
        WalkExpr(arms[i].cond, multi);
        WalkBlock(arms[i].body, multi);
        assert arms[i..][1..] == arms[i + 1..];
        PlusIsAssociative(before, OfExpr(arms[i].cond, multi), OfBlock(arms[i].body, multi));
        PlusIsAssociative(before, Plus(OfExpr(arms[i].cond, multi), OfBlock(arms[i].body, multi)), OfArms(arms[i + 1..], multi));
      }
      PlusNothing(Recorded());
    }

    method WalkTarget(x: string, multi: bool)
      modifies this
      ensures Recorded() == Plus(old(Recorded()), OfTarget(x, multi))
    {
      if '[' in x {
        indexWritten := indexWritten + {Base(x)};
      } else {
        AddSite(x, multi);
      }
    }

    method WalkStmt(s: Stmt, multi: bool)
      modifies this
      ensures Recorded() == Plus(old(Recorded()), OfStmt(s, multi))
      decreases s, 1
    {
      hide Plus, Recorded;
      ghost var was := Recorded();
      match s {
        case Assign(x, e) =>
          WalkTarget(x, multi);
          WalkExpr(e, multi);
          PlusIsAssociative(was, OfTarget(x, multi), OfExpr(e, multi));
        case If(_, _, _, _) => WalkIf(s, multi);
        case For(x, iter, body) =>
          AddSite(x, true);
          WalkExpr(iter, multi);
          WalkBlock(body, true);
          PlusIsAssociative(was, Site(x, true), OfExpr(iter, multi));
          PlusIsAssociative(was, Plus(Site(x, true), OfExpr(iter, multi)), OfBlock(body, true));
        case While(cond, body) =>
          WalkExpr(cond, multi);
          WalkBlock(body, true);
          PlusIsAssociative(was, OfExpr(cond, multi), OfBlock(body, true));
        case Function(body) => WalkBlock(body, true);
        case Group(body, targets) =>
          WalkBlock(body, multi);
          WalkExprs(targets, multi);
          PlusIsAssociative(was, OfBlock(body, multi), OfExprs(targets, multi));
        case Case(disc, clauses) =>
          WalkExpr(disc, multi);
          WalkSuites(clauses, multi);
          PlusIsAssociative(was, OfExpr(disc, multi), OfSuites(clauses, multi));
        case Pipeline(stages) => WalkSuites(stages, multi);
        case Evaluate(e) => WalkExpr(e, multi);
      }
    }

    method WalkIf(s: Stmt, multi: bool)
      requires s.If?
      modifies this
      ensures Recorded() == Plus(old(Recorded()), OfStmt(s, multi))
      decreases s, 0
    {
      hide Plus, Recorded;
      ghost var was := Recorded();
      WalkExpr(s.cond, multi);
      WalkBlock(s.thn, multi);
      WalkArms(s.elsifs, multi);
      WalkBlock(s.els, multi);
      ghost var a, b := OfExpr(s.cond, multi), OfBlock(s.thn, multi);
      ghost var c, d := OfArms(s.elsifs, multi), OfBlock(s.els, multi);
      PlusIsAssociative(was, a, b);
      PlusIsAssociative(Plus(was, Plus(a, b)), c, d);
      PlusIsAssociative(was, Plus(a, b), Plus(c, d));
    }
  }

  /** The names with verdict Const. */
  method AnalyzeVarConst(program: seq<Stmt>) returns (consts: set<string>)
    ensures forall v :: v in consts <==> IsConst(OfBlock(program, false), v)
  {
    var acc := new VarConstAcc();
    acc.WalkBlock(program, false);
    PlusNothing(OfBlock(program, false));
    var r := acc.Recorded();
    consts := set v | v in r.sites && IsConst(r, v);
  }
}
