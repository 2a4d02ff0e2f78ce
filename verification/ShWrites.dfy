/** Runs of a shell program by how often they write a variable, and when the verdict Const is right:
    exactly when no run can write twice, counted along every path, recorded or not. */
module ShWrites {
  import opened ShBuiltin
  import opened ShConst
  import opened ShShell
  import A = ArithAst
  import G = ArithGuard

  // ---------------------------------------------------------------- runs

  /** n is a number of writes to v that some run of a piece of program makes. Loops and
      functions run any number of times, tests go either way, and blocks and expressions may be
      left early. */
  ghost predicate ExprWrites(e: Expr, v: string, n: nat)
    decreases e, 0
  {
    match e
    case Arith(a) => v in G.WrittenVars(a) || n == 0
    case Arrow(body) => BlockWrites(body, v, n)
    case SetVar(x, value) => exists k: nat :: ExprWrites(value, v, k) && n == k + (if x == v then 1 else 0)
    case Builtin(cmd, ws) => CommandWrites(cmd, ws, v, n)
    case Parts(es) => ExprsWrite(es, v, n)
    case Assigned(x, value) => exists k: nat :: ExprWrites(value, v, k) && n == k + (if Hits(x, v) then 1 else 0)
    case Defaulted(x, value) =>
      n == 0 || exists k: nat :: ExprWrites(value, v, k) && n == k + (if Hits(x, v) then 1 else 0)
    case Command(_) => true
  }

  ghost predicate ExprsWrite(es: seq<Expr>, v: string, n: nat)
    decreases es, 0
  {
    n == 0 || (es != [] && exists a: nat, b: nat :: ExprWrites(es[0], v, a) && ExprsWrite(es[1..], v, b) && n == a + b)
  }

  ghost predicate StmtWrites(s: Stmt, v: string, n: nat)
    decreases s, 2
  {
    match s
    case Assign(x, e) =>
      exists k: nat :: ExprWrites(e, v, k) && n == k + (if Hits(x, v) then 1 else 0)
    case If(cond, thn, elsifs, els) =>
      exists a: nat, b: nat :: ExprWrites(cond, v, a) && BranchWrites(s, v, b) && n == a + b
    case For(x, iter, body) =>
      exists a: nat, trips: seq<nat> :: ExprWrites(iter, v, a) && ForTrips(x, body, v, trips) && n == a + Sum(trips)
    case While(cond, body) =>
      exists last: nat, trips: seq<nat> :: ExprWrites(cond, v, last) && n == Sum(trips) + last
        && forall i :: 0 <= i < |trips| ==> WhileTripWrites(cond, body, v, trips[i])
    case Function(body) =>
      exists calls: seq<nat> :: n == Sum(calls) && forall i :: 0 <= i < |calls| ==> BlockWrites(body, v, calls[i])
    case Group(body, targets) =>
      exists a: nat, b: nat :: BlockWrites(body, v, a) && ExprsWrite(targets, v, b) && n == a + b
    case Case(disc, clauses) =>
      exists a: nat, b: nat :: ExprWrites(disc, v, a) && ClauseWrites(clauses, v, b) && n == a + b
    case Pipeline(stages) => StagesWrite(stages, v, n)
    case Evaluate(e) => ExprWrites(e, v, n)
  }

  /** What follows an `if`'s first condition: the then part, or the elsif arms and the else part. */
  ghost predicate BranchWrites(s: Stmt, v: string, n: nat)
    requires s.If?
    decreases s, 1
  {
    BlockWrites(s.thn, v, n) || ElseWrites(s, v, n)
  }

  ghost predicate ElseWrites(s: Stmt, v: string, n: nat)
    requires s.If?
    decreases s, 0
  {
    exists last: nat :: BlockWrites(s.els, v, last) && ArmsWrite(s.elsifs, v, n, last)
  }

  ghost predicate ForTrips(x: string, body: seq<Stmt>, v: string, trips: seq<nat>)
    decreases body, 2
  {
    forall i :: 0 <= i < |trips| ==> ForTripWrites(x, body, v, trips[i])
  }

  ghost predicate ForTripWrites(x: string, body: seq<Stmt>, v: string, n: nat)
    decreases body, 1
  {
    exists k: nat :: BlockWrites(body, v, k) && n == k + (if x == v then 1 else 0)
  }

  ghost predicate WhileTripWrites(cond: Expr, body: seq<Stmt>, v: string, n: nat)
    decreases While(cond, body), 0
  {
    exists a: nat, b: nat :: ExprWrites(cond, v, a) && BlockWrites(body, v, b) && n == a + b
  }

  /** The elsif conditions are tried in turn, up to the arm taken, or to the else part with its writes. */
  ghost predicate ArmsWrite(arms: seq<Arm>, v: string, n: nat, last: nat)
    decreases arms, 0
  {
    if arms == [] then n == last
    else exists a: nat, b: nat :: ExprWrites(arms[0].cond, v, a) && n == a + b
           && (BlockWrites(arms[0].body, v, b) || ArmsWrite(arms[1..], v, b, last))
  }

  /** One clause runs, or none. */
  ghost predicate ClauseWrites(clauses: seq<Suite>, v: string, n: nat)
    decreases clauses, 0
  {
    n == 0 || (clauses != [] && (BlockWrites(clauses[0].body, v, n) || ClauseWrites(clauses[1..], v, n)))
  }

  ghost predicate BlockWrites(ss: seq<Stmt>, v: string, n: nat)
    decreases ss, 0
  {
    n == 0 || (ss != [] && exists a: nat, b: nat :: StmtWrites(ss[0], v, a) && BlockWrites(ss[1..], v, b) && n == a + b)
  }

  ghost predicate StagesWrite(stages: seq<Suite>, v: string, n: nat)
    decreases stages, 0
  {
    if stages == [] then n == 0
    else exists a: nat, b: nat :: BlockWrites(stages[0].body, v, a) && StagesWrite(stages[1..], v, b) && n == a + b
  }

  function Sum(ns: seq<nat>): nat {
    if ns == [] then 0 else ns[0] + Sum(ns[1..])
  }

  // ---------------------------------------------------------------- the worst path

  /** Counting up to two: none, once, more than once. */
  function Cap(n: nat): (c: nat)
    ensures c <= 2
  {
    if n > 2 then 2 else n
  }

  function Max(a: nat, b: nat): nat { if a < b then b else a }

  /** What a piece repeated at will adds up to. */
  function Repeated(n: nat): nat { if n > 0 then 2 else 0 }

  function Once(b: bool): nat { if b then 1 else 0 }

  /** The most writes to v on any path, counted up to two. */
  function ExprMost(e: Expr, v: string): (c: nat)
    ensures c <= 2
    decreases e, 0
  {
    match e
    case Arith(a) => Repeated(Once(v in G.WrittenVars(a)))
    case Arrow(body) => BlockMost(body, v)
    case SetVar(x, value) => Cap(ExprMost(value, v) + Once(x == v))
    case Builtin(cmd, ws) => CommandMost(cmd, ws, v)
    case Parts(es) => ExprsMost(es, v)
    case Assigned(x, value) => Cap(ExprMost(value, v) + Once(Hits(x, v)))
    case Defaulted(x, value) => Cap(ExprMost(value, v) + Once(Hits(x, v)))
    case Command(_) => 2
  }

  function CommandMost(cmd: string, ws: seq<Word>, v: string): (c: nat)
    ensures c <= 2
    decreases |ws|
  {
    if cmd in {"command", "builtin"} then
      if ws != [] && ws[0].Text? then CommandMost(ws[0].s, ws[1..], v) else 0
    else if cmd in DECLARATIONS then Cap(Given(ws, v))
    else if cmd in STORES then Repeated(Given(ws, v))
    else if cmd == "let" then Repeated(Once(StandsInOne(ws, v)))
    else if cmd in ANYTHING then 2
    else if cmd == "getopts" then Once(OptionVariable(ws, v))
    else if cmd == "printf" then Once(PrintVariable(ws, v))
    else 0
  }

  function ExprsMost(es: seq<Expr>, v: string): (c: nat)
    ensures c <= 2
    decreases es, 0
  {
    if es == [] then 0 else Cap(ExprMost(es[0], v) + ExprsMost(es[1..], v))
  }

  function StmtMost(s: Stmt, v: string): (c: nat)
    ensures c <= 2
    decreases s, 0
  {
    match s
    case Assign(x, e) => Cap(ExprMost(e, v) + Once(Hits(x, v)))
    case If(cond, thn, elsifs, els) => Cap(ExprMost(cond, v) + Max(BlockMost(thn, v), ArmsMost(elsifs, v, BlockMost(els, v))))
    case For(x, iter, body) => Cap(ExprMost(iter, v) + Repeated(BlockMost(body, v) + Once(x == v)))
    case While(cond, body) => Repeated(ExprMost(cond, v) + BlockMost(body, v))
    case Function(body) => Repeated(BlockMost(body, v))
    case Group(body, targets) => Cap(BlockMost(body, v) + ExprsMost(targets, v))
    case Case(disc, clauses) => Cap(ExprMost(disc, v) + ClausesMost(clauses, v))
    case Pipeline(stages) => StagesMost(stages, v)
    case Evaluate(e) => ExprMost(e, v)
  }

  function BlockMost(ss: seq<Stmt>, v: string): (c: nat)
    ensures c <= 2
    decreases ss, 0
  {
    if ss == [] then 0 else Cap(StmtMost(ss[0], v) + BlockMost(ss[1..], v))
  }

  function ArmsMost(arms: seq<Arm>, v: string, last: nat): (c: nat)
    ensures c <= 2
    decreases arms, 0
  {
    if arms == [] then Cap(last)
    else Cap(ExprMost(arms[0].cond, v) + Max(BlockMost(arms[0].body, v), ArmsMost(arms[1..], v, last)))
  }

  function ClausesMost(clauses: seq<Suite>, v: string): (c: nat)
    ensures c <= 2
    decreases clauses, 0
  {
    if clauses == [] then 0 else Max(BlockMost(clauses[0].body, v), ClausesMost(clauses[1..], v))
  }

  function StagesMost(stages: seq<Suite>, v: string): (c: nat)
    ensures c <= 2
    decreases stages, 0
  {
    if stages == [] then 0 else Cap(BlockMost(stages[0].body, v) + StagesMost(stages[1..], v))
  }

  // ---------------------------------------------------------------- no run writes more

  lemma {:induction false} ExprAtMost(e: Expr, v: string, n: nat)
    requires ExprWrites(e, v, n)
    ensures Cap(n) <= ExprMost(e, v)
    decreases e, 0
  {
    match e
    case Arrow(body) => BlockAtMost(body, v, n);
    case SetVar(x, value) =>
      var k: nat :| ExprWrites(value, v, k) && n == k + (if x == v then 1 else 0);
      ExprAtMost(value, v, k);
    case Builtin(cmd, ws) => CommandAtMost(cmd, ws, v, n);
    case Parts(es) => ExprsAtMost(es, v, n);
    case Assigned(x, value) =>
      var k: nat :| ExprWrites(value, v, k) && n == k + (if Hits(x, v) then 1 else 0);
      ExprAtMost(value, v, k);
    case Defaulted(x, value) =>
      if n > 0 {
        var k: nat :| ExprWrites(value, v, k) && n == k + (if Hits(x, v) then 1 else 0);
        ExprAtMost(value, v, k);
      }
    case _ =>
  }

  lemma {:induction false} CommandAtMost(cmd: string, ws: seq<Word>, v: string, n: nat)
    requires CommandWrites(cmd, ws, v, n)
    ensures Cap(n) <= CommandMost(cmd, ws, v)
    decreases |ws|
  {
    if cmd in {"command", "builtin"} && ws != [] && ws[0].Text? {
      CommandAtMost(ws[0].s, ws[1..], v, n);
    }
  }

  lemma {:induction false} ExprsAtMost(es: seq<Expr>, v: string, n: nat)
    requires ExprsWrite(es, v, n)
    ensures Cap(n) <= ExprsMost(es, v)
    decreases es, 0
  {
    if n > 0 {
      var a: nat, b: nat :| ExprWrites(es[0], v, a) && ExprsWrite(es[1..], v, b) && n == a + b;
      ExprAtMost(es[0], v, a);
      ExprsAtMost(es[1..], v, b);
    }
  }

  lemma {:induction false} BlockAtMost(ss: seq<Stmt>, v: string, n: nat)
    requires BlockWrites(ss, v, n)
    ensures Cap(n) <= BlockMost(ss, v)
    decreases ss, 0
  {
    if n > 0 {
      var a: nat, b: nat :| StmtWrites(ss[0], v, a) && BlockWrites(ss[1..], v, b) && n == a + b;
      StmtAtMost(ss[0], v, a);
      BlockAtMost(ss[1..], v, b);
    }
  }

  lemma {:induction false} ArmsAtMost(arms: seq<Arm>, v: string, n: nat, last: nat, most: nat)
    requires ArmsWrite(arms, v, n, last) && Cap(last) <= most
    ensures Cap(n) <= ArmsMost(arms, v, most)
    decreases arms, 0
  {
    if arms != [] {
      var a: nat, b: nat :| ExprWrites(arms[0].cond, v, a) && n == a + b
                            && (BlockWrites(arms[0].body, v, b) || ArmsWrite(arms[1..], v, b, last));
      ExprAtMost(arms[0].cond, v, a);
      if BlockWrites(arms[0].body, v, b) {
        BlockAtMost(arms[0].body, v, b);
      } else {
        ArmsAtMost(arms[1..], v, b, last, most);
      }
    }
  }

  lemma {:induction false} ClausesAtMost(clauses: seq<Suite>, v: string, n: nat)
    requires ClauseWrites(clauses, v, n)
    ensures Cap(n) <= ClausesMost(clauses, v)
    decreases clauses, 0
  {
    if n > 0 {
      if BlockWrites(clauses[0].body, v, n) {
        BlockAtMost(clauses[0].body, v, n);
      } else {
        ClausesAtMost(clauses[1..], v, n);
      }
    }
  }

  lemma {:induction false} StagesAtMost(stages: seq<Suite>, v: string, n: nat)
    requires StagesWrite(stages, v, n)
    ensures Cap(n) <= StagesMost(stages, v)
    decreases stages, 0
  {
    if stages != [] {
      var a: nat, b: nat :| BlockWrites(stages[0].body, v, a) && StagesWrite(stages[1..], v, b) && n == a + b;
      BlockAtMost(stages[0].body, v, a);
      StagesAtMost(stages[1..], v, b);
    }
  }

  lemma {:induction false} SumOfZeros(ns: seq<nat>)
    requires forall i :: 0 <= i < |ns| ==> ns[i] == 0
    ensures Sum(ns) == 0
  {
    if ns != [] {
      SumOfZeros(ns[1..]);
    }
  }

  lemma SumOfTwo(n: nat)
    ensures Sum([n, n]) == 2 * n
  {
    assert [n, n][1..] == [n] && [n][1..] == [];
    assert Sum([n]) == n + Sum([]);
  }

  lemma {:induction false} StmtAtMost(s: Stmt, v: string, n: nat)
    requires StmtWrites(s, v, n)
    ensures Cap(n) <= StmtMost(s, v)
    decreases s, 2
  {
    match s
    case Assign(x, e) =>
      var k: nat :| ExprWrites(e, v, k) && n == k + (if Hits(x, v) then 1 else 0);
      ExprAtMost(e, v, k);
    case If(_, _, _, _) => IfAtMost(s, v, n);
    case Group(body, targets) =>
      var a: nat, b: nat :| BlockWrites(body, v, a) && ExprsWrite(targets, v, b) && n == a + b;
      BlockAtMost(body, v, a);
      ExprsAtMost(targets, v, b);
    case Case(disc, clauses) =>
      var a: nat, b: nat :| ExprWrites(disc, v, a) && ClauseWrites(clauses, v, b) && n == a + b;
      ExprAtMost(disc, v, a);
      ClausesAtMost(clauses, v, b);
    case Pipeline(stages) =>
      assert StagesWrite(stages, v, n);
      StagesAtMost(stages, v, n);
      assert Cap(n) <= StmtMost(s, v);
    case Evaluate(e) =>
      assert ExprWrites(e, v, n);
      ExprAtMost(e, v, n);
      assert Cap(n) <= StmtMost(s, v);
    case For(_, _, _) => ForAtMost(s, v, n);
    case While(_, _) => WhileAtMost(s, v, n);
    case Function(_) => FunctionAtMost(s, v, n);
  }

  lemma {:induction false} IfAtMost(s: Stmt, v: string, n: nat)
    requires StmtWrites(s, v, n) && s.If?
    ensures Cap(n) <= StmtMost(s, v)
    decreases s, 0
  {
    var a: nat, b: nat :| ExprWrites(s.cond, v, a) && BranchWrites(s, v, b) && n == a + b;
    ExprAtMost(s.cond, v, a);
    if BlockWrites(s.thn, v, b) {
      BlockAtMost(s.thn, v, b);
    } else {
      assert ElseWrites(s, v, b);
      var last: nat :| BlockWrites(s.els, v, last) && ArmsWrite(s.elsifs, v, b, last);
      BlockAtMost(s.els, v, last);
      ArmsAtMost(s.elsifs, v, b, last, BlockMost(s.els, v));
    }
  }

  lemma {:induction false} ForTripAtMost(x: string, body: seq<Stmt>, v: string, n: nat)
    requires ForTripWrites(x, body, v, n)
    ensures Cap(n) <= BlockMost(body, v) + Once(x == v)
    decreases body, 1
  {
    var k: nat :| BlockWrites(body, v, k) && n == k + (if x == v then 1 else 0);
    BlockAtMost(body, v, k);
  }

  lemma {:induction false} WhileTripAtMost(cond: Expr, body: seq<Stmt>, v: string, n: nat)
    requires WhileTripWrites(cond, body, v, n)
    ensures Cap(n) <= ExprMost(cond, v) + BlockMost(body, v)
    decreases While(cond, body), 0
  {
    var a: nat, b: nat :| ExprWrites(cond, v, a) && BlockWrites(body, v, b) && n == a + b;
    ExprAtMost(cond, v, a);
    BlockAtMost(body, v, b);
  }

  lemma CapAdds(a: nat, b: nat, m: nat, n: nat)
    requires Cap(a) <= m && Cap(b) <= n
    ensures Cap(a + b) <= Cap(m + n)
  {
  }

  lemma {:induction false} ForAtMost(s: Stmt, v: string, n: nat)
    requires StmtWrites(s, v, n) && s.For?
    ensures Cap(n) <= StmtMost(s, v)
    decreases s, 1
  {
    var a: nat, trips: seq<nat> :| ExprWrites(s.iter, v, a) && ForTrips(s.x, s.body, v, trips) && n == a + Sum(trips);
    ExprAtMost(s.iter, v, a);
    ForTripsAtMost(s.x, s.body, v, trips);
    CapAdds(a, Sum(trips), ExprMost(s.iter, v), Repeated(BlockMost(s.body, v) + Once(s.x == v)));
  }

  lemma {:induction false} ForTripsAtMost(x: string, body: seq<Stmt>, v: string, trips: seq<nat>)
    requires ForTrips(x, body, v, trips)
    ensures Cap(Sum(trips)) <= Repeated(BlockMost(body, v) + Once(x == v))
    decreases body, 2
  {
    var most := BlockMost(body, v) + Once(x == v);
    forall i | 0 <= i < |trips| ensures Cap(trips[i]) <= most {
      ForTripAtMost(x, body, v, trips[i]);
    }
    RepeatedAtMost(trips, most);
  }

  lemma {:induction false} WhileAtMost(s: Stmt, v: string, n: nat)
    requires StmtWrites(s, v, n) && s.While?
    ensures Cap(n) <= StmtMost(s, v)
    decreases s, 1
  {
    var most := ExprMost(s.cond, v) + BlockMost(s.body, v);
    var last: nat, trips: seq<nat> :| ExprWrites(s.cond, v, last) && n == Sum(trips) + last
                                      && forall i :: 0 <= i < |trips| ==> WhileTripWrites(s.cond, s.body, v, trips[i]);
    ExprAtMost(s.cond, v, last);
    forall i | 0 <= i < |trips| ensures Cap(trips[i]) <= most {
      WhileTripAtMost(s.cond, s.body, v, trips[i]);
    }
    RepeatedAtMost(trips, most);
  }

  lemma {:induction false} FunctionAtMost(s: Stmt, v: string, n: nat)
    requires StmtWrites(s, v, n) && s.Function?
    ensures Cap(n) <= StmtMost(s, v)
    decreases s, 0
  {
    var calls: seq<nat> :| n == Sum(calls) && forall i :: 0 <= i < |calls| ==> BlockWrites(s.body, v, calls[i]);
    forall i | 0 <= i < |calls| ensures Cap(calls[i]) <= BlockMost(s.body, v) {
      BlockAtMost(s.body, v, calls[i]);
    }
    RepeatedAtMost(calls, BlockMost(s.body, v));
  }

  lemma RepeatedAtMost(ns: seq<nat>, most: nat)
    requires forall i :: 0 <= i < |ns| ==> Cap(ns[i]) <= most
    ensures Cap(Sum(ns)) <= Repeated(most)
  {
    if most == 0 {
      SumOfZeros(ns);
    }
  }

  // ---------------------------------------------------------------- some run writes that often

  lemma {:induction false} ExprReaches(e: Expr, v: string) returns (n: nat)
    ensures ExprWrites(e, v, n) && Cap(n) == ExprMost(e, v)
    decreases e, 0
  {
    match e
    case Arrow(body) => n := BlockReaches(body, v);
    case SetVar(x, value) =>
      var k := ExprReaches(value, v);
      n := k + Once(x == v);
    case Builtin(cmd, ws) => n := CommandReaches(cmd, ws, v);
    case Parts(es) => n := ExprsReach(es, v);
    case Assigned(x, value) =>
      var k := ExprReaches(value, v);
      n := k + Once(Hits(x, v));
    case Defaulted(x, value) =>
      var k := ExprReaches(value, v);
      n := k + Once(Hits(x, v));
    case _ => n := ExprMost(e, v);
  }

  lemma {:induction false} CommandReaches(cmd: string, ws: seq<Word>, v: string) returns (n: nat)
    ensures CommandWrites(cmd, ws, v, n) && Cap(n) == CommandMost(cmd, ws, v)
    decreases |ws|
  {
    if cmd in {"command", "builtin"} && ws != [] && ws[0].Text? {
      n := CommandReaches(ws[0].s, ws[1..], v);
    } else {
      n := if cmd in DECLARATIONS then Given(ws, v) else CommandMost(cmd, ws, v);
    }
  }

  lemma {:induction false} ExprsReach(es: seq<Expr>, v: string) returns (n: nat)
    ensures ExprsWrite(es, v, n) && Cap(n) == ExprsMost(es, v)
    decreases es, 0
  {
    n := 0;
    if es != [] {
      var a := ExprReaches(es[0], v);
      var b := ExprsReach(es[1..], v);
      n := a + b;
    }
  }

  lemma {:induction false} BlockReaches(ss: seq<Stmt>, v: string) returns (n: nat)
    ensures BlockWrites(ss, v, n) && Cap(n) == BlockMost(ss, v)
    decreases ss, 0
  {
    n := 0;
    if ss != [] {
      var a := StmtReaches(ss[0], v);
      var b := BlockReaches(ss[1..], v);
      n := a + b;
    }
  }

  lemma {:induction false} ArmsReach(arms: seq<Arm>, v: string, last: nat) returns (n: nat)
    ensures ArmsWrite(arms, v, n, last) && Cap(n) == ArmsMost(arms, v, Cap(last))
    decreases arms, 0
  {
    n := last;
    if arms != [] {
      var a := ExprReaches(arms[0].cond, v);
      var b := BlockReaches(arms[0].body, v);
      var c := ArmsReach(arms[1..], v, last);
      n := a + if Cap(b) < Cap(c) then c else b;
    }
  }

  lemma {:induction false} ClausesReach(clauses: seq<Suite>, v: string) returns (n: nat)
    ensures ClauseWrites(clauses, v, n) && Cap(n) == ClausesMost(clauses, v)
    decreases clauses, 0
  {
    n := 0;
    if clauses != [] {
      var a := BlockReaches(clauses[0].body, v);
      var b := ClausesReach(clauses[1..], v);
      n := if Cap(a) < Cap(b) then b else a;
    }
  }

  lemma {:induction false} StagesReach(stages: seq<Suite>, v: string) returns (n: nat)
    ensures StagesWrite(stages, v, n) && Cap(n) == StagesMost(stages, v)
    decreases stages, 0
  {
    n := 0;
    if stages != [] {
      var a := BlockReaches(stages[0].body, v);
      var b := StagesReach(stages[1..], v);
      n := a + b;
    }
  }

  lemma {:induction false} StmtReaches(s: Stmt, v: string) returns (n: nat)
    ensures StmtWrites(s, v, n) && Cap(n) == StmtMost(s, v)
    decreases s, 1
  {
    match s
    case Assign(x, e) =>
      var k := ExprReaches(e, v);
      n := k + Once(Hits(x, v));
    case If(_, _, _, _) => n := IfReaches(s, v);
    case Group(body, targets) =>
      var a := BlockReaches(body, v);
      var b := ExprsReach(targets, v);
      n := a + b;
    case Case(disc, clauses) =>
      var a := ExprReaches(disc, v);
      var b := ClausesReach(clauses, v);
      n := a + b;
    case Pipeline(stages) => n := StagesReach(stages, v);
    case Evaluate(e) => n := ExprReaches(e, v);
    case For(_, _, _) => n := ForReaches(s, v);
    case While(_, _) => n := WhileReaches(s, v);
    case Function(_) => n := FunctionReaches(s, v);
  }

  lemma {:induction false} IfReaches(s: Stmt, v: string) returns (n: nat)
    requires s.If?
    ensures StmtWrites(s, v, n) && Cap(n) == StmtMost(s, v)
    decreases s, 0
  {
    var a := ExprReaches(s.cond, v);
    var b := BlockReaches(s.thn, v);
    var last := BlockReaches(s.els, v);
    var c := ArmsReach(s.elsifs, v, last);
    var m := if Cap(b) < Cap(c) then c else b;
    assert BranchWrites(s, v, m);
    n := a + m;
  }

  /** Two trips are enough. */
  lemma {:induction false} ForReaches(s: Stmt, v: string) returns (n: nat)
    requires s.For?
    ensures StmtWrites(s, v, n) && Cap(n) == StmtMost(s, v)
    decreases s, 0
  {
    var a := ExprReaches(s.iter, v);
    var b := BlockReaches(s.body, v);
    var trip := b + Once(s.x == v);
    var trips := [trip, trip];
    assert ForTripWrites(s.x, s.body, v, trip);
    assert ForTrips(s.x, s.body, v, trips);
    SumOfTwo(trip);
    n := a + Sum(trips);
  }

  lemma {:induction false} WhileReaches(s: Stmt, v: string) returns (n: nat)
    requires s.While?
    ensures StmtWrites(s, v, n) && Cap(n) == StmtMost(s, v)
    decreases s, 0
  {
    var a := ExprReaches(s.cond, v);
    var b := BlockReaches(s.body, v);
    var trips := [a + b, a + b];
    assert WhileTripWrites(s.cond, s.body, v, a + b);
    SumOfTwo(a + b);
    n := Sum(trips) + a;
  }

  lemma {:induction false} FunctionReaches(s: Stmt, v: string) returns (n: nat)
    requires s.Function?
    ensures StmtWrites(s, v, n) && Cap(n) == StmtMost(s, v)
    decreases s, 0
  {
    var b := BlockReaches(s.body, v);
    var calls := [b, b];
    SumOfTwo(b);
    n := Sum(calls);
  }

  /** For every program and variable: no run writes it more than once if and only if no path, loops and
      functions counted as repeated, has more than one write. */
  lemma WrittenOnceExactly(program: seq<Stmt>, v: string)
    ensures (forall n: nat :: BlockWrites(program, v, n) ==> n <= 1) <==> BlockMost(program, v) <= 1
  {
    var most := BlockReaches(program, v);
    if BlockMost(program, v) <= 1 {
      forall n: nat | BlockWrites(program, v, n) ensures n <= 1 {
        BlockAtMost(program, v, n);
      }
    } else {
      assert BlockWrites(program, v, most) && most > 1;
    }
  }

  // ---------------------------------------------------------------- what the walk misses

  /** The commands whose writes are recorded. */
  predicate IsRecorded(cmd: string) {
    cmd in DECLARATIONS || cmd in STORES || cmd == "let" || cmd in ANYTHING
  }

  /** A write to v that no site stands for. */
  predicate ExprUnseen(e: Expr, v: string)
    decreases e, 0
  {
    match e
    case Arith(_) => false
    case Arrow(body) => BlockUnseen(body, v)
    case SetVar(_, value) => ExprUnseen(value, v)
    case Builtin(cmd, ws) => !IsRecorded(cmd) && CommandMost(cmd, ws, v) > 0
    case Parts(es) => exists i :: 0 <= i < |es| && ExprUnseen(es[i], v)
    case Assigned(x, value) => Hits(x, v) || ExprUnseen(value, v)
    case Defaulted(x, value) => Hits(x, v) || ExprUnseen(value, v)
    case Command(_) => true
  }

  predicate StmtUnseen(s: Stmt, v: string)
    decreases s, 0
  {
    match s
    case Assign(_, e) => ExprUnseen(e, v)
    case If(cond, thn, elsifs, els) =>
      ExprUnseen(cond, v) || BlockUnseen(thn, v) || BlockUnseen(els, v)
      || exists i :: 0 <= i < |elsifs| && (ExprUnseen(elsifs[i].cond, v) || BlockUnseen(elsifs[i].body, v))
    case For(_, iter, body) => ExprUnseen(iter, v) || BlockUnseen(body, v)
    case While(cond, body) => ExprUnseen(cond, v) || BlockUnseen(body, v)
    case Function(body) => BlockUnseen(body, v)
    case Group(body, targets) =>
      BlockUnseen(body, v) || exists i :: 0 <= i < |targets| && ExprUnseen(targets[i], v)
    case Case(disc, clauses) =>
      ExprUnseen(disc, v) || exists i :: 0 <= i < |clauses| && BlockUnseen(clauses[i].body, v)
    case Pipeline(stages) => exists i :: 0 <= i < |stages| && BlockUnseen(stages[i].body, v)
    case Evaluate(e) => ExprUnseen(e, v)
  }

  predicate BlockUnseen(ss: seq<Stmt>, v: string)
    decreases ss, 0
  {
    exists i :: 0 <= i < |ss| && StmtUnseen(ss[i], v)
  }

  /** A site of v in a while condition, or a declaration that names v more than once. */
  predicate ExprRepeats(e: Expr, v: string)
    decreases e, 0
  {
    match e
    case Arrow(body) => BlockRepeats(body, v)
    case SetVar(_, value) => ExprRepeats(value, v)
    case Builtin(cmd, ws) => cmd in DECLARATIONS && Given(ws, v) > 1
    case Parts(es) => exists i :: 0 <= i < |es| && ExprRepeats(es[i], v)
    case Assigned(_, value) => ExprRepeats(value, v)
    case Defaulted(_, value) => ExprRepeats(value, v)
    case _ => false
  }

  predicate StmtRepeats(s: Stmt, v: string)
    decreases s, 0
  {
    match s
    case Assign(_, e) => ExprRepeats(e, v)
    case If(cond, thn, elsifs, els) =>
      ExprRepeats(cond, v) || BlockRepeats(thn, v) || BlockRepeats(els, v)
      || exists i :: 0 <= i < |elsifs| && (ExprRepeats(elsifs[i].cond, v) || BlockRepeats(elsifs[i].body, v))
    case For(_, iter, body) => ExprRepeats(iter, v) || BlockRepeats(body, v)
    case While(cond, body) => OfExpr(cond, false).sites[v] > 0 || ExprRepeats(cond, v) || BlockRepeats(body, v)
    case Function(body) => BlockRepeats(body, v)
    case Group(body, targets) =>
      BlockRepeats(body, v) || exists i :: 0 <= i < |targets| && ExprRepeats(targets[i], v)
    case Case(disc, clauses) =>
      ExprRepeats(disc, v) || exists i :: 0 <= i < |clauses| && BlockRepeats(clauses[i].body, v)
    case Pipeline(stages) => exists i :: 0 <= i < |stages| && BlockRepeats(stages[i].body, v)
    case Evaluate(e) => ExprRepeats(e, v)
  }

  predicate BlockRepeats(ss: seq<Stmt>, v: string)
    decreases ss, 0
  {
    exists i :: 0 <= i < |ss| && StmtRepeats(ss[i], v)
  }

  /** Nothing recorded writes v but plain sites, and none of them is under a loop or function. */
  predicate Plain(acc: Acc, v: string) {
    && v !in acc.multiRun && v !in acc.runtimeWritten
    && v !in acc.arithWritten && v !in acc.indexWritten && !acc.dyn
  }

  // ---------------------------------------------------------------- sites bound the writes that are seen

  /** The writes are at most the sites; under a loop or function there are none. */
  predicate Seen(most: nat, acc: Acc, v: string, multi: bool) {
    most <= acc.sites[v] && (multi ==> most == 0)
  }

  lemma {:induction false} ExprSeen(e: Expr, v: string, multi: bool)
    requires Plain(OfExpr(e, multi), v) && !ExprUnseen(e, v) && !ExprRepeats(e, v)
    ensures Seen(ExprMost(e, v), OfExpr(e, multi), v, multi)
    decreases e, 0
  {
    match e
    case Arith(_) =>
    case Arrow(body) => BlockSeen(body, v, multi);
    case SetVar(_, value) => ExprSeen(value, v, multi);
    case Builtin(cmd, ws) => BuiltinSeen(cmd, ws, v, multi);
    case Parts(es) => ExprsSeen(es, v, multi);
    case Assigned(_, value) => ExprSeen(value, v, multi);
    case Defaulted(_, value) => ExprSeen(value, v, multi);
  }

  lemma BuiltinSeen(cmd: string, ws: seq<Word>, v: string, multi: bool)
    requires Plain(OfBuiltin(cmd, ws, multi), v)
    requires IsRecorded(cmd) || CommandMost(cmd, ws, v) == 0
    requires cmd in DECLARATIONS ==> Given(ws, v) <= 1
    ensures Seen(CommandMost(cmd, ws, v), OfBuiltin(cmd, ws, multi), v, multi)
  {
    hide NamedWords, LetNames, KindOf, Given, StandsInOne;
    KindsAreRight(cmd);
    GivenIsCollected(ws, v);
    LetNamesStandIn(ws, v);
  }

  lemma {:induction false} ExprsSeen(es: seq<Expr>, v: string, multi: bool)
    requires Plain(OfExprs(es, multi), v) && forall i :: 0 <= i < |es| ==> !ExprUnseen(es[i], v) && !ExprRepeats(es[i], v)
    ensures Seen(ExprsMost(es, v), OfExprs(es, multi), v, multi)
    decreases es, 0
  {
    if es != [] {
      ExprSeen(es[0], v, multi);
      ExprsSeen(es[1..], v, multi);
    }
  }

  lemma {:induction false} BlockSeen(ss: seq<Stmt>, v: string, multi: bool)
    requires Plain(OfBlock(ss, multi), v) && !BlockUnseen(ss, v) && !BlockRepeats(ss, v)
    ensures Seen(BlockMost(ss, v), OfBlock(ss, multi), v, multi)
    decreases ss, 0
  {
    if ss != [] {
      StmtSeen(ss[0], v, multi);
      BlockSeen(ss[1..], v, multi);
    }
  }

  lemma {:induction false} SuitesSeen(suites: seq<Suite>, v: string, multi: bool)
    requires Plain(OfSuites(suites, multi), v)
    requires forall i :: 0 <= i < |suites| ==> !BlockUnseen(suites[i].body, v) && !BlockRepeats(suites[i].body, v)
    ensures Seen(StagesMost(suites, v), OfSuites(suites, multi), v, multi)
    ensures Seen(ClausesMost(suites, v), OfSuites(suites, multi), v, multi)
    decreases suites, 0
  {
    if suites != [] {
      BlockSeen(suites[0].body, v, multi);
      SuitesSeen(suites[1..], v, multi);
    }
  }

  lemma {:induction false} ArmsSeen(arms: seq<Arm>, v: string, multi: bool, last: nat)
    requires Plain(OfArms(arms, multi), v)
    requires forall i :: 0 <= i < |arms| ==>
               && !ExprUnseen(arms[i].cond, v) && !ExprRepeats(arms[i].cond, v)
               && !BlockUnseen(arms[i].body, v) && !BlockRepeats(arms[i].body, v)
    ensures ArmsMost(arms, v, last) <= OfArms(arms, multi).sites[v] + last
    ensures multi && last == 0 ==> ArmsMost(arms, v, last) == 0
    decreases arms, 0
  {
    if arms != [] {
      ExprSeen(arms[0].cond, v, multi);
      BlockSeen(arms[0].body, v, multi);
      ArmsSeen(arms[1..], v, multi, last);
    }
  }

  lemma {:induction false} StmtSeen(s: Stmt, v: string, multi: bool)
    requires Plain(OfStmt(s, multi), v) && !StmtUnseen(s, v) && !StmtRepeats(s, v)
    ensures Seen(StmtMost(s, v), OfStmt(s, multi), v, multi)
    decreases s, 1
  {
    match s
    case Assign(_, _) => AssignSeen(s, v, multi);
    case If(_, _, _, _) => IfSeen(s, v, multi);
    case For(_, _, _) => ForSeen(s, v, multi);
    case While(_, _) => WhileSeen(s, v, multi);
    case Function(body) => BlockSeen(body, v, true);
    case Group(body, targets) =>
      BlockSeen(body, v, multi);
      ExprsSeen(targets, v, multi);
    case Case(disc, clauses) =>
      ExprSeen(disc, v, multi);
      SuitesSeen(clauses, v, multi);
    case Pipeline(stages) => SuitesSeen(stages, v, multi);
    case Evaluate(e) => ExprSeen(e, v, multi);
  }

  lemma {:induction false} AssignSeen(s: Stmt, v: string, multi: bool)
    requires s.Assign? && Plain(OfStmt(s, multi), v) && !StmtUnseen(s, v) && !StmtRepeats(s, v)
    ensures Seen(StmtMost(s, v), OfStmt(s, multi), v, multi)
    decreases s, 0
  {
    ExprSeen(s.e, v, multi);
    BaseIsHit(s.x, v);
  }

  lemma {:induction false} IfSeen(s: Stmt, v: string, multi: bool)
    requires s.If? && Plain(OfStmt(s, multi), v) && !StmtUnseen(s, v) && !StmtRepeats(s, v)
    ensures Seen(StmtMost(s, v), OfStmt(s, multi), v, multi)
    decreases s, 0
  {
    ExprSeen(s.cond, v, multi);
    BlockSeen(s.thn, v, multi);
    BlockSeen(s.els, v, multi);
    ArmsSeen(s.elsifs, v, multi, BlockMost(s.els, v));
  }

  lemma {:induction false} ForSeen(s: Stmt, v: string, multi: bool)
    requires s.For? && Plain(OfStmt(s, multi), v) && !StmtUnseen(s, v) && !StmtRepeats(s, v)
    ensures Seen(StmtMost(s, v), OfStmt(s, multi), v, multi)
    decreases s, 0
  {
    ExprSeen(s.iter, v, multi);
    BlockSeen(s.body, v, true);
    assert v != s.x by {
      assert s.x in OfStmt(s, multi).multiRun;
    }
  }

  lemma {:induction false} WhileSeen(s: Stmt, v: string, multi: bool)
    requires s.While? && Plain(OfStmt(s, multi), v) && !StmtUnseen(s, v) && !StmtRepeats(s, v)
    ensures Seen(StmtMost(s, v), OfStmt(s, multi), v, multi)
    decreases s, 0
  {
    ExprSeen(s.cond, v, multi);
    ExprSites(s.cond);
    BlockSeen(s.body, v, true);
  }

  // Where a site stands decides whether it is multi-run, never whether it is counted.

  lemma {:induction false} ExprSites(e: Expr)
    ensures OfExpr(e, true).sites == OfExpr(e, false).sites
    decreases e, 0
  {
    match e
    case Arrow(body) => BlockSites(body);
    case SetVar(_, value) => ExprSites(value);
    case Parts(es) => ExprsSites(es);
    case Assigned(_, value) => ExprSites(value);
    case Defaulted(_, value) => ExprSites(value);
    case Command(args) => ExprsSites(args);
    case _ =>
  }

  lemma {:induction false} ExprsSites(es: seq<Expr>)
    ensures OfExprs(es, true).sites == OfExprs(es, false).sites
    decreases es, 0
  {
    if es != [] {
      ExprSites(es[0]);
      ExprsSites(es[1..]);
    }
  }

  lemma {:induction false} StmtSites(s: Stmt)
    ensures OfStmt(s, true).sites == OfStmt(s, false).sites
    decreases s, 0
  {
    match s
    case Assign(_, e) => ExprSites(e);
    case If(cond, thn, elsifs, els) =>
      ExprSites(cond); BlockSites(thn); ArmsSites(elsifs); BlockSites(els);
    case For(_, iter, _) => ExprSites(iter);
    case While(cond, _) => ExprSites(cond);
    case Function(_) =>
    case Group(body, targets) => BlockSites(body); ExprsSites(targets);
    case Case(disc, clauses) => ExprSites(disc); SuitesSites(clauses);
    case Pipeline(stages) => SuitesSites(stages);
    case Evaluate(e) => ExprSites(e);
  }

  lemma {:induction false} BlockSites(ss: seq<Stmt>)
    ensures OfBlock(ss, true).sites == OfBlock(ss, false).sites
    decreases ss, 0
  {
    if ss != [] {
      StmtSites(ss[0]);
      BlockSites(ss[1..]);
    }
  }

  lemma {:induction false} ArmsSites(arms: seq<Arm>)
    ensures OfArms(arms, true).sites == OfArms(arms, false).sites
    decreases arms, 0
  {
    if arms != [] {
      ExprSites(arms[0].cond);
      BlockSites(arms[0].body);
      ArmsSites(arms[1..]);
    }
  }

  lemma {:induction false} SuitesSites(suites: seq<Suite>)
    ensures OfSuites(suites, true).sites == OfSuites(suites, false).sites
    decreases suites, 0
  {
    if suites != [] {
      BlockSites(suites[0].body);
      SuitesSites(suites[1..]);
    }
  }


  // ---------------------------------------------------------------- every site is a write

  lemma {:induction false} ExprSiteWrites(e: Expr, v: string)
    requires OfExpr(e, false).sites[v] > 0
    ensures ExprMost(e, v) > 0
    decreases e, 0
  {
    match e
    case Arrow(body) => BlockSiteWrites(body, v);
    case SetVar(x, value) =>
      if x != v {
        ExprSiteWrites(value, v);
      }
    case Builtin(cmd, ws) => BuiltinSiteWrites(cmd, ws, v);
    case Parts(es) => ExprsSiteWrites(es, v);
    case Assigned(_, value) => ExprSiteWrites(value, v);
    case Defaulted(_, value) => ExprSiteWrites(value, v);
    case _ =>
  }

  lemma BuiltinSiteWrites(cmd: string, ws: seq<Word>, v: string)
    requires OfBuiltin(cmd, ws, false).sites[v] > 0
    ensures CommandMost(cmd, ws, v) > 0
  {
    hide NamedWords, LetNames, KindOf, Given;
    KindsAreRight(cmd);
    GivenIsCollected(ws, v);
    assert v in NamedWords(ws);
  }

  lemma {:induction false} ExprsSiteWrites(es: seq<Expr>, v: string)
    requires OfExprs(es, false).sites[v] > 0
    ensures ExprsMost(es, v) > 0
    decreases es, 0
  {
    if OfExpr(es[0], false).sites[v] > 0 {
      ExprSiteWrites(es[0], v);
    } else {
      ExprsSiteWrites(es[1..], v);
    }
  }

  lemma {:induction false} BlockSiteWrites(ss: seq<Stmt>, v: string)
    requires OfBlock(ss, false).sites[v] > 0
    ensures BlockMost(ss, v) > 0
    decreases ss, 0
  {
    if OfStmt(ss[0], false).sites[v] > 0 {
      StmtSiteWrites(ss[0], v);
    } else {
      BlockSiteWrites(ss[1..], v);
    }
  }

  lemma {:induction false} SuitesSiteWrites(suites: seq<Suite>, v: string)
    requires OfSuites(suites, false).sites[v] > 0
    ensures StagesMost(suites, v) > 0 && ClausesMost(suites, v) > 0
    decreases suites, 0
  {
    if OfBlock(suites[0].body, false).sites[v] > 0 {
      BlockSiteWrites(suites[0].body, v);
    } else {
      SuitesSiteWrites(suites[1..], v);
    }
  }

  lemma {:induction false} ArmsSiteWrites(arms: seq<Arm>, v: string, last: nat)
    requires OfArms(arms, false).sites[v] > 0 || last > 0
    ensures ArmsMost(arms, v, last) > 0
    decreases arms, 0
  {
    if arms != [] {
      if OfExpr(arms[0].cond, false).sites[v] > 0 {
        ExprSiteWrites(arms[0].cond, v);
      } else if OfBlock(arms[0].body, false).sites[v] > 0 {
        BlockSiteWrites(arms[0].body, v);
      } else {
        ArmsSiteWrites(arms[1..], v, last);
      }
    }
  }

  lemma {:induction false} StmtSiteWrites(s: Stmt, v: string)
    requires OfStmt(s, false).sites[v] > 0
    ensures StmtMost(s, v) > 0
    decreases s, 1
  {
    match s
    case Assign(x, e) =>
      BaseIsHit(x, v);
      if '[' in x || x != v {
        ExprSiteWrites(e, v);
      }
    case If(_, _, _, _) => IfSiteWrites(s, v);
    case For(_, _, _) | While(_, _) | Function(_) => LoopSiteWrites(s, v);
    case Group(_, _) | Case(_, _) => GroupSiteWrites(s, v);
    case Pipeline(stages) => SuitesSiteWrites(stages, v);
    case Evaluate(e) => ExprSiteWrites(e, v);
  }

  lemma {:induction false} IfSiteWrites(s: Stmt, v: string)
    requires s.If? && OfStmt(s, false).sites[v] > 0
    ensures StmtMost(s, v) > 0
    decreases s, 0
  {
    if OfExpr(s.cond, false).sites[v] > 0 {
      ExprSiteWrites(s.cond, v);
    } else if OfBlock(s.thn, false).sites[v] > 0 {
      BlockSiteWrites(s.thn, v);
    } else {
      if OfBlock(s.els, false).sites[v] > 0 {
        BlockSiteWrites(s.els, v);
      }
      ArmsSiteWrites(s.elsifs, v, BlockMost(s.els, v));
    }
  }

  lemma {:induction false} LoopSiteWrites(s: Stmt, v: string)
    requires OfStmt(s, false).sites[v] > 0 && (s.For? || s.While? || s.Function?)
    ensures StmtMost(s, v) > 0
    decreases s, 0
  {
    BlockSites(s.body);
    if OfBlock(s.body, false).sites[v] > 0 {
      BlockSiteWrites(s.body, v);
    } else if s.While? {
      ExprSiteWrites(s.cond, v);
    } else if s.For? && s.x != v {
      ExprSiteWrites(s.iter, v);
    }
  }

  lemma {:induction false} GroupSiteWrites(s: Stmt, v: string)
    requires OfStmt(s, false).sites[v] > 0 && (s.Group? || s.Case?)
    ensures StmtMost(s, v) > 0
    decreases s, 0
  {
    match s
    case Group(body, targets) =>
      if OfBlock(body, false).sites[v] > 0 {
        BlockSiteWrites(body, v);
      } else {
        ExprsSiteWrites(targets, v);
      }
    case Case(disc, clauses) =>
      if OfExpr(disc, false).sites[v] > 0 {
        ExprSiteWrites(disc, v);
      } else {
        SuitesSiteWrites(clauses, v);
      }
  }

  // ---------------------------------------------------------------- repetition is more than one write

  lemma {:induction false} ExprRepeatsMost(e: Expr, v: string)
    requires ExprRepeats(e, v)
    ensures ExprMost(e, v) == 2
    decreases e, 0
  {
    match e
    case Arrow(body) => BlockRepeatsMost(body, v);
    case SetVar(_, value) => ExprRepeatsMost(value, v);
    case Builtin(cmd, ws) =>
    case Parts(es) =>
      var i :| 0 <= i < |es| && ExprRepeats(es[i], v);
      ExprRepeatsMost(es[i], v);
      ExprsMostAt(es, v, i);
    case Assigned(_, value) => ExprRepeatsMost(value, v);
    case Defaulted(_, value) => ExprRepeatsMost(value, v);
  }

  lemma {:induction false} ExprsMostAt(es: seq<Expr>, v: string, i: nat)
    requires i < |es|
    ensures ExprMost(es[i], v) <= ExprsMost(es, v)
    decreases i
  {
    if i > 0 {
      ExprsMostAt(es[1..], v, i - 1);
    }
  }

  lemma {:induction false} BlockMostAt(ss: seq<Stmt>, v: string, i: nat)
    requires i < |ss|
    ensures StmtMost(ss[i], v) <= BlockMost(ss, v)
    decreases i
  {
    if i > 0 {
      BlockMostAt(ss[1..], v, i - 1);
    }
  }

  lemma {:induction false} SuitesMostAt(suites: seq<Suite>, v: string, i: nat)
    requires i < |suites|
    ensures BlockMost(suites[i].body, v) <= StagesMost(suites, v)
    ensures BlockMost(suites[i].body, v) <= ClausesMost(suites, v)
    decreases i
  {
    if i > 0 {
      SuitesMostAt(suites[1..], v, i - 1);
    }
  }

  lemma {:induction false} ArmsMostAt(arms: seq<Arm>, v: string, last: nat, i: nat)
    requires i < |arms|
    ensures ExprMost(arms[i].cond, v) <= ArmsMost(arms, v, last)
    ensures BlockMost(arms[i].body, v) <= ArmsMost(arms, v, last)
    decreases i
  {
    if i > 0 {
      ArmsMostAt(arms[1..], v, last, i - 1);
    }
  }

  lemma {:induction false} ArmsMostLast(arms: seq<Arm>, v: string, last: nat)
    ensures Cap(last) <= ArmsMost(arms, v, last)
    decreases |arms|
  {
    if arms != [] {
      ArmsMostLast(arms[1..], v, last);
    }
  }

  lemma {:induction false} BlockRepeatsMost(ss: seq<Stmt>, v: string)
    requires BlockRepeats(ss, v)
    ensures BlockMost(ss, v) == 2
    decreases ss, 0
  {
    var i :| 0 <= i < |ss| && StmtRepeats(ss[i], v);
    StmtRepeatsMost(ss[i], v);
    BlockMostAt(ss, v, i);
  }

  lemma {:induction false} StmtRepeatsMost(s: Stmt, v: string)
    requires StmtRepeats(s, v)
    ensures StmtMost(s, v) == 2
    decreases s, 1
  {
    match s
    case Assign(_, e) => ExprRepeatsMost(e, v);
    case If(_, _, _, _) => IfRepeatsMost(s, v);
    case For(_, iter, body) =>
      if BlockRepeats(body, v) { BlockRepeatsMost(body, v); } else { ExprRepeatsMost(iter, v); }
    case While(cond, body) =>
      if BlockRepeats(body, v) {
        BlockRepeatsMost(body, v);
      } else if ExprRepeats(cond, v) {
        ExprRepeatsMost(cond, v);
      } else {
        ExprSiteWrites(cond, v);
      }
    case Function(body) => BlockRepeatsMost(body, v);
    case Group(body, targets) =>
      if BlockRepeats(body, v) {
        BlockRepeatsMost(body, v);
      } else {
        var i :| 0 <= i < |targets| && ExprRepeats(targets[i], v);
        ExprRepeatsMost(targets[i], v);
        ExprsMostAt(targets, v, i);
      }
    case Case(disc, clauses) =>
      if ExprRepeats(disc, v) { ExprRepeatsMost(disc, v); } else { SuitesRepeatMost(clauses, v); }
    case Pipeline(stages) => SuitesRepeatMost(stages, v);
    case Evaluate(e) => ExprRepeatsMost(e, v);
  }

  lemma {:induction false} SuitesRepeatMost(suites: seq<Suite>, v: string)
    requires exists i :: 0 <= i < |suites| && BlockRepeats(suites[i].body, v)
    ensures StagesMost(suites, v) == 2 && ClausesMost(suites, v) == 2
    decreases suites, 0
  {
    var i :| 0 <= i < |suites| && BlockRepeats(suites[i].body, v);
    BlockRepeatsMost(suites[i].body, v);
    SuitesMostAt(suites, v, i);
  }

  lemma {:induction false} IfRepeatsMost(s: Stmt, v: string)
    requires s.If? && StmtRepeats(s, v)
    ensures StmtMost(s, v) == 2
    decreases s, 0
  {
    var last := BlockMost(s.els, v);
    if ExprRepeats(s.cond, v) {
      ExprRepeatsMost(s.cond, v);
    } else if BlockRepeats(s.thn, v) {
      BlockRepeatsMost(s.thn, v);
    } else if BlockRepeats(s.els, v) {
      BlockRepeatsMost(s.els, v);
      ArmsMostLast(s.elsifs, v, last);
    } else {
      var i :| 0 <= i < |s.elsifs| && (ExprRepeats(s.elsifs[i].cond, v) || BlockRepeats(s.elsifs[i].body, v));
      ArmsMostAt(s.elsifs, v, last, i);
      if ExprRepeats(s.elsifs[i].cond, v) {
        ExprRepeatsMost(s.elsifs[i].cond, v);
      } else {
        BlockRepeatsMost(s.elsifs[i].body, v);
      }
    }
  }

  // ---------------------------------------------------------------- which variables get the verdict

  /** A plain write counts once, twice where it may be repeated; every other kind of write counts twice. */
  function SiteWeight(hit: bool, multi: bool): nat {
    if !hit then 0 else if multi then 2 else 1
  }

  function Twice(hit: bool): nat { if hit then 2 else 0 }

  /** The writes of v in an expression, wherever they stand and whatever path leads there. */
  function ExprWeight(e: Expr, v: string, multi: bool): nat
    decreases e, 0
  {
    match e
    case Arith(a) => Twice(v in G.WrittenVars(a))
    case Arrow(body) => BlockWeight(body, v, multi)
    case SetVar(x, value) => SiteWeight(x == v, multi) + ExprWeight(value, v, multi)
    case Builtin(cmd, ws) =>
      if cmd in DECLARATIONS then SiteWeight(Given(ws, v) > 0, multi)
      else if cmd in STORES then Twice(Given(ws, v) > 0)
      else if cmd == "let" then Twice(StandsInOne(ws, v))
      else Twice(cmd in ANYTHING)
    case Parts(es) => ExprsWeight(es, v, multi)
    case Assigned(_, value) => ExprWeight(value, v, multi)
    case Defaulted(_, value) => ExprWeight(value, v, multi)
    case Command(args) => ExprsWeight(args, v, multi)
  }

  function ExprsWeight(es: seq<Expr>, v: string, multi: bool): nat
    decreases es, 0
  {
    if es == [] then 0 else ExprWeight(es[0], v, multi) + ExprsWeight(es[1..], v, multi)
  }

  /** Loop and function bodies are repeated; a loop's variable is written each trip. */
  function StmtWeight(s: Stmt, v: string, multi: bool): nat
    decreases s, 0
  {
    match s
    case Assign(x, e) => TargetWeight(x, v, multi) + ExprWeight(e, v, multi)
    case If(cond, thn, elsifs, els) =>
      ExprWeight(cond, v, multi) + BlockWeight(thn, v, multi) + ArmsWeight(elsifs, v, multi) + BlockWeight(els, v, multi)
    case For(x, iter, body) => Twice(x == v) + ExprWeight(iter, v, multi) + BlockWeight(body, v, true)
    case While(cond, body) => ExprWeight(cond, v, multi) + BlockWeight(body, v, true)
    case Function(body) => BlockWeight(body, v, true)
    case Group(body, targets) => BlockWeight(body, v, multi) + ExprsWeight(targets, v, multi)
    case Case(disc, clauses) => ExprWeight(disc, v, multi) + SuitesWeight(clauses, v, multi)
    case Pipeline(stages) => SuitesWeight(stages, v, multi)
    case Evaluate(e) => ExprWeight(e, v, multi)
  }

  function BlockWeight(ss: seq<Stmt>, v: string, multi: bool): nat
    decreases ss, 0
  {
    if ss == [] then 0 else StmtWeight(ss[0], v, multi) + BlockWeight(ss[1..], v, multi)
  }

  function ArmsWeight(arms: seq<Arm>, v: string, multi: bool): nat
    decreases arms, 0
  {
    if arms == [] then 0
    else ExprWeight(arms[0].cond, v, multi) + BlockWeight(arms[0].body, v, multi) + ArmsWeight(arms[1..], v, multi)
  }

  function SuitesWeight(suites: seq<Suite>, v: string, multi: bool): nat
    decreases suites, 0
  {
    if suites == [] then 0 else BlockWeight(suites[0].body, v, multi) + SuitesWeight(suites[1..], v, multi)
  }

  /** What has been recorded of v weighs w. */
  predicate Weighs(acc: Acc, v: string, w: nat) {
    if Plain(acc, v) then acc.sites[v] == w else w >= 2
  }

  lemma WeightsAdd(a: Acc, b: Acc, v: string, m: nat, n: nat)
    requires Weighs(a, v, m) && Weighs(b, v, n)
    ensures Weighs(Plus(a, b), v, m + n)
  {
  }

  lemma SiteWeighs(x: string, v: string, multi: bool)
    ensures Weighs(Site(x, multi), v, SiteWeight(x == v, multi))
  {
  }

  lemma {:induction false} ExprWeighs(e: Expr, v: string, multi: bool)
    ensures Weighs(OfExpr(e, multi), v, ExprWeight(e, v, multi))
    decreases e, 0
  {
    hide Weighs, Plus, Site, OfBuiltin;
    match e
    case Arith(a) => assert Weighs(OfExpr(e, multi), v, ExprWeight(e, v, multi)) by { ArithWeighs(a, v, multi); }
    case Arrow(body) => BlockWeighs(body, v, multi);
    case SetVar(x, value) =>
      SiteWeighs(x, v, multi);
      ExprWeighs(value, v, multi);
      WeightsAdd(Site(x, multi), OfExpr(value, multi), v, SiteWeight(x == v, multi), ExprWeight(value, v, multi));
    case Builtin(cmd, ws) => BuiltinWeighs(cmd, ws, v, multi);
    case Parts(es) => ExprsWeigh(es, v, multi);
    case Assigned(_, value) => ExprWeighs(value, v, multi);
    case Defaulted(_, value) => ExprWeighs(value, v, multi);
    case Command(args) => ExprsWeigh(args, v, multi);
  }

  lemma ArithWeighs(a: A.Ast, v: string, multi: bool)
    ensures Weighs(OfExpr(Arith(a), multi), v, ExprWeight(Arith(a), v, multi))
  {
  }

  lemma BuiltinWeighs(cmd: string, ws: seq<Word>, v: string, multi: bool)
    ensures Weighs(OfBuiltin(cmd, ws, multi), v, ExprWeight(Builtin(cmd, ws), v, multi))
  {
    hide NamedWords, LetNames, KindOf, Given, StandsInOne;
    KindsAreRight(cmd);
    GivenIsCollected(ws, v);
    LetNamesStandIn(ws, v);
  }

  lemma {:induction false} ExprsWeigh(es: seq<Expr>, v: string, multi: bool)
    ensures Weighs(OfExprs(es, multi), v, ExprsWeight(es, v, multi))
    decreases es, 0
  {
    if es != [] {
      ExprWeighs(es[0], v, multi);
      ExprsWeigh(es[1..], v, multi);
      WeightsAdd(OfExpr(es[0], multi), OfExprs(es[1..], multi), v, ExprWeight(es[0], v, multi), ExprsWeight(es[1..], v, multi));
    }
  }

  lemma {:induction false} BlockWeighs(ss: seq<Stmt>, v: string, multi: bool)
    ensures Weighs(OfBlock(ss, multi), v, BlockWeight(ss, v, multi))
    decreases ss, 0
  {
    if ss != [] {
      StmtWeighs(ss[0], v, multi);
      BlockWeighs(ss[1..], v, multi);
      WeightsAdd(OfStmt(ss[0], multi), OfBlock(ss[1..], multi), v, StmtWeight(ss[0], v, multi), BlockWeight(ss[1..], v, multi));
    }
  }

  lemma {:induction false} ArmsWeigh(arms: seq<Arm>, v: string, multi: bool)
    ensures Weighs(OfArms(arms, multi), v, ArmsWeight(arms, v, multi))
    decreases arms, 0
  {
    hide Weighs;
    if arms == [] {
      assert Weighs(NOTHING, v, 0) by { NothingWeighs(v); }
    } else {
      var c, b := ExprWeight(arms[0].cond, v, multi), BlockWeight(arms[0].body, v, multi);
      ExprWeighs(arms[0].cond, v, multi);
      BlockWeighs(arms[0].body, v, multi);
      ArmsWeigh(arms[1..], v, multi);
      WeightsAdd(OfExpr(arms[0].cond, multi), OfBlock(arms[0].body, multi), v, c, b);
      WeightsAdd(Plus(OfExpr(arms[0].cond, multi), OfBlock(arms[0].body, multi)), OfArms(arms[1..], multi), v, c + b, ArmsWeight(arms[1..], v, multi));
    }
  }

  lemma NothingWeighs(v: string)
    ensures Weighs(NOTHING, v, 0)
  {
  }

  lemma {:induction false} SuitesWeigh(suites: seq<Suite>, v: string, multi: bool)
    ensures Weighs(OfSuites(suites, multi), v, SuitesWeight(suites, v, multi))
    decreases suites, 0
  {
    if suites != [] {
      BlockWeighs(suites[0].body, v, multi);
      SuitesWeigh(suites[1..], v, multi);
      WeightsAdd(OfBlock(suites[0].body, multi), OfSuites(suites[1..], multi), v, BlockWeight(suites[0].body, v, multi), SuitesWeight(suites[1..], v, multi));
    }
  }

  lemma {:induction false} StmtWeighs(s: Stmt, v: string, multi: bool)
    ensures Weighs(OfStmt(s, multi), v, StmtWeight(s, v, multi))
    decreases s, 1
  {
    hide Weighs, Plus, Site, OfTarget;
    match s
    case Assign(x, e) =>
      TargetWeighs(x, v, multi);
      ExprWeighs(e, v, multi);
      WeightsAdd(OfTarget(x, multi), OfExpr(e, multi), v, TargetWeight(x, v, multi), ExprWeight(e, v, multi));
    case If(_, _, _, _) => IfWeighs(s, v, multi);
    case For(x, iter, body) =>
      SiteWeighs(x, v, true);
      ExprWeighs(iter, v, multi);
      BlockWeighs(body, v, true);
      var i, b := ExprWeight(iter, v, multi), BlockWeight(body, v, true);
      WeightsAdd(Site(x, true), OfExpr(iter, multi), v, Twice(x == v), i);
      WeightsAdd(Plus(Site(x, true), OfExpr(iter, multi)), OfBlock(body, true), v, Twice(x == v) + i, b);
    case While(cond, body) =>
      ExprWeighs(cond, v, multi);
      BlockWeighs(body, v, true);
      WeightsAdd(OfExpr(cond, multi), OfBlock(body, true), v, ExprWeight(cond, v, multi), BlockWeight(body, v, true));
    case Function(body) => BlockWeighs(body, v, true);
    case Group(body, targets) =>
      BlockWeighs(body, v, multi);
      ExprsWeigh(targets, v, multi);
      WeightsAdd(OfBlock(body, multi), OfExprs(targets, multi), v, BlockWeight(body, v, multi), ExprsWeight(targets, v, multi));
    case Case(disc, clauses) =>
      ExprWeighs(disc, v, multi);
      SuitesWeigh(clauses, v, multi);
      WeightsAdd(OfExpr(disc, multi), OfSuites(clauses, multi), v, ExprWeight(disc, v, multi), SuitesWeight(clauses, v, multi));
    case Pipeline(stages) => SuitesWeigh(stages, v, multi);
    case Evaluate(e) => ExprWeighs(e, v, multi);
  }

  function TargetWeight(x: string, v: string, multi: bool): nat {
    if '[' in x then Twice(Hits(x, v)) else SiteWeight(x == v, multi)
  }

  lemma TargetWeighs(x: string, v: string, multi: bool)
    ensures Weighs(OfTarget(x, multi), v, TargetWeight(x, v, multi))
  {
    BaseIsHit(x, v);
  }

  lemma {:induction false} IfWeighs(s: Stmt, v: string, multi: bool)
    requires s.If?
    ensures Weighs(OfStmt(s, multi), v, StmtWeight(s, v, multi))
    decreases s, 0
  {
    hide Weighs, Plus;
    ExprWeighs(s.cond, v, multi);
    BlockWeighs(s.thn, v, multi);
    ArmsWeigh(s.elsifs, v, multi);
    BlockWeighs(s.els, v, multi);
    var a, b := ExprWeight(s.cond, v, multi), BlockWeight(s.thn, v, multi);
    var c, d := ArmsWeight(s.elsifs, v, multi), BlockWeight(s.els, v, multi);
    WeightsAdd(OfExpr(s.cond, multi), OfBlock(s.thn, multi), v, a, b);
    WeightsAdd(OfArms(s.elsifs, multi), OfBlock(s.els, multi), v, c, d);
    WeightsAdd(Plus(OfExpr(s.cond, multi), OfBlock(s.thn, multi)), Plus(OfArms(s.elsifs, multi), OfBlock(s.els, multi)), v, a + b, c + d);
  }

  /** The verdict, for every program: v is Const if and only if one plain write to it, that no loop and no
      function repeats, is all that is written of it anywhere the walk looks. A `read`, `readarray`, `mapfile`
      or `unset` of v, a `let` or an arithmetic text that writes it, an assignment to an element, or any
      `eval`, `source` or `.` is already too much. */
  lemma ConstVerdictExactly(program: seq<Stmt>, v: string)
    ensures IsConst(OfBlock(program, false), v) <==> BlockWeight(program, v, false) == 1
  {
    BlockWeighs(program, v, false);
  }

  /** So a variable that is read into is not Const, whatever stands around. */
  lemma StoredIsNotConst(before: seq<Stmt>, cmd: string, ws: seq<Word>, behind: seq<Stmt>, v: string)
    requires cmd in {"read", "readarray", "mapfile", "unset"} && Given(ws, v) > 0
    ensures !IsConst(OfBlock(before + [Evaluate(Builtin(cmd, ws))] + behind, false), v)
  {
    var command := Evaluate(Builtin(cmd, ws));
    ConstVerdictExactly(before + [command] + behind, v);
    assert before + [command] + behind == before + ([command] + behind);
    WeightOfConcat(before, [command] + behind, v);
    assert cmd in STORES && cmd !in DECLARATIONS && StmtWeight(command, v, false) == 2;
    assert ([command] + behind)[0] == command;
  }

  lemma {:induction false} WeightOfConcat(a: seq<Stmt>, b: seq<Stmt>, v: string)
    ensures BlockWeight(a + b, v, false) == BlockWeight(a, v, false) + BlockWeight(b, v, false)
    decreases |a|
  {
    if a == [] {
      assert a + b == b;
    } else {
      assert (a + b)[1..] == a[1..] + b;
      WeightOfConcat(a[1..], b, v);
    }
  }

  // ---------------------------------------------------------------- the verdict

  /** A variable with verdict Const is written at most once in every run exactly when no path writes it
      twice. If every write to it is seen, that is exactly when its site is in no while condition, which
      is recorded as if evaluated once, and in no declaration that names it twice, which is recorded as
      one site. */
  lemma ConstIsWrittenOnceExactly(program: seq<Stmt>, v: string)
    requires IsConst(OfBlock(program, false), v)
    ensures (forall n: nat :: BlockWrites(program, v, n) ==> n <= 1) <==> BlockMost(program, v) <= 1
    ensures !BlockUnseen(program, v) ==> (BlockMost(program, v) <= 1 <==> !BlockRepeats(program, v))
  {
    WrittenOnceExactly(program, v);
    if BlockRepeats(program, v) {
      BlockRepeatsMost(program, v);
    } else if !BlockUnseen(program, v) {
      BlockSeen(program, v, false);
    }
  }

  /** `x=1; true && x=2` */
  function UnseenAssignment(): seq<Stmt> {
    [Assign("x", Parts([])), Evaluate(Parts([Parts([]), Assigned("x", Parts([]))]))]
  }

  /** The second assignment stands where a command is expected and is not recorded: x gets the verdict
      Const and is written twice. */
  lemma UnseenAssignmentIsMissed()
    ensures IsConst(OfBlock(UnseenAssignment(), false), "x") && !BlockRepeats(UnseenAssignment(), "x")
    ensures BlockWrites(UnseenAssignment(), "x", 2)
  {
    UnseenSecond();
    var p := UnseenAssignment();
    var first := p[0];
    assert OfExpr(first.e, false) == NOTHING;
    assert OfStmt(first, false) == Site("x", false);
    assert p[1..] == [p[1]];
    assert OfBlock(p, false) == Plus(Site("x", false), NOTHING);
    assert Hits("x", "x");
    assert ExprWrites(first.e, "x", 0) && StmtWrites(first, "x", 1);
  }

  lemma UnseenSecond()
    ensures var second := UnseenAssignment()[1];
            && OfBlock([second], false) == NOTHING && BlockWrites([second], "x", 1)
            && !StmtRepeats(second, "x")
  {
    var second := UnseenAssignment()[1];
    var nothing, write := Parts([]), Assigned("x", Parts([]));
    var es := [nothing, write];
    assert es[1..] == [write] && [write][1..] == [] && [second][1..] == [];
    OneMoreWrite(es);
    assert OfExprs([write], false) == NOTHING && OfExprs(es, false) == NOTHING by {
      assert OfExpr(nothing, false) == NOTHING && OfExpr(write, false) == NOTHING;
    }
    assert OfStmt(second, false) == NOTHING;
    assert !ExprRepeats(nothing, "x") && !ExprRepeats(write, "x");
  }

  lemma OneMoreWrite(es: seq<Expr>)
    requires es == [Parts([]), Assigned("x", Parts([]))]
    ensures BlockWrites([Evaluate(Parts(es))], "x", 1)
  {
    var second := Evaluate(Parts(es));
    assert es[1..] == [es[1]] && es[1..][1..] == [];
    assert Hits("x", "x");
    assert ExprWrites(es[0], "x", 0) && ExprWrites(es[1], "x", 1);
    assert ExprsWrite(es[1..], "x", 1) && ExprsWrite(es, "x", 1);
    assert StmtWrites(second, "x", 1);
    AloneWrites(second, "x", 1);
  }

  lemma AloneWrites(s: Stmt, v: string, n: nat)
    requires StmtWrites(s, v, n)
    ensures BlockWrites([s], v, n)
  {
    var ss := [s];
    assert StmtWrites(ss[0], v, n) && BlockWrites(ss[1..], v, 0);
    assert n == n + 0;
  }

  /** `declare x=1 x=2` */
  function TwoDeclarations(): Expr { Builtin("declare", [Text("x=1"), Text("x=2")]) }

  /** It is recorded as one site, so x gets the verdict Const, and writes x twice. */
  lemma RepeatedDeclarationIsOneSite()
    ensures IsConst(OfBlock([Evaluate(TwoDeclarations())], false), "x")
    ensures BlockWrites([Evaluate(TwoDeclarations())], "x", 2)
  {
    OneSite();
    TwoWrites();
  }

  lemma OneSite()
    ensures IsConst(OfBlock([Evaluate(TwoDeclarations())], false), "x")
  {
    hide OfBuiltin, IsConst, NamedWords, Elements, KindOf;
    DeclaredOnce();
    BlockOfOne(Evaluate(TwoDeclarations()));
  }

  lemma BlockOfOne(s: Stmt)
    ensures OfBlock([s], false) == OfStmt(s, false)
  {
    hide OfStmt, Plus;
    assert [s][1..] == [];
    PlusNothing(OfStmt(s, false));
  }

  lemma DeclaredOnce()
    ensures IsConst(OfBuiltin("declare", TwoDeclarations().words, false), "x")
  {
    NamedTwice();
    hide NamedWords, BeforeEquals;
    assert Elements(["x", "x"]) == {"x"};
    assert KindOf("declare") == Declares;
  }

  lemma TwoWrites()
    ensures BlockWrites([Evaluate(TwoDeclarations())], "x", 2)
  {
    NamedTwice();
    hide NamedWords;
    var program := [Evaluate(TwoDeclarations())];
    assert multiset(["x", "x"])["x"] == 2;
    assert ExprWrites(TwoDeclarations(), "x", 2);
    assert StmtWrites(program[0], "x", 2);
    AloneWrites(program[0], "x", 2);
  }

  lemma NamedTwice()
    ensures NamedWords([Text("x=1"), Text("x=2")]) == ["x", "x"]
  {
    var ws := [Text("x=1"), Text("x=2")];
    assert BeforeEquals("=1") == "" && BeforeEquals("=2") == "";
    assert "x=1"[1..] == "=1" && "x=2"[1..] == "=2";
    assert BeforeEquals("x=1") == "x" && BeforeEquals("x=2") == "x" && IsPlainIdent("x");
    assert ws[1..] == [ws[1]] && ws[1..][1..] == [];
    assert NamedWords(ws[1..]) == ["x"];
  }
}
