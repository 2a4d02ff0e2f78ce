/** Abstract execution of Python statements over the interval env: assignments, augmented
    assignments, branch joins, and the two ways a `for` loop is run. */
module PyLoops {
  import opened Intervals
  import opened Options
  import opened PyText
  import opened PyEval
  import opened PyEvalProof
  import opened PyEvalSound

  /** An env as the source keeps it: only names with a known interval are present. */
  type Facts = m: Env | forall x :: x in m ==> m[x].Known?

  /** The statements of a loop body. A branch list is the blocks of if/elif/else in order. */
  datatype Stmt =
    | Assign(targets: seq<string>, rhs: Expr)
    | Aug(x: string, op: BinOp, rhs: Expr)
    | If(branches: seq<Suite>, hasElse: bool)

  datatype Suite = Suite(stmts: seq<Stmt>)

  // ---------------------------------------------------------------- the abstract run

  function Set(e: Facts, x: string, v: Interval): Facts {
    if v.Known? then e[x := v] else e - {x}
  }

  function SetAll(e: Facts, xs: seq<string>, v: Interval): Facts
    decreases xs
  {
    if xs == [] then e else SetAll(Set(e, xs[0], v), xs[1..], v)
  }

  function ApplyAug(op: BinOp, a: Interval, b: Interval): Interval {
    if op.Div? || op.FloorDiv? then Top else ApplyBin(Symbol(op)[0].c, a, b)
  }

  function JoinFrom(e: Facts, o: Facts): Facts {
    map x | x in e && x in o :: Join(e[x], o[x])
  }

  function AbsStmt(s: Stmt, e: Facts): Facts
    decreases s, 0
  {
    match s
    case Assign(xs, rhs) => SetAll(e, xs, EvalText(Text(rhs), e, 0))
    case Aug(x, op, rhs) =>
      Set(e, x, if x in e then ApplyAug(op, e[x], EvalText(Text(rhs), e, 0)) else Top)
    case If(branches, _) => if branches == [] then e else AbsJoin(branches, e)
  }

  function AbsBlock(ss: seq<Stmt>, e: Facts): Facts
    decreases ss, 0
  {
    if ss == [] then e else AbsBlock(ss[1..], AbsStmt(ss[0], e))
  }

  /** The join of every branch run from the same env, the last joined in last. */
  function AbsJoin(bs: seq<Suite>, e: Facts): Facts
    requires bs != []
    decreases bs, 0
  {
    var last := AbsBlock(bs[|bs| - 1].stmts, e);
    if |bs| == 1 then last else JoinFrom(AbsJoin(bs[..|bs| - 1], e), last)
  }

  function AbsTimes(ss: seq<Stmt>, e: Facts, k: nat): Facts {
    if k == 0 then e else AbsBlock(ss, AbsTimes(ss, e, k - 1))
  }

  /** n trips, the target rebound to the element interval before each. */
  function AbsUnrolled(target: string, elem: Interval, ss: seq<Stmt>, e: Facts, n: nat): Facts {
    if n == 0 then e else AbsBlock(ss, Set(AbsUnrolled(target, elem, ss, e, n - 1), target, elem))
  }

  const PASSES: nat := 6

  /** The analysis state, updated in place as the tree is walked. */
  class RangeRun {
    var e: Facts

    constructor (seed: Facts)
      ensures e == seed
    {
      e := seed;
    }

    method RunStmt(s: Stmt)
      modifies this
      ensures e == AbsStmt(s, old(e))
      decreases s, 0
    {
      match s {
        case Assign(xs, rhs) =>
          var v := EvalText(Text(rhs), e, 0);
          for i := 0 to |xs|
            invariant SetAll(e, xs[i..], v) == SetAll(old(e), xs, v)
          {
            assert xs[i..][1..] == xs[i + 1..];
            e := Set(e, xs[i], v);
          }
        case Aug(x, op, rhs) =>
          var r := EvalText(Text(rhs), e, 0);
          var out: Interval := Top;
          if x in e {
            out := ApplyAug(op, e[x], r);
          }
          e := Set(e, x, out);
        case If(branches, _) => RunIf(branches);
      }
    }

    method RunBlock(ss: seq<Stmt>)
      modifies this
      ensures e == AbsBlock(ss, old(e))
      decreases ss, 0
    {
      for i := 0 to |ss|
        invariant AbsBlock(ss[i..], e) == AbsBlock(ss, old(e))
      {
        assert ss[i..][1..] == ss[i + 1..];
        RunStmt(ss[i]);
      }
    }

    /** Every block runs on a copy of the entry env; the copies are joined one by one. */
    method RunIf(branches: seq<Suite>)
      modifies this
      ensures e == if branches == [] then old(e) else AbsJoin(branches, old(e))
      decreases branches, 0
    {
      if branches == [] {
        return;
      }
      var entry: Facts := e;
      var merged: Facts := entry;
      for i := 0 to |branches|
        invariant i > 0 ==> merged == AbsJoin(branches[..i], entry)
        invariant e == entry
      {
        RunBlock(branches[i].stmts);
        var be := e;
        assert branches[..i + 1][..i] == branches[..i];
        merged := if i == 0 then be else JoinFrom(merged, be);
        e := entry;
      }
      assert branches[..|branches|] == branches;
      e := merged;
    }

    /** The bounded path: the body runs once per list element, the target rebound each trip. */
    method RunList(target: string, elem: Interval, ss: seq<Stmt>, length: nat)
      modifies this
      ensures e == AbsUnrolled(target, elem, ss, old(e), length)
    {
      for k := 0 to length
        invariant e == AbsUnrolled(target, elem, ss, old(e), k)
      {
        e := Set(e, target, elem);
        RunBlock(ss);
      }
    }

    /** The fixed-point path: bind the target once, then run the body until a pass changes
        nothing, six passes at most; what the sixth still changes is dropped. */
    method RunFor(target: string, counter: Interval, ss: seq<Stmt>) returns (stable: bool, ghost k: nat)
      modifies this
      ensures 1 <= k <= 6
      ensures var e0 := Set(old(e), target, counter);
              if stable then AbsTimes(ss, e0, k) == AbsTimes(ss, e0, k - 1) == e
              else e == Unchanged(AbsTimes(ss, e0, 6), AbsTimes(ss, e0, 5))
    {
      hide Set, AbsBlock, Unchanged;
      e := Set(e, target, counter);
      ghost var e0 := e;
      k := 0;
      for i := 0 to PASSES
        invariant k == i && k < PASSES && e == AbsTimes(ss, e0, i)
      {
        var before := e;
        RunBlock(ss);
        k := i + 1;
        if e == before {
          return true, k;
        }
        if i == PASSES - 1 {
          e := Unchanged(e, before);
          return false, k;
        }
      }
      assert false;
    }
  }

  function Unchanged(e: Facts, before: Facts): Facts {
    map x | x in e && x in before && e[x] == before[x] :: e[x]
  }

  // ---------------------------------------------------------------- the concrete run

  function Bind(st: Store, xs: seq<string>, v: Value): Store
    decreases xs
  {
    if xs == [] then st else Bind(st[xs[0] := v], xs[1..], v)
  }

  /** One run of s without a raise. Conditions are left open: any branch may be the one taken. */
  ghost predicate Runs(s: Stmt, st: Store, st': Store)
    decreases s, 0
  {
    match s
    case Assign(xs, rhs) => Eval(rhs, st).Some? && st' == Bind(st, xs, Eval(rhs, st).value)
    case Aug(x, op, rhs) =>
      && x in st && Eval(rhs, st).Some?
      && var v := BinValue(op, st[x], Eval(rhs, st).value);
         v.Some? && st' == st[x := v.value]
    case If(branches, hasElse) =>
      (!hasElse && st' == st) || RunsOneOf(branches, st, st')
  }

  ghost predicate RunsBlock(ss: seq<Stmt>, st: Store, st': Store)
    decreases ss, 0
  {
    if ss == [] then st' == st
    else exists mid :: Runs(ss[0], st, mid) && RunsBlock(ss[1..], mid, st')
  }

  ghost predicate RunsOneOf(bs: seq<Suite>, st: Store, st': Store)
    decreases bs, 0
  {
    bs != [] && (RunsBlock(bs[|bs| - 1].stmts, st, st') || RunsOneOf(bs[..|bs| - 1], st, st'))
  }

  /** A `for` loop that takes exactly the values vs. */
  ghost predicate RunsLoop(target: string, vs: seq<int>, ss: seq<Stmt>, st: Store, st': Store)
    decreases |vs|
  {
    if vs == [] then st' == st
    else
      var before, v := vs[..|vs| - 1], Int(vs[|vs| - 1]);
      exists mid :: RunsLoop(target, before, ss, st, mid) && RunsBlock(ss, mid[target := v], st')
  }

  // ---------------------------------------------------------------- soundness of a body

  /** What the theorems ask of a body run from e: every `if` ends in an else, and every
      right-hand side is a parse tree whose sign conditions hold where it is evaluated. */
  ghost predicate Clean(ss: seq<Stmt>, e: Facts)
    decreases ss, 0
  {
    ss != [] ==> CleanStmt(ss[0], e) && Clean(ss[1..], AbsStmt(ss[0], e))
  }

  ghost predicate CleanStmt(s: Stmt, e: Facts)
    decreases s, 0
  {
    match s
    case Assign(_, rhs) => WellFormed(rhs) && SignsAreSafe(rhs, e)
    case Aug(_, _, rhs) => WellFormed(rhs) && SignsAreSafe(rhs, e)
    case If(branches, hasElse) => hasElse && branches != [] && forall b :: b in branches ==> Clean(b.stmts, e)
  }

  lemma SetAdmits(e: Facts, st: Store, x: string, v: Interval, w: Value)
    requires Admits(e, st) && Holds(v, Some(w))
    ensures Admits(Set(e, x, v), st[x := w])
  {
  }

  lemma {:induction false} SetAllAdmits(e: Facts, st: Store, xs: seq<string>, v: Interval, w: Value)
    requires Admits(e, st) && Holds(v, Some(w))
    ensures Admits(SetAll(e, xs, v), Bind(st, xs, w))
    decreases xs
  {
    if xs != [] {
      SetAdmits(e, st, xs[0], v, w);
      SetAllAdmits(Set(e, xs[0], v), st[xs[0] := w], xs[1..], v, w);
    }
  }

  lemma JoinAdmits(e: Facts, o: Facts, st: Store)
    requires Admits(e, st) || Admits(o, st)
    ensures Admits(JoinFrom(e, o), st)
  {
  }

  /** If the env admits the store a body starts in, it admits the store every run ends in. */
  lemma {:induction false} BlockSound(ss: seq<Stmt>, e: Facts, st: Store, st': Store)
    requires Clean(ss, e) && Admits(e, st) && RunsBlock(ss, st, st')
    ensures Admits(AbsBlock(ss, e), st')
    decreases ss, 0
  {
    if ss != [] {
      var mid :| Runs(ss[0], st, mid) && RunsBlock(ss[1..], mid, st');
      StmtSound(ss[0], e, st, mid);
      BlockSound(ss[1..], AbsStmt(ss[0], e), mid, st');
    }
  }

  lemma {:induction false} StmtSound(s: Stmt, e: Facts, st: Store, st': Store)
    requires CleanStmt(s, e) && Admits(e, st) && Runs(s, st, st')
    ensures Admits(AbsStmt(s, e), st')
    decreases s, 1
  {
    hide EvalText, Text, Eval;
    match s
    case Assign(xs, rhs) =>
      EvalTextSound(rhs, e, st, 0);
      SetAllAdmits(e, st, xs, EvalText(Text(rhs), e, 0), Eval(rhs, st).value);
    case Aug(x, op, rhs) =>
      EvalTextSound(rhs, e, st, 0);
      var v, w := EvalText(Text(rhs), e, 0), Eval(rhs, st);
      if x in e && !op.Div? && !op.FloorDiv? {
        ApplyBinSound(op, e[x], v, Some(st[x]), w);
      }
      SetAdmits(e, st, x, if x in e then ApplyAug(op, e[x], v) else Top, BinValue(op, st[x], w.value).value);
    case If(branches, _) => JoinSound(branches, e, st, st');
  }

  lemma {:induction false} JoinSound(bs: seq<Suite>, e: Facts, st: Store, st': Store)
    requires bs != [] && (forall b :: b in bs ==> Clean(b.stmts, e)) && Admits(e, st) && RunsOneOf(bs, st, st')
    ensures Admits(AbsJoin(bs, e), st')
    decreases bs, 0
  {
    var n := |bs| - 1;
    if RunsBlock(bs[n].stmts, st, st') {
      BlockSound(bs[n].stmts, e, st, st');
      if n > 0 {
        JoinAdmits(AbsJoin(bs[..n], e), AbsBlock(bs[n].stmts, e), st');
      }
    } else {
      JoinSound(bs[..n], e, st, st');
      JoinAdmits(AbsJoin(bs[..n], e), AbsBlock(bs[n].stmts, e), st');
    }
  }

  // ---------------------------------------------------------------- soundness of the loops

  ghost predicate CleanTimes(ss: seq<Stmt>, e: Facts, k: nat) {
    forall j :: 0 <= j < k ==> Clean(ss, AbsTimes(ss, e, j))
  }

  predicate Writes(ss: seq<Stmt>, x: string)
    decreases ss, 0
  {
    exists i :: 0 <= i < |ss| && WritesIn(ss[i], x)
  }

  predicate WritesIn(s: Stmt, x: string)
    decreases s, 0
  {
    match s
    case Assign(xs, _) => x in xs
    case Aug(y, _, _) => x == y
    case If(branches, _) => exists i :: 0 <= i < |branches| && Writes(branches[i].stmts, x)
  }

  lemma {:induction false} SetAllKeeps(e: Facts, xs: seq<string>, v: Interval, x: string)
    requires x !in xs
    ensures x in SetAll(e, xs, v) <==> x in e
    ensures x in e ==> SetAll(e, xs, v)[x] == e[x]
    decreases xs
  {
    if xs != [] {
      SetAllKeeps(Set(e, xs[0], v), xs[1..], v, x);
    }
  }

  /** What a block never writes is as known after it as before. */
  lemma {:induction false} BlockKeeps(ss: seq<Stmt>, e: Facts, x: string)
    requires !Writes(ss, x)
    ensures x in AbsBlock(ss, e) <==> x in e
    ensures x in e ==> AbsBlock(ss, e)[x] == e[x]
    decreases ss, 0
  {
    if ss != [] {
      assert !WritesIn(ss[0], x);
      StmtKeeps(ss[0], e, x);
      BlockKeeps(ss[1..], AbsStmt(ss[0], e), x);
    }
  }

  lemma {:induction false} StmtKeeps(s: Stmt, e: Facts, x: string)
    requires !WritesIn(s, x)
    ensures x in AbsStmt(s, e) <==> x in e
    ensures x in e ==> AbsStmt(s, e)[x] == e[x]
    decreases s, 1
  {
    hide EvalText;
    match s
    case Assign(xs, rhs) => SetAllKeeps(e, xs, EvalText(Text(rhs), e, 0), x);
    case Aug(_, _, _) =>
    case If(branches, _) =>
      if branches != [] {
        JoinKeeps(branches, e, x);
      }
  }

  lemma {:induction false} JoinKeeps(bs: seq<Suite>, e: Facts, x: string)
    requires bs != [] && (forall i :: 0 <= i < |bs| ==> !Writes(bs[i].stmts, x))
    ensures x in AbsJoin(bs, e) <==> x in e
    ensures x in e ==> AbsJoin(bs, e)[x] == e[x]
    decreases bs, 0
  {
    var n := |bs| - 1;
    BlockKeeps(bs[n].stmts, e, x);
    if n > 0 {
      JoinKeeps(bs[..n], e, x);
    }
  }

  lemma {:induction false} TimesKeeps(ss: seq<Stmt>, e: Facts, k: nat, x: string)
    requires !Writes(ss, x)
    ensures x in AbsTimes(ss, e, k) <==> x in e
    ensures x in e ==> AbsTimes(ss, e, k)[x] == e[x]
  {
    if k > 0 {
      TimesKeeps(ss, e, k - 1, x);
      BlockKeeps(ss, AbsTimes(ss, e, k - 1), x);
    }
  }

  /** Once a pass changes nothing, neither do later ones. */
  lemma {:induction false} StableStays(ss: seq<Stmt>, e: Facts, k: nat, n: nat)
    requires 1 <= k && k - 1 <= n && AbsTimes(ss, e, k) == AbsTimes(ss, e, k - 1)
    ensures AbsTimes(ss, e, n) == AbsTimes(ss, e, k)
    decreases n
  {
    if n > k {
      StableStays(ss, e, k, n - 1);
    }
  }

  lemma SetKeepsTarget(e: Facts, x: string, v: Interval)
    requires v.Known?
    ensures x in Set(e, x, v) && Set(e, x, v)[x] == v
  {
  }

  /** Binding the target to any value of c is allowed by f: f has dropped the target or covers c. */
  predicate Rebound(f: Facts, target: string, c: Interval)
    requires c.Known?
  {
    target in f ==> f[target].lo <= c.lo && c.hi <= f[target].hi
  }

  /** The env before each of the first n passes allows the target to be bound again. */
  ghost predicate ReboundTimes(target: string, c: Interval, ss: seq<Stmt>, e: Facts, n: nat)
    requires c.Known?
  {
    forall j :: 0 <= j < n ==> Rebound(AbsTimes(ss, Set(e, target, c), j), target, c)
  }

  /** A body that leaves the target alone meets this. */
  lemma UnwrittenIsRebound(target: string, c: Interval, ss: seq<Stmt>, e: Facts, n: nat)
    requires c.Known? && !Writes(ss, target)
    ensures ReboundTimes(target, c, ss, e, n)
  {
    hide AbsTimes, Writes;
    SetKeepsTarget(e, target, c);
    forall j | 0 <= j < n ensures Rebound(AbsTimes(ss, Set(e, target, c), j), target, c) {
      TimesKeeps(ss, Set(e, target, c), j, target);
      assert AbsTimes(ss, Set(e, target, c), 0) == Set(e, target, c) by { FirstTime(ss, Set(e, target, c)); }
    }
  }

  lemma FirstTime(ss: seq<Stmt>, e: Facts)
    ensures AbsTimes(ss, e, 0) == e
  {
  }

  lemma BindAdmits(f: Facts, st: Store, target: string, c: Interval, v: int)
    requires c.Known? && Rebound(f, target, c) && Allows(c, v) && Admits(f, st)
    ensures Admits(f, st[target := Int(v)])
  {
  }

  /** At the start of each trip the store is admitted by the env before that pass. */
  lemma {:induction false} TripStarts(target: string, c: Interval, vs: seq<int>, v: int, ss: seq<Stmt>,
                                      e: Facts, st: Store, mid: Store)
    requires c.Known? && (forall w :: w in vs ==> Allows(c, w)) && Allows(c, v)
    requires CleanTimes(ss, Set(e, target, c), |vs|) && ReboundTimes(target, c, ss, e, |vs| + 1)
    requires Admits(e, st) && RunsLoop(target, vs, ss, st, mid)
    ensures Admits(AbsTimes(ss, Set(e, target, c), |vs|), mid[target := Int(v)])
    decreases |vs|, 1
  {
    hide Clean, AbsBlock, RunsBlock, Set;
    if vs == [] {
      SetAdmits(e, st, target, c, Int(v));
    } else {
      TripsSound(target, c, vs, ss, e, st, mid);
      BindAdmits(AbsTimes(ss, Set(e, target, c), |vs|), mid, target, c, v);
    }
  }

  /** After n >= 1 trips the store is admitted by the env after n abstract passes. */
  lemma {:induction false} TripsSound(target: string, c: Interval, vs: seq<int>, ss: seq<Stmt>,
                                      e: Facts, st: Store, st': Store)
    requires c.Known? && (forall v :: v in vs ==> Allows(c, v))
    requires CleanTimes(ss, Set(e, target, c), |vs|) && ReboundTimes(target, c, ss, e, |vs|)
    requires vs != [] && Admits(e, st) && RunsLoop(target, vs, ss, st, st')
    ensures Admits(AbsTimes(ss, Set(e, target, c), |vs|), st')
    decreases |vs|, 0
  {
    hide Clean, AbsBlock, RunsBlock, Set;
    var e0 := Set(e, target, c);
    var n := |vs| - 1;
    var mid :| RunsLoop(target, vs[..n], ss, st, mid) && RunsBlock(ss, mid[target := Int(vs[n])], st');
    assert vs[n] in vs;
    TripStarts(target, c, vs[..n], vs[n], ss, e, st, mid);
    BlockSound(ss, AbsTimes(ss, e0, n), mid[target := Int(vs[n])], st');
  }

  /** A run of j trips, each with a value of c, from a store that e admits. */
  ghost predicate TripsRun(target: string, c: Interval, ss: seq<Stmt>, e: Facts, j: nat, st: Store, mid: Store) {
    Admits(e, st) && exists vs: seq<int> :: |vs| == j && (forall v :: v in vs ==> Allows(c, v)) && RunsLoop(target, vs, ss, st, mid)
  }

  ghost predicate SomeTripsRun(target: string, c: Interval, ss: seq<Stmt>, e: Facts, j: nat) {
    exists st, mid :: TripsRun(target, c, ss, e, j, st, mid)
  }

  /** The env of pass j admits every store that a trip after j others starts in. */
  ghost predicate StartsAdmitted(target: string, c: Interval, ss: seq<Stmt>, e: Facts, j: nat) {
    forall st: Store, mid: Store, v: int :: TripsRun(target, c, ss, e, j, st, mid) && Allows(c, v) ==>
      Admits(AbsTimes(ss, Set(e, target, c), j), mid[target := Int(v)])
  }

  /** The exact condition for binding the target once only, for every body, one that assigns the target
      included: the env of each pass admits the store at the start of the trip it stands for if and only
      if the env of each pass has dropped the target or covers the counter's interval. */
  lemma TargetIsReboundExactly(target: string, c: Interval, ss: seq<Stmt>, e: Facts, n: nat)
    requires c.Known? && NonEmpty(c) && CleanTimes(ss, Set(e, target, c), n)
    requires forall j :: 0 <= j <= n ==> SomeTripsRun(target, c, ss, e, j)
    ensures (forall j :: 0 <= j <= n ==> StartsAdmitted(target, c, ss, e, j)) <==> ReboundTimes(target, c, ss, e, n + 1)
  {
    hide Clean, AbsBlock, RunsBlock, Set, AbsTimes, RunsLoop;
    if ReboundTimes(target, c, ss, e, n + 1) {
      forall j, st: Store, mid: Store, v: int | 0 <= j <= n && TripsRun(target, c, ss, e, j, st, mid) && Allows(c, v)
        ensures Admits(AbsTimes(ss, Set(e, target, c), j), mid[target := Int(v)])
      {
        var vs: seq<int> :| |vs| == j && (forall w :: w in vs ==> Allows(c, w)) && RunsLoop(target, vs, ss, st, mid);
        TripStarts(target, c, vs, v, ss, e, st, mid);
      }
    }
    if forall j :: 0 <= j <= n ==> StartsAdmitted(target, c, ss, e, j) {
      forall j | 0 <= j <= n ensures Rebound(AbsTimes(ss, Set(e, target, c), j), target, c) {
        assert SomeTripsRun(target, c, ss, e, j);
        var st, mid :| TripsRun(target, c, ss, e, j, st, mid);
        AdmittedIsRebound(target, c, ss, e, j, st, mid);
      }
    }
  }

  lemma AdmittedIsRebound(target: string, c: Interval, ss: seq<Stmt>, e: Facts, j: nat, st: Store, mid: Store)
    requires c.Known? && NonEmpty(c) && StartsAdmitted(target, c, ss, e, j) && TripsRun(target, c, ss, e, j, st, mid)
    ensures Rebound(AbsTimes(ss, Set(e, target, c), j), target, c)
  {
    hide AbsTimes, TripsRun, Set;
    var f := AbsTimes(ss, Set(e, target, c), j);
    assert Allows(c, c.lo) && Allows(c, c.hi);
    assert Admits(f, mid[target := Int(c.lo)]) && Admits(f, mid[target := Int(c.hi)]);
    if target in f {
      assert f[target].Known?;
    }
  }

  /** The fixed-point path is sound for every run long enough to have passed the entry state:
      if the body stabilises at its k-th pass, the env admits the store after any n trips with
      n >= 1 and n >= k - 1, whatever values the target takes within the counter's interval. */
  lemma ForFixpointSound(target: string, c: Interval, vs: seq<int>, ss: seq<Stmt>,
                         e: Facts, st: Store, st': Store, k: nat)
    requires c.Known? && (forall v :: v in vs ==> Allows(c, v))
    requires var e0 := Set(e, target, c);
             1 <= k && AbsTimes(ss, e0, k) == AbsTimes(ss, e0, k - 1) && CleanTimes(ss, e0, k)
    requires ReboundTimes(target, c, ss, e, k)
    requires |vs| >= 1 && |vs| >= k - 1
    requires Admits(e, st) && RunsLoop(target, vs, ss, st, st')
    ensures Admits(AbsTimes(ss, Set(e, target, c), k), st')
  {
    hide Clean, Rebound, AbsTimes, Set;
    var e0 := Set(e, target, c);
    forall j | k <= j ensures Clean(ss, AbsTimes(ss, e0, j)) && Rebound(AbsTimes(ss, e0, j), target, c) {
      StableStays(ss, e0, k, j);
      assert Clean(ss, AbsTimes(ss, e0, k - 1)) && Rebound(AbsTimes(ss, e0, k - 1), target, c);
    }
    StableStays(ss, e0, k, |vs|);
    TripsSound(target, c, vs, ss, e, st, st');
  }

  /** One more pass from g leaves all that g claims at least as precise. */
  predicate KeepsItsClaims(ss: seq<Stmt>, g: Facts) {
    forall x :: x in g ==> x in AbsBlock(ss, g) && g[x].lo <= AbsBlock(ss, g)[x].lo && AbsBlock(ss, g)[x].hi <= g[x].hi
  }

  /** The six-pass exit, where what the sixth pass changed is dropped, is sound for every run of at least
      six trips if a pass from what is left keeps its claims. */
  lemma {:induction false} SixPassExitSound(target: string, c: Interval, vs: seq<int>, ss: seq<Stmt>,
                                            e: Facts, st: Store, st': Store)
    requires c.Known? && (forall v :: v in vs ==> Allows(c, v)) && |vs| >= 6
    requires CleanTimes(ss, Set(e, target, c), 6) && ReboundTimes(target, c, ss, e, 6)
    requires var e0 := Set(e, target, c);
             var g := Unchanged(AbsTimes(ss, e0, 6), AbsTimes(ss, e0, 5));
             Clean(ss, g) && Rebound(g, target, c) && KeepsItsClaims(ss, g)
    requires Admits(e, st) && RunsLoop(target, vs, ss, st, st')
    ensures var e0 := Set(e, target, c);
            Admits(Unchanged(AbsTimes(ss, e0, 6), AbsTimes(ss, e0, 5)), st')
    decreases |vs|
  {
    hide Clean, AbsBlock, RunsBlock, Set, AbsTimes, Rebound;
    var e0 := Set(e, target, c);
    var g := Unchanged(AbsTimes(ss, e0, 6), AbsTimes(ss, e0, 5));
    var n := |vs| - 1;
    if |vs| == 6 {
      TripsSound(target, c, vs, ss, e, st, st');
    } else {
      var mid :| RunsLoop(target, vs[..n], ss, st, mid) && RunsBlock(ss, mid[target := Int(vs[n])], st');
      assert vs[n] in vs;
      SixPassExitSound(target, c, vs[..n], ss, e, st, mid);
      BindAdmits(g, mid, target, c, vs[n]);
      BlockSound(ss, g, mid[target := Int(vs[n])], st');
      ClaimsAreKept(ss, g, st');
    }
  }

  lemma ClaimsAreKept(ss: seq<Stmt>, g: Facts, st: Store)
    requires KeepsItsClaims(ss, g) && Admits(AbsBlock(ss, g), st)
    ensures Admits(g, st)
  {
    hide AbsBlock;
  }

  ghost predicate CleanUnrolled(target: string, elem: Interval, ss: seq<Stmt>, e: Facts, n: nat) {
    forall j :: 0 <= j < n ==> Clean(ss, Set(AbsUnrolled(target, elem, ss, e, j), target, elem))
  }

  /** The bounded path is sound for exactly as many trips as the list has elements, none
      included, even when the body assigns the target. */
  lemma {:induction false} UnrolledSound(target: string, elem: Interval, vs: seq<int>, ss: seq<Stmt>,
                                         e: Facts, st: Store, st': Store)
    requires (forall v :: v in vs ==> Allows(elem, v)) && CleanUnrolled(target, elem, ss, e, |vs|)
    requires Admits(e, st) && RunsLoop(target, vs, ss, st, st')
    ensures Admits(AbsUnrolled(target, elem, ss, e, |vs|), st')
    decreases |vs|
  {
    if vs != [] {
      var n := |vs| - 1;
      var mid :| RunsLoop(target, vs[..n], ss, st, mid) && RunsBlock(ss, mid[target := Int(vs[n])], st');
      assert vs[n] in vs;
      UnrolledSound(target, elem, vs[..n], ss, e, st, mid);
      SetAdmits(AbsUnrolled(target, elem, ss, e, n), mid, target, elem, Int(vs[n]));
      BlockSound(ss, Set(AbsUnrolled(target, elem, ss, e, n), target, elem), mid[target := Int(vs[n])], st');
    }
  }

  // ---------------------------------------------------------------- nothing is given away

  /** After an assignment every target has the interval of the right-hand side, or none if that is unknown,
      and every other name what it had. */
  lemma AssignExactly(e: Facts, xs: seq<string>, rhs: Expr, y: string)
    ensures var f, v := AbsStmt(Assign(xs, rhs), e), EvalText(Text(rhs), e, 0);
            && (y in f <==> if y in xs then v.Known? else y in e)
            && (y in f ==> f[y] == if y in xs then v else e[y])
  {
    hide EvalText, Text;
    SetAllExactly(e, xs, EvalText(Text(rhs), e, 0), y);
  }

  lemma {:induction false} SetAllExactly(e: Facts, xs: seq<string>, v: Interval, y: string)
    ensures y in SetAll(e, xs, v) <==> if y in xs then v.Known? else y in e
    ensures y in SetAll(e, xs, v) ==> SetAll(e, xs, v)[y] == if y in xs then v else e[y]
    decreases |xs|
  {
    if xs != [] {
      SetAllExactly(Set(e, xs[0], v), xs[1..], v, y);
    }
  }

  /** After an `if` a name is known exactly when it is after every branch, each run from the same env, and then
      with the smallest range that holds all of theirs. */
  lemma IfExactly(bs: seq<Suite>, hasElse: bool, e: Facts, x: string)
    requires bs != []
    ensures var f := AbsStmt(If(bs, hasElse), e);
            && (x in f <==> forall b :: b in bs ==> x in AfterBranch(b, e))
            && (x in f ==>
                  && (forall b :: b in bs ==> f[x].lo <= AfterBranch(b, e)[x].lo && AfterBranch(b, e)[x].hi <= f[x].hi)
                  && (exists b :: b in bs && AfterBranch(b, e)[x].lo == f[x].lo)
                  && (exists b :: b in bs && AfterBranch(b, e)[x].hi == f[x].hi))
  {
    hide AbsBlock, AbsJoin;
    KnownAfterJoin(bs, e, x);
    if x in AbsJoin(bs, e) {
      var _, _ := EndsOfJoin(bs, e, x);
    }
  }

  function AfterBranch(b: Suite, e: Facts): Facts { AbsBlock(b.stmts, e) }

  lemma {:induction false} KnownAfterJoin(bs: seq<Suite>, e: Facts, x: string)
    requires bs != []
    ensures x in AbsJoin(bs, e) <==> forall b :: b in bs ==> x in AfterBranch(b, e)
    decreases |bs|
  {
    hide AbsBlock;
    var front, last := bs[..|bs| - 1], bs[|bs| - 1];
    assert bs == front + [last];
    if front != [] {
      KnownAfterJoin(front, e, x);
      JoinExactly(AbsJoin(front, e), AfterBranch(last, e), x);
    }
  }

  lemma {:induction false} EndsOfJoin(bs: seq<Suite>, e: Facts, x: string) returns (low: Suite, high: Suite)
    requires bs != [] && x in AbsJoin(bs, e) && forall b :: b in bs ==> x in AfterBranch(b, e)
    ensures var v := AbsJoin(bs, e)[x];
            && (forall b :: b in bs ==> v.lo <= AfterBranch(b, e)[x].lo && AfterBranch(b, e)[x].hi <= v.hi)
            && low in bs && AfterBranch(low, e)[x].lo == v.lo && high in bs && AfterBranch(high, e)[x].hi == v.hi
    decreases |bs|
  {
    hide AbsBlock;
    var front, last := bs[..|bs| - 1], bs[|bs| - 1];
    assert bs == front + [last];
    low, high := last, last;
    if front != [] {
      var a, b := AbsJoin(front, e), AfterBranch(last, e);
      JoinExactly(a, b, x);
      var l, h := EndsOfJoin(front, e, x);
      low := if JoinFrom(a, b)[x].lo == b[x].lo then last else l;
      high := if JoinFrom(a, b)[x].hi == b[x].hi then last else h;
    }
  }

  /** A name the body never writes keeps what is known of it through either kind of `for` loop, the six-pass
      exit included. */
  lemma LoopsKeepTheRest(target: string, c: Interval, ss: seq<Stmt>, e: Facts, n: nat, x: string)
    requires !Writes(ss, x) && x != target
    ensures var e0 := Set(e, target, c);
            var g := Unchanged(AbsTimes(ss, e0, 6), AbsTimes(ss, e0, 5));
            var u := AbsUnrolled(target, c, ss, e, n);
            var f := AbsTimes(ss, e0, n);
            && (x in f <==> x in e) && (x in g <==> x in e) && (x in u <==> x in e)
            && (x in e ==> f[x] == e[x] && g[x] == e[x] && u[x] == e[x])
  {
    var e0 := Set(e, target, c);
    TimesKeeps(ss, e0, n, x);
    TimesKeeps(ss, e0, 6, x);
    TimesKeeps(ss, e0, 5, x);
    UnrolledKeeps(target, c, ss, e, n, x);
    hide AbsTimes, AbsUnrolled, Writes;
  }

  lemma {:induction false} UnrolledKeeps(target: string, c: Interval, ss: seq<Stmt>, e: Facts, n: nat, x: string)
    requires !Writes(ss, x) && x != target
    ensures x in AbsUnrolled(target, c, ss, e, n) <==> x in e
    ensures x in e ==> AbsUnrolled(target, c, ss, e, n)[x] == e[x]
    decreases n
  {
    if n > 0 {
      UnrolledKeeps(target, c, ss, e, n - 1, x);
      BlockKeeps(ss, Set(AbsUnrolled(target, c, ss, e, n - 1), target, c), x);
    }
  }

  /** `x op= rhs` keeps a range for x exactly when both ranges are known and the operator's rule has an answer:
      the tightest range of the sums, differences, products or remainders, unless one of them is no int64. */
  lemma AugmentedExactly(x: string, op: BinOp, rhs: Expr, e: Facts)
    requires x in e ==> NonEmpty(e[x])
    requires NonEmpty(EvalText(Text(rhs), e, 0))
    ensures var f, w := AbsStmt(Aug(x, op, rhs), e), EvalText(Text(rhs), e, 0);
            && f - {x} == e - {x}
            && (x !in e || w.Top? || op.Div? || op.FloorDiv? ==> x !in f)
            && (x in e && w.Known? ==>
                  && (op.Add? ==> if Escapes(e[x], w, Plus) then x !in f else x in f && IsHull(f[x], e[x], w, Plus))
                  && (op.Sub? ==> if Escapes(e[x], w, Minus) || w.lo == -0x8000_0000_0000_0000 then x !in f
                                  else x in f && IsHull(f[x], e[x], w, Minus))
                  && (op.Mul? ==> if Escapes(e[x], w, Times) then x !in f else x in f && IsHull(f[x], e[x], w, Times))
                  && (op.Mod? ==> if e[x].lo < 0 || w.lo <= 0 then x !in f
                                  else x in f && IsHull(f[x], Known(0, 0x7FFF_FFFF_FFFF_FFFF), w, Remainder)))
  {
    AugmentedSets(x, op, rhs, e);
    var w := EvalText(Text(rhs), e, 0);
    if x in e && w.Known? {
      AddIVExact(e[x], w);
      SubIVExact(e[x], w);
      MulIVExact(e[x], w);
      ModIVExact(e[x], w);
      HullIsKnown(AddIV(e[x], w), e[x], w, Plus);
      HullIsKnown(SubIV(e[x], w), e[x], w, Minus);
      HullIsKnown(MulIV(e[x], w), e[x], w, Times);
    }
    hide EvalText, Text, AbsStmt, AddIV, SubIV, MulIV, ModIV, IsHull, Escapes;
  }

  lemma AugmentedSets(x: string, op: BinOp, rhs: Expr, e: Facts)
    ensures var w := EvalText(Text(rhs), e, 0);
            AbsStmt(Aug(x, op, rhs), e)
            == Set(e, x, if x !in e then Top
                         else match op
                              case Add => AddIV(e[x], w)
                              case Sub => SubIV(e[x], w)
                              case Mul => MulIV(e[x], w)
                              case Mod => ModIV(e[x], w)
                              case _ => Top)
  {
    hide EvalText, Text, AddIV, SubIV, MulIV, ModIV;
  }

  lemma HullIsKnown(r: Interval, a: Interval, b: Interval, f: (int, int) -> int)
    ensures IsHull(r, a, b, f) ==> r.Known?
  {
  }

  /** A name is known after a join if it is on both sides, and then its range is the smallest that holds both. */
  lemma JoinExactly(e: Facts, o: Facts, x: string)
    ensures x in JoinFrom(e, o) <==> x in e && x in o
    ensures x in JoinFrom(e, o) ==>
              var v := JoinFrom(e, o)[x];
              && v.lo <= e[x].lo && v.lo <= o[x].lo && e[x].hi <= v.hi && o[x].hi <= v.hi
              && (v.lo == e[x].lo || v.lo == o[x].lo) && (v.hi == e[x].hi || v.hi == o[x].hi)
  {
  }

  // ---------------------------------------------------------------- where the loops are not sound

  lemma LiteralInterval(n: nat, env: Env)
    requires n <= 9
    ensures EvalText(Text(Lit(n)), env, 0) == Known(n, n)
  {
  }

  /** The entry state is never joined in: `s = 5; for i in ...: s = 1` is left with s in [1, 1],
      which a loop of no trips contradicts. */
  lemma ZeroTripsAreMissed()
    ensures var ss, e, c := [Assign(["s"], Lit(1))], map["s" := Known(5, 5)], Known(0, 9);
            var e0, st := Set(e, "i", c), map["s" := Int(5)];
            && AbsTimes(ss, e0, 2) == AbsTimes(ss, e0, 1) && Admits(e, st) && RunsLoop("i", [], ss, st, st)
            && !Admits(AbsTimes(ss, e0, 2), st)
  {
    hide EvalText, Text;
    var ss, e0 := [Assign(["s"], Lit(1))], Set(map["s" := Known(5, 5)], "i", Known(0, 9));
    forall e: Facts ensures AbsBlock(ss, e) == e["s" := Known(1, 1)] {
      LiteralInterval(1, e);
      AssignOne("s", Lit(1), e);
    }
    assert AbsTimes(ss, e0, 1) == AbsBlock(ss, AbsTimes(ss, e0, 0));
    assert AbsTimes(ss, e0, 2) == AbsBlock(ss, AbsTimes(ss, e0, 1));
    assert AbsTimes(ss, e0, 2)["s"] == Known(1, 1);
  }

  /** What f says of x, if anything, e says too and at least as precisely. */
  predicate CoversEntry(e: Facts, f: Facts, x: string) {
    x in f ==> x in e && f[x].lo <= e[x].lo && e[x].hi <= f[x].hi
  }

  lemma {:induction false} AdmitsMoreExactly(e: Facts, f: Facts)
    requires forall x :: x in e ==> NonEmpty(e[x])
    ensures (forall st: Store :: Admits(e, st) ==> Admits(f, st)) <==> forall x :: CoversEntry(e, f, x)
  {
    if forall x :: CoversEntry(e, f, x) {
      forall st: Store | Admits(e, st) ensures Admits(f, st) {
        forall x | x in f && f[x].Known? ensures x in st && st[x].Int? && Allows(f[x], st[x].n) {
          assert CoversEntry(e, f, x) && e[x].Known?;
        }
      }
    } else {
      var low: Store := map x | x in e :: Int(e[x].lo);
      var high: Store := map x | x in e :: Int(e[x].hi);
      assert Admits(e, low) && Admits(e, high);
      var x :| !CoversEntry(e, f, x);
      assert !Admits(f, low) || !Admits(f, high) by {
        assert f[x].Known?;
      }
    }
  }

  /** The exact condition for an `if` without else: its env admits the store after every run, taken
      or skipped, if and only if each name a branch writes is dropped, or left with a range that
      covers the one it had. */
  lemma IfWithoutElseExactly(bs: seq<Suite>, e: Facts)
    requires bs != [] && (forall b :: b in bs ==> Clean(b.stmts, e)) && forall x :: x in e ==> NonEmpty(e[x])
    ensures var s := If(bs, false);
            (forall st: Store, st': Store :: Admits(e, st) && Runs(s, st, st') ==> Admits(AbsStmt(s, e), st'))
            <==> forall x :: WritesIn(s, x) ==> CoversEntry(e, AbsStmt(s, e), x)
  {
    hide Clean, AbsBlock, RunsBlock;
    var s := If(bs, false);
    var f := AbsStmt(s, e);
    forall x | !WritesIn(s, x) ensures CoversEntry(e, f, x) {
      StmtKeeps(s, e, x);
    }
    AdmitsMoreExactly(e, f);
    if forall x :: WritesIn(s, x) ==> CoversEntry(e, f, x) {
      forall st: Store, st': Store | Admits(e, st) && Runs(s, st, st') ensures Admits(f, st') {
        if st' != st {
          JoinSound(bs, e, st, st');
        }
      }
    } else {
      var st: Store :| Admits(e, st) && !Admits(f, st);
      assert Runs(s, st, st);
    }
  }

  /** Every run from a store that a fixed point of the body admits stays admitted. */
  lemma {:induction false} FixpointKeepsAdmitting(target: string, c: Interval, vs: seq<int>, ss: seq<Stmt>,
                                                  f: Facts, st: Store, st': Store)
    requires c.Known? && (forall v :: v in vs ==> Allows(c, v)) && Rebound(f, target, c)
    requires Clean(ss, f) && AbsBlock(ss, f) == f && Admits(f, st) && RunsLoop(target, vs, ss, st, st')
    ensures Admits(f, st')
    decreases |vs|
  {
    hide Clean, AbsBlock, RunsBlock;
    if vs != [] {
      var n := |vs| - 1;
      var mid :| RunsLoop(target, vs[..n], ss, st, mid) && RunsBlock(ss, mid[target := Int(vs[n])], st');
      assert vs[n] in vs;
      FixpointKeepsAdmitting(target, c, vs[..n], ss, f, st, mid);
      BindAdmits(f, mid, target, c, vs[n]);
      BlockSound(ss, f, mid[target := Int(vs[n])], st');
    }
  }

  /** The exact condition for a loop that stabilises on an env that allows the target to be bound again:
      the final env admits the store after every run
      of any number of trips, none included, if and only if the target and each name the body writes
      is dropped, or left with a range that covers the one it had on entry. */
  lemma LoopIsCoveredExactly(target: string, c: Interval, ss: seq<Stmt>, e: Facts, k: nat)
    requires c.Known? && forall x :: x in e ==> NonEmpty(e[x])
    requires var e0 := Set(e, target, c);
             1 <= k && AbsTimes(ss, e0, k) == AbsTimes(ss, e0, k - 1) && CleanTimes(ss, e0, k)
    requires Rebound(AbsTimes(ss, Set(e, target, c), k), target, c)
    ensures var f := AbsTimes(ss, Set(e, target, c), k);
            (forall vs: seq<int>, st: Store, st': Store ::
               (forall v :: v in vs ==> Allows(c, v)) && Admits(e, st) && RunsLoop(target, vs, ss, st, st')
               ==> Admits(f, st'))
            <==> forall x :: x == target || Writes(ss, x) ==> CoversEntry(e, f, x)
  {
    hide Clean, AbsBlock, RunsBlock, Writes;
    var e0 := Set(e, target, c);
    var f := AbsTimes(ss, e0, k);
    forall x | x != target && !Writes(ss, x) ensures CoversEntry(e, f, x) {
      TimesKeeps(ss, e0, k, x);
    }
    AdmitsMoreExactly(e, f);
    assert Clean(ss, AbsTimes(ss, e0, k - 1));
    if forall x :: x == target || Writes(ss, x) ==> CoversEntry(e, f, x) {
      forall vs: seq<int>, st: Store, st': Store | (forall v :: v in vs ==> Allows(c, v)) && Admits(e, st) && RunsLoop(target, vs, ss, st, st')
        ensures Admits(f, st')
      {
        FixpointKeepsAdmitting(target, c, vs, ss, f, st, st');
      }
    } else {
      var st: Store :| Admits(e, st) && !Admits(f, st);
      assert RunsLoop(target, [], ss, st, st);
    }
  }

  lemma AssignOne(x: string, rhs: Expr, e: Facts)
    ensures AbsBlock([Assign([x], rhs)], e) == Set(e, x, EvalText(Text(rhs), e, 0))
  {
    hide EvalText, Text;
    var s, v := Assign([x], rhs), EvalText(Text(rhs), e, 0);
    assert [x][1..] == [] && [s][1..] == [];
    assert SetAll(Set(e, x, v), [], v) == Set(e, x, v);
    assert AbsBlock([], AbsStmt(s, e)) == AbsStmt(s, e);
  }

  function CopyThenReset(): seq<Stmt> { [Assign(["s"], Name("i")), Assign(["i"], Lit(0))] }

  lemma CopyThenResetAbs(e: Facts)
    requires "i" in e
    ensures AbsBlock(CopyThenReset(), e) == e["s" := e["i"]]["i" := Known(0, 0)]
  {
    hide EvalText, Text, Scan, Strip;
    var ss := CopyThenReset();
    NameInterval("i", e, 0);
    AssignOne("s", Name("i"), e);
    var e' := e["s" := e["i"]];
    LiteralInterval(0, e');
    AssignOne("i", Lit(0), e');
    AbsBlockSplits(ss[..1], ss[1..], e);
    assert ss == ss[..1] + ss[1..] && ss[..1] == [ss[0]] && ss[1..] == [ss[1]];
  }

  lemma {:induction false} AbsBlockSplits(a: seq<Stmt>, b: seq<Stmt>, e: Facts)
    ensures AbsBlock(a + b, e) == AbsBlock(b, AbsBlock(a, e))
    decreases a
  {
    if a == [] {
      assert a + b == b;
    } else {
      assert (a + b)[1..] == a[1..] + b;
      AbsBlockSplits(a[1..], b, AbsStmt(a[0], e));
    }
  }

  lemma CopyThenResetRuns(st: Store)
    requires "i" in st
    ensures RunsBlock(CopyThenReset(), st, st["s" := st["i"]]["i" := Int(0)])
  {
    var ss := CopyThenReset();
    var mid := st["s" := st["i"]];
    var end := mid["i" := Int(0)];
    assert Bind(mid, [], Int(0)) == mid && ["s"][1..] == [] && ["i"][1..] == [];
    assert Runs(ss[0], st, mid) && Runs(ss[1], mid, end);
    assert RunsBlock(ss[1..][1..], end, end);
    assert RunsBlock(ss[1..], mid, end);
  }

  /** The target is bound once, not once per pass: with `for i in range(4, 6): s = i; i = 0` the
      env settles on s in [0, 0] although s ends as 5. Before the second pass it already claims i in [0, 0]. */
  lemma TargetIsNotRebound()
    ensures var ss, c := CopyThenReset(), Known(4, 6);
            var e0, st := Set(map[], "i", c), map["s" := Int(5), "i" := Int(0)];
            && AbsTimes(ss, e0, 3) == AbsTimes(ss, e0, 2) && RunsLoop("i", [4, 5], ss, map[], st)
            && !Admits(AbsTimes(ss, e0, 3), st) && !Rebound(AbsTimes(ss, e0, 1), "i", c)
  {
    hide AbsBlock, RunsBlock;
    var ss, e0, st := CopyThenReset(), Set(map[], "i", Known(4, 6)), map["s" := Int(5), "i" := Int(0)];
    var e1, e2 := AbsTimes(ss, e0, 1), AbsTimes(ss, e0, 2);
    assert e1 == AbsBlock(ss, AbsTimes(ss, e0, 0)) && e2 == AbsBlock(ss, e1) && AbsTimes(ss, e0, 3) == AbsBlock(ss, e2);
    CopyThenResetAbs(e0);
    CopyThenResetAbs(e1);
    CopyThenResetAbs(e2);
    assert e2["s"] == Known(0, 0);
    var first: Store := map["s" := Int(4), "i" := Int(0)];
    CopyThenResetRuns(map["i" := Int(4)]);
    CopyThenResetRuns(first["i" := Int(5)]);
    assert map["i" := Int(4)]["s" := Int(4)]["i" := Int(0)] == first;
    assert first["i" := Int(5)]["s" := Int(5)]["i" := Int(0)] == st;
    TwoTripsRun(first, st);
  }

  lemma TwoTripsRun(first: Store, st: Store)
    requires RunsBlock(CopyThenReset(), map["i" := Int(4)], first) && RunsBlock(CopyThenReset(), first["i" := Int(5)], st)
    ensures RunsLoop("i", [4, 5], CopyThenReset(), map[], st)
  {
    hide RunsBlock;
    assert [4][..0] == [] && [4, 5][..1] == [4];
    var none: Store := map[];
    assert RunsLoop("i", [], CopyThenReset(), none, none) && none["i" := Int(4)] == map["i" := Int(4)];
    assert RunsLoop("i", [4], CopyThenReset(), none, first);
  }

  /** An `if` without an else keeps only its branch: the store that skips it is not admitted. */
  lemma IfWithoutElseIsUnsound()
    ensures var s := If([Suite([Assign(["s"], Lit(1))])], false);
            var e, st := map["s" := Known(0, 0)], map["s" := Int(0)];
            Admits(e, st) && Runs(s, st, st) && !Admits(AbsStmt(s, e), st)
  {
  }

  // ---------------------------------------------------------------- where six passes are too few

  /** `a = b; b = c; ...; z = 9` over the names xs. */
  function Chain(xs: seq<string>): seq<Stmt>
    requires xs != []
  {
    if |xs| == 1 then [Assign([xs[0]], Lit(9))] else [Assign([xs[0]], Name(xs[1]))] + Chain(xs[1..])
  }

  predicate Distinct(xs: seq<string>) {
    forall i, j :: 0 <= i < j < |xs| ==> xs[i] != xs[j]
  }

  /** What the next name holds, and 9 behind the last. */
  function Follower(xs: seq<string>, e: Facts, p: nat): Interval
    requires p < |xs| && forall x :: x in xs ==> x in e
  {
    if p == |xs| - 1 then Known(9, 9) else e[xs[p + 1]]
  }

  /** A pass moves every range one name to the front. */
  ghost predicate Shifted(xs: seq<string>, e: Facts, f: Facts) {
    && f.Keys == e.Keys && (forall x :: x in xs ==> x in e)
    && (forall p :: 0 <= p < |xs| ==> f[xs[p]] == Follower(xs, e, p))
    && (forall y :: y in e && y !in xs ==> f[y] == e[y])
  }

  lemma {:induction false} ChainShifts(xs: seq<string>, e: Facts)
    requires xs != [] && Distinct(xs) && forall x :: x in xs ==> x in e
    ensures Shifted(xs, e, AbsBlock(Chain(xs), e))
    decreases |xs|
  {
    hide EvalText, Text, AbsBlock;
    if |xs| == 1 {
      LiteralInterval(9, e);
      AssignOne(xs[0], Lit(9), e);
    } else {
      var rest := xs[1..];
      var e1 := e[xs[0] := e[xs[1]]];
      NameInterval(xs[1], e, 0);
      AssignOne(xs[0], Name(xs[1]), e);
      AbsBlockSplits([Assign([xs[0]], Name(xs[1]))], Chain(rest), e);
      ChainShifts(rest, e1);
      ShiftOne(xs, e, e1, AbsBlock(Chain(rest), e1));
    }
  }

  lemma ShiftOne(xs: seq<string>, e: Facts, e1: Facts, f: Facts)
    requires |xs| > 1 && Distinct(xs) && (forall x :: x in xs ==> x in e)
    requires e1 == e[xs[0] := e[xs[1]]] && Shifted(xs[1..], e1, f)
    ensures Shifted(xs, e, f)
  {
    var rest := xs[1..];
    assert xs[0] !in rest && xs[0] in e1;
    forall p | 0 <= p < |xs| ensures f[xs[p]] == Follower(xs, e, p) {
      if p == 0 {
        assert f[xs[0]] == e1[xs[0]] == e[xs[1]];
      } else {
        assert rest[p - 1] == xs[p] && f[xs[p]] == Follower(rest, e1, p - 1);
        if p < |xs| - 1 {
          assert rest[p] == xs[p + 1] && xs[0] != xs[p + 1];
        }
      }
    }
  }

  /** After k passes from zeros the last k names are 9 and the others still 0. */
  lemma {:induction false} ChainPasses(xs: seq<string>, e: Facts, k: nat)
    requires xs != [] && Distinct(xs) && forall x :: x in xs ==> x in e && e[x] == Known(0, 0)
    ensures var f := AbsTimes(Chain(xs), e, k);
            f.Keys == e.Keys && forall p :: 0 <= p < |xs| ==> f[xs[p]] == if p + k >= |xs| then Known(9, 9) else Known(0, 0)
    decreases k
  {
    hide AbsBlock;
    assert forall p :: 0 <= p < |xs| ==> xs[p] in xs;
    if k == 0 {
      assert AbsTimes(Chain(xs), e, 0) == e;
    } else {
      ChainPasses(xs, e, k - 1);
      var before := AbsTimes(Chain(xs), e, k - 1);
      ChainShifts(xs, before);
      var f := AbsBlock(Chain(xs), before);
      assert AbsTimes(Chain(xs), e, k) == f;
      forall p | 0 <= p < |xs| ensures f[xs[p]] == if p + k >= |xs| then Known(9, 9) else Known(0, 0) {
        assert f[xs[p]] == Follower(xs, before, p);
        if p + 1 < |xs| {
          assert before[xs[p + 1]] == if p + 1 + (k - 1) >= |xs| then Known(9, 9) else Known(0, 0);
        }
      }
    }
  }

  ghost predicate Moved(xs: seq<string>, st: Store, end: Store) {
    && end.Keys == st.Keys && (forall x :: x in xs ==> x in st)
    && (forall p :: 0 <= p < |xs| ==> end[xs[p]] == FollowerValue(xs, st, p))
    && (forall y :: y in st && y !in xs ==> end[y] == st[y])
  }

  function FollowerValue(xs: seq<string>, st: Store, p: nat): Value
    requires p < |xs| && forall x :: x in xs ==> x in st
  {
    if p == |xs| - 1 then Int(9) else st[xs[p + 1]]
  }

  /** A trip does the same to the values. */
  lemma {:induction false} ChainRuns(xs: seq<string>, st: Store) returns (end: Store)
    requires xs != [] && Distinct(xs) && forall x :: x in xs ==> x in st
    ensures RunsBlock(Chain(xs), st, end) && Moved(xs, st, end)
    decreases |xs|
  {
    hide Text, RunsBlock;
    if |xs| == 1 {
      end := st[xs[0] := Int(9)];
      NothingRuns(end);
      OneAssignRuns(xs[0], Lit(9), Int(9), [], st, end);
      assert Chain(xs) == [Assign([xs[0]], Lit(9))] + [];
    } else {
      var mid := st[xs[0] := st[xs[1]]];
      end := ChainRuns(xs[1..], mid);
      OneAssignRuns(xs[0], Name(xs[1]), st[xs[1]], Chain(xs[1..]), st, end);
      MoveOne(xs, st, mid, end);
    }
  }

  lemma NothingRuns(st: Store)
    ensures RunsBlock([], st, st)
  {
  }

  lemma MoveOne(xs: seq<string>, st: Store, mid: Store, end: Store)
    requires |xs| > 1 && Distinct(xs) && (forall x :: x in xs ==> x in st)
    requires mid == st[xs[0] := st[xs[1]]] && Moved(xs[1..], mid, end)
    ensures Moved(xs, st, end)
  {
    var rest := xs[1..];
    assert xs[0] !in rest && xs[0] in mid;
    forall p | 0 <= p < |xs| ensures end[xs[p]] == FollowerValue(xs, st, p) {
      if p == 0 {
        assert end[xs[0]] == mid[xs[0]] == st[xs[1]];
      } else {
        assert rest[p - 1] == xs[p] && end[xs[p]] == FollowerValue(rest, mid, p - 1);
        if p < |xs| - 1 {
          assert rest[p] == xs[p + 1] && xs[0] != xs[p + 1];
        }
      }
    }
  }

  lemma OneAssignRuns(x: string, rhs: Expr, v: Value, rest: seq<Stmt>, st: Store, end: Store)
    requires Eval(rhs, st) == Some(v) && RunsBlock(rest, st[x := v], end)
    ensures RunsBlock([Assign([x], rhs)] + rest, st, end)
  {
    var ss, mid := [Assign([x], rhs)] + rest, st[x := v];
    assert ss[1..] == rest && [x][1..] == [] && Bind(mid, [], v) == mid;
    assert Runs(ss[0], st, mid);
  }

  lemma {:induction false} ChainLoop(xs: seq<string>, target: string, vs: seq<int>, st: Store) returns (end: Store)
    requires xs != [] && Distinct(xs) && target !in xs && forall x :: x in xs ==> x in st && st[x] == Int(0)
    ensures RunsLoop(target, vs, Chain(xs), st, end)
    ensures forall p :: 0 <= p < |xs| ==> xs[p] in end && end[xs[p]] == Int(if p + |vs| >= |xs| then 9 else 0)
    decreases |vs|
  {
    hide RunsBlock;
    end := st;
    if vs != [] {
      var n := |vs| - 1;
      var mid := ChainLoop(xs, target, vs[..n], st);
      assert forall x :: x in xs ==> x in mid;
      var start := mid[target := Int(vs[n])];
      end := ChainRuns(xs, start);
      forall p | 0 <= p < |xs| ensures end[xs[p]] == Int(if p + |vs| >= |xs| then 9 else 0) {
        assert end[xs[p]] == FollowerValue(xs, start, p);
        if p + 1 < |xs| {
          assert xs[p + 1] != target && start[xs[p + 1]] == mid[xs[p + 1]];
        }
      }
    }
  }

  /** On every chain of more than six names the loop leaves by the six-pass exit and still claims that the
      first name is 0, while a run with a trip for each name leaves it 9. */
  lemma SixPassesAreTooFew(xs: seq<string>, target: string, e: Facts, c: Interval, vs: seq<int>)
    requires |xs| > 6 && Distinct(xs) && target !in xs && c.Known? && (forall v :: v in vs ==> Allows(c, v)) && |vs| == |xs|
    requires e == map x | x in xs :: Known(0, 0)
    ensures var e0 := Set(e, target, c);
            var g := Unchanged(AbsTimes(Chain(xs), e0, 6), AbsTimes(Chain(xs), e0, 5));
            && AbsTimes(Chain(xs), e0, 6) != AbsTimes(Chain(xs), e0, 5)
            && xs[0] in g && g[xs[0]] == Known(0, 0)
            && exists st: Store, end: Store :: Admits(e, st) && RunsLoop(target, vs, Chain(xs), st, end) && !Admits(g, end)
  {
    hide AbsTimes, RunsLoop;
    var e0 := Set(e, target, c);
    assert forall x :: x in xs ==> x in e0 && e0[x] == Known(0, 0);
    SixPassesLeaveZero(xs, e0);
    var g := Unchanged(AbsTimes(Chain(xs), e0, 6), AbsTimes(Chain(xs), e0, 5));
    var st: Store := map x | x in xs :: Int(0);
    var end := ChainLoop(xs, target, vs, st);
    assert Admits(e, st);
    assert !Admits(g, end) by {
      assert xs[0] in end && end[xs[0]] == Int(9) && g[xs[0]].Known?;
    }
    assert Admits(e, st) && RunsLoop(target, vs, Chain(xs), st, end) && !Admits(g, end);
  }

  lemma SixPassesLeaveZero(xs: seq<string>, e: Facts)
    requires |xs| > 6 && Distinct(xs) && forall x :: x in xs ==> x in e && e[x] == Known(0, 0)
    ensures AbsTimes(Chain(xs), e, 6) != AbsTimes(Chain(xs), e, 5)
    ensures var g := Unchanged(AbsTimes(Chain(xs), e, 6), AbsTimes(Chain(xs), e, 5));
            xs[0] in g && g[xs[0]] == Known(0, 0)
  {
    hide AbsTimes;
    ChainPasses(xs, e, 6);
    ChainPasses(xs, e, 5);
    var f, before := AbsTimes(Chain(xs), e, 6), AbsTimes(Chain(xs), e, 5);
    var moved := |xs| - 6;
    assert f[xs[moved]] == Known(9, 9) && before[xs[moved]] == Known(0, 0);
    assert f[xs[0]] == Known(0, 0) && before[xs[0]] == Known(0, 0);
    assert xs[0] in xs;
  }
}
