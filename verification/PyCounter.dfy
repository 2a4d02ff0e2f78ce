/** Loop counters: the hull of a `range` counter and the bound of a `while i < K` counter. */
module PyCounter {
  import opened Int64
  import opened Intervals
  import opened Options
  import opened PyText
  import opened PyEval
  import opened PyLoops

  // ---------------------------------------------------------------- range(...)

  /** The hull of the endpoints; with one argument the start is 0 and the step never matters. */
  function RangeCounterIV(bounds: seq<Interval>): Interval
    requires 1 <= |bounds| <= 3 && forall b :: b in bounds ==> b.Known?
  {
    var lo := if |bounds| == 1 then Min(0, bounds[0].lo) else Min(bounds[0].lo, bounds[1].lo);
    var hi := if |bounds| == 1 then Max(0, bounds[0].hi) else Max(bounds[0].hi, bounds[1].hi);
    if hi < lo then Known(hi, lo) else Known(lo, hi)
  }

  /** v is an element of Python's range(start, stop, step). */
  ghost predicate InRange(v: int, start: int, stop: int, step: int) {
    && step != 0
    && (exists k: nat :: v == start + k * step)
    && (if step > 0 then v < stop else v > stop)
  }

  /** The arguments of a call as (start, stop, step). */
  function RangeArgs(args: seq<int>): (int, int, int)
    requires 1 <= |args| <= 3
  {
    if |args| == 1 then (0, args[0], 1) else (args[0], args[1], if |args| == 2 then 1 else args[2])
  }

  /** Every value the counter takes, for every choice of arguments the intervals allow and a
      step of either sign, lies in the hull. */
  lemma RangeCounterSound(bounds: seq<Interval>, args: seq<int>, v: int)
    requires 1 <= |bounds| == |args| <= 3 && forall b :: b in bounds ==> b.Known?
    requires forall i :: 0 <= i < |args| ==> Allows(bounds[i], args[i])
    requires var (start, stop, step) := RangeArgs(args); InRange(v, start, stop, step)
    ensures Allows(RangeCounterIV(bounds), v)
  {
  }

  /** Where a counter may start or stop, for some arguments the intervals allow. */
  ghost predicate IsEndpoint(bounds: seq<Interval>, v: int)
    requires 1 <= |bounds| <= 3
  {
    (if |bounds| == 1 then v == 0 else Allows(bounds[0], v)) || Allows(bounds[if |bounds| == 1 then 0 else 1], v)
  }

  /** The hull is the smallest interval that holds every start and every stop. */
  lemma RangeCounterExactly(bounds: seq<Interval>)
    requires 1 <= |bounds| <= 3 && forall b :: b in bounds ==> b.Known? && NonEmpty(b)
    ensures var r := RangeCounterIV(bounds);
            && r.Known? && (forall v :: IsEndpoint(bounds, v) ==> r.lo <= v <= r.hi)
            && IsEndpoint(bounds, r.lo) && IsEndpoint(bounds, r.hi)
  {
    var a, b := bounds[0], bounds[if |bounds| == 1 then 0 else 1];
    assert a in bounds && b in bounds;
    assert Allows(a, a.lo) && Allows(a, a.hi) && Allows(b, b.lo) && Allows(b, b.hi);
  }

  /** `range(4, 6)` gives the counter [4, 6], and its elements are 4 and 5. */
  lemma FourAndFive(v: int)
    ensures RangeCounterIV([Known(4, 4), Known(6, 6)]) == Known(4, 6)
    ensures InRange(v, 4, 6, 1) <==> v == 4 || v == 5
  {
    assert 4 == 4 + 0 * 1 && 5 == 4 + 1 * 1;
  }

  // ---------------------------------------------------------------- while i OP K

  datatype Cmp = Lt | Le | Gt | Ge

  function Upward(op: Cmp): bool { op.Lt? || op.Le? }

  predicate Compares(op: Cmp, x: int, k: int) {
    match op case Lt => x < k case Le => x <= k case Gt => x > k case Ge => x >= k
  }

  /** The counter's interval: its entry interval stretched to the value it can leave the loop
      with, or None when the step goes the wrong way or an endpoint overflows. */
  function WhileCounterBound(op: Cmp, lit: int, init: Interval, delta: int): Option<Interval>
    requires Fits(lit) && Fits(delta) && init.Known?
  {
    if delta == 0 || Upward(op) != (delta > 0) then None
    else
      var last := if op.Lt? then AddOvf(lit, -1) else if op.Gt? then AddOvf(lit, 1) else Checked.Value(lit);
      AddOvfExact(lit, -1); AddOvfExact(lit, 1);
      if last.Overflow? then None
      else
        var exit := AddOvf(last.v, delta);
        AddOvfExact(last.v, delta);
        if exit.Overflow? then None
        else Some(if Upward(op) then Known(init.lo, exit.v) else Known(exit.v, init.hi))
  }

  /** The last number, going the counter's way, for which the condition holds. */
  predicate IsLast(op: Cmp, lit: int, last: int) {
    Compares(op, last, lit) && !Compares(op, if op.Lt? || op.Le? then last + 1 else last - 1, lit)
  }

  /** There is a bound exactly when the step is not zero and goes the condition's way and neither the last
      number nor one step beyond it overflows; it reaches from the entry interval to that value. */
  lemma WhileBoundExactly(op: Cmp, lit: int, init: Interval, delta: int, last: int)
    requires Fits(lit) && Fits(delta) && init.Known? && IsLast(op, lit, last)
    ensures WhileCounterBound(op, lit, init, delta)
            == if Fits(last) && Fits(last + delta) && (op.Lt? || op.Le?) && delta > 0 then Some(Known(init.lo, last + delta))
               else if Fits(last) && Fits(last + delta) && (op.Gt? || op.Ge?) && delta < 0 then Some(Known(last + delta, init.hi))
               else None
  {
    AddOvfExact(lit, -1);
    AddOvfExact(lit, 1);
    if Fits(last) {
      AddOvfExact(last, delta);
    }
  }

  /** The values of the counter at the loop head: each trip starts with the condition true
      and applies the step once or not at all. */
  ghost predicate CounterRun(op: Cmp, lit: int, delta: int, vs: seq<int>) {
    && vs != []
    && forall j :: 0 <= j < |vs| - 1 ==> Compares(op, vs[j], lit) && (vs[j + 1] == vs[j] || vs[j + 1] == vs[j] + delta)
  }

  /** No entry value lies beyond the exit value. */
  predicate EntryIsNotPast(op: Cmp, init: Interval, bound: Interval)
    requires init.Known? && bound.Known?
  {
    if Upward(op) then init.hi <= bound.hi else bound.lo <= init.lo
  }

  lemma {:induction false} CounterStaysBounded(op: Cmp, lit: int, init: Interval, delta: int, vs: seq<int>, j: nat)
    requires Fits(lit) && Fits(delta) && init.Known?
    requires var b := WhileCounterBound(op, lit, init, delta);
             b.Some? && EntryIsNotPast(op, init, b.value)
    requires CounterRun(op, lit, delta, vs) && Allows(init, vs[0]) && j < |vs|
    ensures Allows(WhileCounterBound(op, lit, init, delta).value, vs[j])
    ensures if Upward(op) then vs[j] >= vs[0] else vs[j] <= vs[0]
  {
    AddOvfExact(lit, -1);
    AddOvfExact(lit, 1);
    var last := if op.Lt? then lit - 1 else if op.Gt? then lit + 1 else lit;
    AddOvfExact(last, delta);
    if j > 0 {
      CounterStaysBounded(op, lit, init, delta, vs, j - 1);
      assert Compares(op, vs[j - 1], lit);
    }
  }

  /** The bound covers every loop-head value, the exit value included, of every run exactly
      when no entry value is already past it. */
  lemma WhileCounterExact(op: Cmp, lit: int, init: Interval, delta: int)
    requires Fits(lit) && Fits(delta) && init.Known? && NonEmpty(init)
    requires WhileCounterBound(op, lit, init, delta).Some?
    ensures var b := WhileCounterBound(op, lit, init, delta).value;
            (forall vs, j :: CounterRun(op, lit, delta, vs) && Allows(init, vs[0]) && 0 <= j < |vs| ==> Allows(b, vs[j]))
            <==> EntryIsNotPast(op, init, b)
  {
    var b := WhileCounterBound(op, lit, init, delta).value;
    if EntryIsNotPast(op, init, b) {
      forall vs, j | CounterRun(op, lit, delta, vs) && Allows(init, vs[0]) && 0 <= j < |vs| ensures Allows(b, vs[j]) {
        CounterStaysBounded(op, lit, init, delta, vs, j);
      }
    } else {
      var vs := [if Upward(op) then init.hi else init.lo];
      assert CounterRun(op, lit, delta, vs) && Allows(init, vs[0]) && !Allows(b, vs[0]);
    }
  }

  /** With a step of one the bound is tight: some run leaves the loop at its far end, and it starts
      at the entry interval's near one. */
  lemma UnitStepBoundIsTight(op: Cmp, lit: int, init: Interval, delta: int)
    requires Fits(lit) && (delta == 1 || delta == -1) && init.Known? && NonEmpty(init)
    requires var b := WhileCounterBound(op, lit, init, delta); b.Some? && EntryIsNotPast(op, init, b.value)
    ensures var b := WhileCounterBound(op, lit, init, delta).value;
            && (if Upward(op) then b.lo == init.lo else b.hi == init.hi)
            && exists vs :: CounterRun(op, lit, delta, vs) && Allows(init, vs[0])
                         && vs[|vs| - 1] == if Upward(op) then b.hi else b.lo
  {
    AddOvfExact(lit, -1);
    AddOvfExact(lit, 1);
    AddOvfExact(if op.Lt? then lit - 1 else if op.Gt? then lit + 1 else lit, delta);
    var b := WhileCounterBound(op, lit, init, delta).value;
    var start, end := if Upward(op) then init.lo else init.hi, if Upward(op) then b.hi else b.lo;
    var vs := CountingRun(op, lit, delta, start, end);
    assert Allows(init, vs[0]);
  }

  lemma {:induction false} CountingRun(op: Cmp, lit: int, delta: int, start: int, end: int) returns (vs: seq<int>)
    requires if Upward(op) then delta == 1 && start <= end else delta == -1 && end <= start
    requires Compares(op, end - delta, lit)
    ensures CounterRun(op, lit, delta, vs) && vs[0] == start && vs[|vs| - 1] == end
    decreases (end - start) * delta
  {
    if start == end {
      vs := [start];
    } else {
      var rest := CountingRun(op, lit, delta, start + delta, end);
      vs := [start] + rest;
    }
  }

  // ---------------------------------------------------------------- the step in the body

  /** Whether the source's pattern takes s for an assignment to the counter: a plain or `+=`/`-=`
      assignment whose text starts with the name. `*=`, and a later target, are not seen. */
  predicate Matches(s: Stmt, x: string) {
    (s.Assign? && s.targets != [] && s.targets[0] == x) || (s.Aug? && s.x == x && (s.op.Add? || s.op.Sub?))
  }

  function Matching(ss: seq<Stmt>, x: string): seq<Stmt>
    decreases ss, 0
  {
    if ss == [] then [] else MatchingIn(ss[0], x) + Matching(ss[1..], x)
  }

  function MatchingIn(s: Stmt, x: string): seq<Stmt>
    decreases s, 1
  {
    if s.If? then MatchingBranches(s.branches, x) else if Matches(s, x) then [s] else []
  }

  function MatchingBranches(bs: seq<Suite>, x: string): seq<Stmt>
    decreases bs, 0
  {
    if bs == [] then [] else MatchingBranches(bs[..|bs| - 1], x) + Matching(bs[|bs| - 1].stmts, x)
  }

  function Down(d: nat): Option<int> {
    var k: int := d;
    Some(-k)
  }

  /** The step of one recognised update: x = x + d, x = x - d, x = d + x, x += d, x -= d. */
  function StepOf(s: Stmt, x: string): Option<int> {
    match s
    case Assign(xs, Bin(Add, Name(y), Lit(d))) => if xs == [x] && y == x then Some(d) else None
    case Assign(xs, Bin(Sub, Name(y), Lit(d))) => if xs == [x] && y == x then Down(d) else None
    case Assign(xs, Bin(Add, Lit(d), Name(y))) => if xs == [x] && y == x then Some(d) else None
    case Aug(y, Add, Lit(d)) => if y == x then Some(d) else None
    case Aug(y, Sub, Lit(d)) => if y == x then Down(d) else None
    case _ => None
  }

  /** The constant step of the body's only matching assignment. */
  function CounterUpdate(body: seq<Stmt>, x: string): Option<int> {
    var m := Matching(body, x);
    if |m| != 1 then None else StepOf(m[0], x)
  }

  /** A plain assignment with x as its first target, or `x += e` or `x -= e`. */
  predicate IsSeenWrite(s: Stmt, x: string) {
    match s
    case Assign(xs, _) => |xs| > 0 && xs[0] == x
    case Aug(y, op, _) => y == x && (op == Add || op == Sub)
    case If(_, _) => false
  }

  /** Everything that writes x is a statement the pattern sees. */
  predicate AllWritesMatch(ss: seq<Stmt>, x: string)
    decreases ss, 0
  {
    ss != [] ==> AllWritesMatchIn(ss[0], x) && AllWritesMatch(ss[1..], x)
  }

  predicate AllWritesMatchIn(s: Stmt, x: string)
    decreases s, 1
  {
    match s
    case Assign(xs, _) => x in xs ==> IsSeenWrite(s, x)
    case Aug(y, _, _) => y == x ==> IsSeenWrite(s, x)
    case If(bs, _) => AllWritesMatchBranches(bs, x)
  }

  predicate AllWritesMatchBranches(bs: seq<Suite>, x: string)
    decreases bs, 0
  {
    bs != [] ==> AllWritesMatchBranches(bs[..|bs| - 1], x) && AllWritesMatch(bs[|bs| - 1].stmts, x)
  }

  /** The counter after a run: unchanged, or one step on when the run could meet the update m. */
  ghost predicate Steps(x: string, m: seq<Stmt>, st: Store, st': Store) {
    && x in st && x in st'
    && (st'[x] == st[x] || (|m| == 1 && StepOf(m[0], x).Some? && st[x].Int?
                            && st'[x] == Int(st[x].n + StepOf(m[0], x).value)))
  }

  lemma {:induction false} BindKeeps(st: Store, xs: seq<string>, v: Value, x: string)
    requires x !in xs && x in st
    ensures x in Bind(st, xs, v) && Bind(st, xs, v)[x] == st[x]
    decreases xs
  {
    if xs != [] {
      BindKeeps(st[xs[0] := v], xs[1..], v, x);
    }
  }

  lemma {:induction false} BlockSteps(ss: seq<Stmt>, x: string, st: Store, st': Store)
    requires AllWritesMatch(ss, x) && RunsBlock(ss, st, st') && x in st && st[x].Int?
    requires var m := Matching(ss, x); m == [] || (|m| == 1 && StepOf(m[0], x).Some?)
    ensures Steps(x, Matching(ss, x), st, st')
    decreases ss, 0
  {
    if ss != [] {
      var mid :| Runs(ss[0], st, mid) && RunsBlock(ss[1..], mid, st');
      var a, b := MatchingIn(ss[0], x), Matching(ss[1..], x);
      assert a == [] || b == [];
      assert a + b == if a == [] then b else a;
      StmtSteps(ss[0], x, st, mid);
      BlockSteps(ss[1..], x, mid, st');
    }
  }

  lemma AssignSteps(s: Stmt, x: string, st: Store, st': Store)
    requires s.Assign? && StepOf(s, x).Some? && Runs(s, st, st') && x in st && st[x].Int?
    ensures st' == st[x := Int(st[x].n + StepOf(s, x).value)]
  {
    var rhs := s.rhs;
    var v := Eval(rhs, st).value;
    assert s.targets == [x] && s.targets[1..] == [];
    assert Bind(st, s.targets, v) == Bind(st[x := v], [], v);
    assert st' == st[x := Eval(rhs, st).value];
    assert Eval(rhs.l, st) == (if rhs.l.Lit? then Some(Int(rhs.l.n)) else Some(st[x]));
    assert Eval(rhs.r, st) == (if rhs.r.Lit? then Some(Int(rhs.r.n)) else Some(st[x]));
  }

  lemma {:induction false} StmtSteps(s: Stmt, x: string, st: Store, st': Store)
    requires AllWritesMatchIn(s, x) && Runs(s, st, st') && x in st && st[x].Int?
    requires var m := MatchingIn(s, x); m == [] || (|m| == 1 && StepOf(m[0], x).Some?)
    ensures Steps(x, MatchingIn(s, x), st, st')
    decreases s, 1
  {
    match s
    case Assign(xs, rhs) =>
      if x !in xs {
        BindKeeps(st, xs, Eval(rhs, st).value, x);
      } else {
        AssignSteps(s, x, st, st');
      }
    case Aug(_, _, _) =>
    case If(bs, _) =>
      if RunsOneOf(bs, st, st') {
        BranchSteps(bs, x, st, st');
      }
  }

  lemma {:induction false} BranchSteps(bs: seq<Suite>, x: string, st: Store, st': Store)
    requires AllWritesMatchBranches(bs, x) && RunsOneOf(bs, st, st') && x in st && st[x].Int?
    requires var m := MatchingBranches(bs, x); m == [] || (|m| == 1 && StepOf(m[0], x).Some?)
    ensures Steps(x, MatchingBranches(bs, x), st, st')
    decreases bs, 0
  {
    var n := |bs| - 1;
    var a, b := MatchingBranches(bs[..n], x), Matching(bs[n].stmts, x);
    assert a == [] || b == [];
    assert a + b == if a == [] then b else a;
    if RunsBlock(bs[n].stmts, st, st') {
      BlockSteps(bs[n].stmts, x, st, st');
    } else {
      BranchSteps(bs[..n], x, st, st');
    }
  }

  /** A body with a recognised update steps the counter once or not at all. */
  lemma CounterUpdateSound(body: seq<Stmt>, x: string, st: Store, st': Store)
    requires CounterUpdate(body, x).Some? && AllWritesMatch(body, x)
    requires RunsBlock(body, st, st') && x in st && st[x].Int?
    ensures x in st' && st'[x].Int?
    ensures st'[x].n == st[x].n || st'[x].n == st[x].n + CounterUpdate(body, x).value
  {
    BlockSteps(body, x, st, st');
  }

  lemma {:induction false} UnwrittenHasNoMatch(ss: seq<Stmt>, x: string)
    requires x !in WrittenNames(ss)
    ensures Matching(ss, x) == []
    decreases ss, 0
  {
    if ss != [] {
      if ss[0].If? {
        UnwrittenBranchesHaveNoMatch(ss[0].branches, x);
      }
      UnwrittenHasNoMatch(ss[1..], x);
    }
  }

  lemma {:induction false} UnwrittenBranchesHaveNoMatch(bs: seq<Suite>, x: string)
    requires x !in WrittenNamesOf(bs)
    ensures MatchingBranches(bs, x) == []
    decreases bs, 0
  {
    if bs != [] {
      UnwrittenBranchesHaveNoMatch(bs[..|bs| - 1], x);
      UnwrittenHasNoMatch(bs[|bs| - 1].stmts, x);
    }
  }

  lemma {:induction false} MatchingSplits(ss: seq<Stmt>, rest: seq<Stmt>, x: string)
    ensures Matching(ss + rest, x) == Matching(ss, x) + Matching(rest, x)
    decreases |ss|
  {
    if ss == [] {
      assert ss + rest == rest;
    } else {
      assert (ss + rest)[1..] == ss[1..] + rest;
      MatchingSplits(ss[1..], rest, x);
    }
  }

  /** The only write of x in a body, in any of its five forms, gives the step. */
  lemma UpdateIsRecognised(before: seq<Stmt>, s: Stmt, after: seq<Stmt>, x: string, d: nat)
    requires x !in WrittenNames(before) && x !in WrittenNames(after)
    ensures s in [Assign([x], Bin(Add, Name(x), Lit(d))), Assign([x], Bin(Add, Lit(d), Name(x))), Aug(x, Add, Lit(d))]
            ==> CounterUpdate(before + [s] + after, x) == Some(d)
    ensures s in [Assign([x], Bin(Sub, Name(x), Lit(d))), Aug(x, Sub, Lit(d))]
            ==> CounterUpdate(before + [s] + after, x) == Down(d) == Some(0 - d)
  {
    UnwrittenHasNoMatch(before, x);
    UnwrittenHasNoMatch(after, x);
    OnlyMatch(before, s, after, x);
    OneMatch(s, x);
    hide Matching, WrittenNames, MatchingIn;
  }

  lemma OnlyMatch(before: seq<Stmt>, s: Stmt, after: seq<Stmt>, x: string)
    requires Matching(before, x) == [] && Matching(after, x) == []
    ensures Matching(before + [s] + after, x) == MatchingIn(s, x)
  {
    hide Matching, MatchingIn;
    MatchingSplits(before + [s], after, x);
    MatchingSplits(before, [s], x);
    MatchingOne(s, x);
    assert [] + MatchingIn(s, x) + [] == MatchingIn(s, x);
  }

  lemma MatchingOne(s: Stmt, x: string)
    ensures Matching([s], x) == MatchingIn(s, x)
  {
    assert [s][1..] == [] && MatchingIn(s, x) + [] == MatchingIn(s, x);
  }

  lemma OneMatch(s: Stmt, x: string)
    ensures s.Assign? && s.targets == [x] ==> MatchingIn(s, x) == [s]
    ensures s.Aug? && s.x == x && (s.op.Add? || s.op.Sub?) ==> MatchingIn(s, x) == [s]
  {
  }

  // ---------------------------------------------------------------- the while loop

  /** The source's loop over a bounded counter: the counter is reset to its bound after every pass. */
  function AbsWhileTimes(body: seq<Stmt>, x: string, bound: Interval, e: Facts, k: nat): Facts {
    Set(if k == 0 then e else AbsBlock(body, AbsWhileTimes(body, x, bound, e, k - 1)), x, bound)
  }

  /** The stores at the head of `while x OP lit: body`, in order. */
  ghost predicate WhileRun(op: Cmp, lit: int, x: string, body: seq<Stmt>, heads: seq<Store>) {
    && heads != [] && x in heads[0] && heads[0][x].Int?
    && forall j :: 0 <= j < |heads| - 1 ==>
         && RunsBlock(body, heads[j], heads[j + 1])
         && (x in heads[j] && heads[j][x].Int? ==> Compares(op, heads[j][x].n, lit))
  }

  lemma {:induction false} HeadsCount(op: Cmp, lit: int, x: string, body: seq<Stmt>, heads: seq<Store>, j: nat)
    requires CounterUpdate(body, x).Some? && AllWritesMatch(body, x)
    requires WhileRun(op, lit, x, body, heads) && j < |heads|
    ensures forall i :: 0 <= i <= j ==> x in heads[i] && heads[i][x].Int?
    ensures CounterRun(op, lit, CounterUpdate(body, x).value, seq(j + 1, i requires 0 <= i <= j => heads[i][x].n))
  {
    if j > 0 {
      HeadsCount(op, lit, x, body, heads, j - 1);
      CounterUpdateSound(body, x, heads[j - 1], heads[j]);
      assert Compares(op, heads[j - 1][x].n, lit);
      var before := seq(j, i requires 0 <= i < j => heads[i][x].n);
      var vs := seq(j + 1, i requires 0 <= i <= j => heads[i][x].n);
      assert before == seq(j, i requires 0 <= i <= j - 1 => heads[i][x].n);
      assert forall i :: 0 <= i < j ==> vs[i] == before[i];
      assert vs[j] == heads[j][x].n && vs[j - 1] == heads[j - 1][x].n;
    }
  }

  /** A bounded `while` is sound at every loop head: the counter stays in its bound, and after
      n trips the env of n passes admits the store. */
  lemma {:induction false} WhileSound(op: Cmp, lit: int, x: string, body: seq<Stmt>, e: Facts, heads: seq<Store>, n: nat)
    requires Fits(lit) && x in e && CounterUpdate(body, x).Some? && AllWritesMatch(body, x)
    requires var d := CounterUpdate(body, x).value;
             && Fits(d) && WhileCounterBound(op, lit, e[x], d).Some?
             && EntryIsNotPast(op, e[x], WhileCounterBound(op, lit, e[x], d).value)
    requires WhileRun(op, lit, x, body, heads) && Admits(e, heads[0]) && n < |heads|
    requires var b := WhileCounterBound(op, lit, e[x], CounterUpdate(body, x).value).value;
             forall k :: 0 <= k < n ==> Clean(body, AbsWhileTimes(body, x, b, e, k))
    ensures var b := WhileCounterBound(op, lit, e[x], CounterUpdate(body, x).value).value;
            Admits(AbsWhileTimes(body, x, b, e, n), heads[n])
  {
    hide Clean, AbsBlock, RunsBlock, AllWritesMatch, CounterUpdate, WhileCounterBound, CounterRun;
    var d := CounterUpdate(body, x).value;
    var b := WhileCounterBound(op, lit, e[x], d).value;
    HeadsCount(op, lit, x, body, heads, n);
    var vs := seq(n + 1, i requires 0 <= i <= n => heads[i][x].n);
    CounterStaysBounded(op, lit, e[x], d, vs, n);
    assert heads[n] == heads[n][x := heads[n][x]];
    if n == 0 {
      SetAdmits(e, heads[0], x, b, heads[0][x]);
    } else {
      WhileSound(op, lit, x, body, e, heads, n - 1);
      BlockSound(body, AbsWhileTimes(body, x, b, e, n - 1), heads[n - 1], heads[n]);
      SetAdmits(AbsBlock(body, AbsWhileTimes(body, x, b, e, n - 1)), heads[n], x, b, heads[n][x]);
    }
  }

  lemma {:induction false} WhileStableStays(body: seq<Stmt>, x: string, b: Interval, e: Facts, k: nat, n: nat)
    requires 1 <= k && k - 1 <= n && AbsWhileTimes(body, x, b, e, k) == AbsWhileTimes(body, x, b, e, k - 1)
    ensures AbsWhileTimes(body, x, b, e, n) == AbsWhileTimes(body, x, b, e, k)
    decreases n
  {
    if n > k {
      WhileStableStays(body, x, b, e, k, n - 1);
    }
  }

  /** If the passes stabilise at the k-th, the final env admits the store at every loop head
      from the (k - 1)-th on, the exit included. */
  lemma WhileFixpointSound(op: Cmp, lit: int, x: string, body: seq<Stmt>, e: Facts, heads: seq<Store>, k: nat)
    requires Fits(lit) && x in e && CounterUpdate(body, x).Some? && AllWritesMatch(body, x)
    requires var d := CounterUpdate(body, x).value;
             && Fits(d) && WhileCounterBound(op, lit, e[x], d).Some?
             && EntryIsNotPast(op, e[x], WhileCounterBound(op, lit, e[x], d).value)
    requires WhileRun(op, lit, x, body, heads) && Admits(e, heads[0]) && 1 <= k <= |heads|
    requires var b := WhileCounterBound(op, lit, e[x], CounterUpdate(body, x).value).value;
             && AbsWhileTimes(body, x, b, e, k) == AbsWhileTimes(body, x, b, e, k - 1)
             && forall j :: 0 <= j < k ==> Clean(body, AbsWhileTimes(body, x, b, e, j))
    ensures var b := WhileCounterBound(op, lit, e[x], CounterUpdate(body, x).value).value;
            forall n :: k - 1 <= n < |heads| ==> Admits(AbsWhileTimes(body, x, b, e, k), heads[n])
  {
    hide Clean, AbsWhileTimes, AllWritesMatch, CounterUpdate, WhileCounterBound, WhileRun, EntryIsNotPast;
    var b := WhileCounterBound(op, lit, e[x], CounterUpdate(body, x).value).value;
    forall n | k - 1 <= n < |heads| ensures Admits(AbsWhileTimes(body, x, b, e, k), heads[n]) {
      forall j | 0 <= j < n ensures Clean(body, AbsWhileTimes(body, x, b, e, j)) {
        if j >= k {
          WhileStableStays(body, x, b, e, k, j);
          assert Clean(body, AbsWhileTimes(body, x, b, e, k - 1));
        }
      }
      WhileSound(op, lit, x, body, e, heads, n);
      WhileStableStays(body, x, b, e, k, n);
    }
  }

  /** The source's run of a bounded `while`: six passes at most, the counter reset after each. */
  method RunBoundedWhile(r: RangeRun, x: string, bound: Interval, body: seq<Stmt>) returns (stable: bool, ghost k: nat)
    modifies r
    ensures 1 <= k <= 6
    ensures stable ==> r.e == AbsWhileTimes(body, x, bound, old(r.e), k) == AbsWhileTimes(body, x, bound, old(r.e), k - 1)
    ensures !stable ==> r.e == Set(Unchanged(AbsWhileTimes(body, x, bound, old(r.e), 6),
                                             AbsWhileTimes(body, x, bound, old(r.e), 5)), x, bound)
  {
    hide AbsBlock, Set, Unchanged;
    ghost var entry := r.e;
    r.e := Set(r.e, x, bound);
    k, stable := 0, false;
    var i := 0;
    while i < PASSES && !stable
      invariant k == i && r.e == AbsWhileTimes(body, x, bound, entry, i) && i <= PASSES
      invariant stable ==> i >= 1 && r.e == AbsWhileTimes(body, x, bound, entry, i - 1)
      invariant !stable ==> i < PASSES
      decreases PASSES - i, !stable
    {
      var before := r.e;
      r.RunBlock(body);
      r.e := Set(r.e, x, bound);
      i := i + 1;
      k := i;
      if r.e == before {
        stable := true;
      } else if i == PASSES {
        r.e := Unchanged(r.e, before);
        break;
      }
    }
    if !stable {
      r.e := Set(r.e, x, bound);
    }
  }

  /** Through it the counter has its bound, and a name the body never writes keeps what is known of it. */
  lemma {:induction false} WhileKeepsTheRest(body: seq<Stmt>, x: string, bound: Interval, e: Facts, k: nat, y: string)
    requires bound.Known?
    ensures var f := AbsWhileTimes(body, x, bound, e, k);
            && x in f && f[x] == bound
            && (y != x && !Writes(body, y) ==> (y in f <==> y in e) && (y in e ==> f[y] == e[y]))
    decreases k
  {
    hide AbsBlock, Writes;
    if k > 0 {
      WhileKeepsTheRest(body, x, bound, e, k - 1, y);
      if !Writes(body, y) {
        BlockKeeps(body, AbsWhileTimes(body, x, bound, e, k - 1), y);
      }
    }
  }

  // ---------------------------------------------------------------- a while loop without a counter

  function WrittenNames(ss: seq<Stmt>): set<string>
    decreases ss, 0
  {
    if ss == [] then {} else WrittenNamesIn(ss[0]) + WrittenNames(ss[1..])
  }

  function WrittenNamesIn(s: Stmt): set<string>
    decreases s, 1
  {
    match s
    case Assign(xs, _) => set x | x in xs
    case Aug(x, _, _) => {x}
    case If(bs, _) => WrittenNamesOf(bs)
  }

  function WrittenNamesOf(bs: seq<Suite>): set<string>
    decreases bs, 0
  {
    if bs == [] then {} else WrittenNamesOf(bs[..|bs| - 1]) + WrittenNames(bs[|bs| - 1].stmts)
  }

  /** The names collected are those the body writes, in whatever branch. */
  lemma {:induction false} WrittenNamesExactly(ss: seq<Stmt>, x: string)
    ensures x in WrittenNames(ss) <==> Writes(ss, x)
    decreases ss, 0
  {
    if ss != [] {
      WrittenNamesExactly(ss[1..], x);
      if ss[0].If? {
        WrittenInBranchesExactly(ss[0].branches, x);
      }
      assert x in WrittenNamesIn(ss[0]) <==> WritesIn(ss[0], x);
      if Writes(ss, x) {
        var i :| 0 <= i < |ss| && WritesIn(ss[i], x);
        assert i > 0 ==> ss[1..][i - 1] == ss[i];
      }
      if Writes(ss[1..], x) {
        var i :| 0 <= i < |ss[1..]| && WritesIn(ss[1..][i], x);
        assert ss[i + 1] == ss[1..][i];
      }
    }
  }

  lemma {:induction false} WrittenInBranchesExactly(bs: seq<Suite>, x: string)
    ensures x in WrittenNamesOf(bs) <==> exists i :: 0 <= i < |bs| && Writes(bs[i].stmts, x)
    decreases bs, 0
  {
    if bs != [] {
      var n := |bs| - 1;
      WrittenInBranchesExactly(bs[..n], x);
      WrittenNamesExactly(bs[n].stmts, x);
      assert forall i :: 0 <= i < n ==> bs[..n][i] == bs[i];
    }
  }

  lemma {:induction false} UnwrittenStays(ss: seq<Stmt>, st: Store, st': Store, x: string)
    requires RunsBlock(ss, st, st') && x !in WrittenNames(ss) && x in st
    ensures x in st' && st'[x] == st[x]
    decreases ss, 0
  {
    if ss != [] {
      var mid :| Runs(ss[0], st, mid) && RunsBlock(ss[1..], mid, st');
      var s := ss[0];
      match s {
        case Assign(xs, rhs) => BindKeeps(st, xs, Eval(rhs, st).value, x);
        case Aug(_, _, _) =>
        case If(bs, _) =>
          if RunsOneOf(bs, st, mid) {
            UnwrittenStaysInBranch(bs, st, mid, x);
          }
      }
      UnwrittenStays(ss[1..], mid, st', x);
    }
  }

  lemma {:induction false} UnwrittenStaysInBranch(bs: seq<Suite>, st: Store, st': Store, x: string)
    requires RunsOneOf(bs, st, st') && x !in WrittenNamesOf(bs) && x in st
    ensures x in st' && st'[x] == st[x]
    decreases bs, 0
  {
    var n := |bs| - 1;
    if RunsBlock(bs[n].stmts, st, st') {
      UnwrittenStays(bs[n].stmts, st, st', x);
    } else {
      UnwrittenStaysInBranch(bs[..n], st, st', x);
    }
  }

  /** Dropping every name the body assigns is sound at every loop head of every run, the run
      of no trips included, whatever the condition. */
  lemma {:induction false} DroppingWrittenIsSound(body: seq<Stmt>, e: Facts, heads: seq<Store>, n: nat)
    requires heads != [] && Admits(e, heads[0]) && n < |heads|
    requires forall j :: 0 <= j < |heads| - 1 ==> RunsBlock(body, heads[j], heads[j + 1])
    ensures Admits(e - WrittenNames(body), heads[n])
  {
    if n > 0 {
      DroppingWrittenIsSound(body, e, heads, n - 1);
      forall x | x in e - WrittenNames(body) ensures x in heads[n] && heads[n][x] == heads[n - 1][x] {
        UnwrittenStays(body, heads[n - 1], heads[n], x);
      }
    }
  }

  // ---------------------------------------------------------------- which bodies keep the bound

  /** The value one step past the last for which the condition holds. */
  function ExitValue(op: Cmp, lit: int, delta: int): int {
    (if op.Lt? then lit - 1 else if op.Gt? then lit + 1 else lit) + delta
  }

  /** From every int64 value that satisfies the condition, the body moves the counter, if at all, in
      the step's direction and not beyond the exit value. */
  ghost predicate TripsStayInside(op: Cmp, lit: int, x: string, body: seq<Stmt>, delta: int) {
    forall st: Store, st': Store :: RunsBlock(body, st, st') && x in st && st[x].Int? && Fits(st[x].n) && Compares(op, st[x].n, lit) ==>
      && x in st' && st'[x].Int?
      && if Upward(op) then st[x].n <= st'[x].n <= ExitValue(op, lit, delta)
         else ExitValue(op, lit, delta) <= st'[x].n <= st[x].n
  }

  /** Every head of every run entered with the counter in init lies in the bound computed for init. */
  ghost predicate KeepsBound(op: Cmp, lit: int, x: string, body: seq<Stmt>, init: Interval, b: Interval)
    requires b.Known?
  {
    forall heads: seq<Store>, j: int :: WhileRun(op, lit, x, body, heads) && Admits(map[x := init], heads[0]) && 0 <= j < |heads| ==>
      x in heads[j] && heads[j][x].Int? && Allows(b, heads[j][x].n)
  }

  lemma BoundValue(op: Cmp, lit: int, init: Interval, delta: int)
    requires Fits(lit) && Fits(delta) && init.Known? && WhileCounterBound(op, lit, init, delta).Some?
    ensures var exit := ExitValue(op, lit, delta);
            && Fits(exit) && (if Upward(op) then delta > 0 else delta < 0)
            && WhileCounterBound(op, lit, init, delta).value
               == (if Upward(op) then Known(init.lo, exit) else Known(exit, init.hi))
    ensures forall other: Interval :: other.Known? ==> WhileCounterBound(op, lit, other, delta).Some?
  {
    AddOvfExact(lit, -1);
    AddOvfExact(lit, 1);
    AddOvfExact(ExitValue(op, lit, 0), delta);
  }

  lemma {:induction false} HeadsStayInside(op: Cmp, lit: int, x: string, body: seq<Stmt>, delta: int, init: Interval,
                                           heads: seq<Store>, j: nat)
    requires TripsStayInside(op, lit, x, body, delta) && WhileRun(op, lit, x, body, heads) && j < |heads|
    requires Fits(ExitValue(op, lit, delta)) && init.Known? && Allows(init, heads[0][x].n)
    requires if Upward(op) then init.hi <= ExitValue(op, lit, delta) else ExitValue(op, lit, delta) <= init.lo
    ensures x in heads[j] && heads[j][x].Int?
    ensures if Upward(op) then init.lo <= heads[j][x].n <= ExitValue(op, lit, delta)
            else ExitValue(op, lit, delta) <= heads[j][x].n <= init.hi
    decreases j
  {
    if j > 0 {
      HeadsStayInside(op, lit, x, body, delta, init, heads, j - 1);
      assert RunsBlock(body, heads[j - 1], heads[j]) && Compares(op, heads[j - 1][x].n, lit);
    }
  }

  /** The exact condition for any body with a recognised step, whatever else it writes: the bounds
      computed for all entry intervals hold at every head of every run if and only if no single trip
      moves the counter back or past the exit value. */
  lemma BoundKeptExactly(op: Cmp, lit: int, x: string, body: seq<Stmt>)
    requires Fits(lit) && CounterUpdate(body, x).Some? && Fits(CounterUpdate(body, x).value)
    requires WhileCounterBound(op, lit, Known(lit, lit), CounterUpdate(body, x).value).Some?
    ensures var d := CounterUpdate(body, x).value;
            (forall init: Interval, b: Interval ::
               init.Known? && b.Known? && WhileCounterBound(op, lit, init, d) == Some(b) && EntryIsNotPast(op, init, b)
               ==> KeepsBound(op, lit, x, body, init, b))
            <==> TripsStayInside(op, lit, x, body, d)
  {
    hide RunsBlock, CounterUpdate, WhileCounterBound;
    var d := CounterUpdate(body, x).value;
    var exit := ExitValue(op, lit, d);
    BoundValue(op, lit, Known(lit, lit), d);
    if TripsStayInside(op, lit, x, body, d) {
      forall init: Interval, b: Interval |
        init.Known? && b.Known? && WhileCounterBound(op, lit, init, d) == Some(b) && EntryIsNotPast(op, init, b)
        ensures KeepsBound(op, lit, x, body, init, b)
      {
        BoundValue(op, lit, init, d);
        forall heads: seq<Store>, j: int | WhileRun(op, lit, x, body, heads) && Admits(map[x := init], heads[0]) && 0 <= j < |heads|
          ensures x in heads[j] && heads[j][x].Int? && Allows(b, heads[j][x].n)
        {
          HeadsStayInside(op, lit, x, body, d, init, heads, j);
        }
      }
    } else {
      var st: Store, st': Store :| RunsBlock(body, st, st') && x in st && st[x].Int? && Fits(st[x].n) && Compares(op, st[x].n, lit)
        && !(x in st' && st'[x].Int?
             && if Upward(op) then st[x].n <= st'[x].n <= exit else exit <= st'[x].n <= st[x].n);
      var init: Interval := Known(st[x].n, st[x].n);
      BoundValue(op, lit, init, d);
      var b: Interval := WhileCounterBound(op, lit, init, d).value;
      var heads := [st, st'];
      assert EntryIsNotPast(op, init, b);
      assert WhileRun(op, lit, x, body, heads) && Admits(map[x := init], heads[0]);
      assert heads[1] == st';
    }
  }

  /** Bodies whose writes are all of the recognised forms meet the condition. */
  lemma MatchedBodiesStayInside(op: Cmp, lit: int, x: string, body: seq<Stmt>)
    requires Fits(lit) && CounterUpdate(body, x).Some? && AllWritesMatch(body, x)
    requires if Upward(op) then CounterUpdate(body, x).value > 0 else CounterUpdate(body, x).value < 0
    ensures TripsStayInside(op, lit, x, body, CounterUpdate(body, x).value)
  {
    hide RunsBlock, CounterUpdate, AllWritesMatch;
    var d := CounterUpdate(body, x).value;
    forall st: Store, st': Store | RunsBlock(body, st, st') && x in st && st[x].Int? && Fits(st[x].n) && Compares(op, st[x].n, lit)
      ensures x in st' && st'[x].Int?
      ensures if Upward(op) then st[x].n <= st'[x].n <= ExitValue(op, lit, d)
              else ExitValue(op, lit, d) <= st'[x].n <= st[x].n
    {
      CounterUpdateSound(body, x, st, st');
    }
  }

  /** `i += 1; i *= 2`. */
  function Doubling(): seq<Stmt> { [Aug("i", Add, Lit(1)), Aug("i", Mul, Lit(2))] }

  lemma DoublingRuns(n: int)
    ensures RunsBlock(Doubling(), map["i" := Int(n)], map["i" := Int(2 * (n + 1))])
  {
    var body := Doubling();
    var st, mid, st': Store := map["i" := Int(n)], map["i" := Int(n + 1)], map["i" := Int(2 * (n + 1))];
    assert RunsBlock(body[1..][1..], st', st');
    assert Runs(body[1], mid, st');
    assert RunsBlock(body[1..], mid, st');
    assert Runs(body[0], st, mid);
  }

  function DoublingHeads(): seq<Store> {
    [map["i" := Int(0)], map["i" := Int(2)], map["i" := Int(6)], map["i" := Int(14)]]
  }

  /** `i *= 2` is not seen. `i = 0; while i < 10: i += 1; i *= 2` gets the bound [0, 10], but its heads
      are 0, 2, 6 and 14. */
  lemma OtherUpdatesAreMissed()
    ensures CounterUpdate(Doubling(), "i") == Some(1)
    ensures WhileCounterBound(Lt, 10, Known(0, 0), 1) == Some(Known(0, 10))
    ensures WhileRun(Lt, 10, "i", Doubling(), DoublingHeads()) && Admits(map["i" := Known(0, 0)], DoublingHeads()[0])
    ensures !Allows(Known(0, 10), DoublingHeads()[3]["i"].n)
  {
    var body := Doubling();
    assert Matching(body[1..][1..], "i") == [];
    assert Matching(body[1..], "i") == [];
    DoublingRuns(0);
    DoublingRuns(2);
    DoublingRuns(6);
    AddOvfExact(10, -1);
    AddOvfExact(9, 1);
  }
}
