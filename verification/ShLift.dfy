/** Which shell variables are lifted to native integers or strings: fixed points grown in
    whatever order a map is iterated, and what a lifted variable is in every run. */
module ShLift {
  import opened Int64
  import opened Options
  import opened ArithAst
  import G = ArithGuard
  import opened ShText
  import opened ShExpr

  // ---------------------------------------------------------------- the rules

  /** What a `for` loop iterates over; an element that is no literal is None. */
  datatype Iter = Items(elems: seq<Option<string>>) | Range(lo: int, hi: int) | Unknown

  /** The program as the analysis collects it: every variable's sources, the loops in order, and the
      names the context walk excludes, needs as strings, or reserves. The assignments it does not collect,
      which stand where a command is expected (`true && x=word`) or in an elsif body, come last. */
  datatype Program = Program(assigns: map<string, seq<Expr>>, loops: seq<(string, Iter)>, barred: set<string>,
                             unseen: seq<(string, Expr)>)

  /** Every element is known and reads as an integer. */
  predicate IterIsNumeric(it: Iter) {
    match it
    case Items(elems) => forall e :: e in elems ==> e.Some? && IsInteger(e.value)
    case Range(_, _) => true
    case Unknown => false
  }

  /** The iterable kept for each loop variable: a later loop overwrites an earlier one. */
  function ForIters(loops: seq<(string, Iter)>): map<string, Iter> {
    if loops == [] then map[]
    else ForIters(loops[..|loops| - 1])[loops[|loops| - 1].0 := loops[|loops| - 1].1]
  }

  predicate Eligible(p: Program, x: string) {
    x !in p.barred && '[' !in x && ']' !in x
  }

  predicate NumericSource(e: Expr, lifted: set<string>) {
    match e
    case ArithE(a) => !G.HasDivMod(a)
    case IntE(_) => true
    case Str(s) => IsInteger(s)
    case VarE(x) => x in lifted
    case GetVar(x) => x in lifted
    case _ => false
  }

  predicate StringSource(e: Expr, lifted: set<string>) {
    match e
    case Str(_) | Interp(_) | Capture => true
    case VarE(x) => x in lifted
    case GetVar(x) => x in lifted
    case _ => false
  }

  predicate NumericRule(p: Program, lifted: set<string>, x: string) {
    && x in p.assigns && Eligible(p, x)
    && (forall e :: e in p.assigns[x] ==> NumericSource(e, lifted))
    && (x in ForIters(p.loops) ==> IterIsNumeric(ForIters(p.loops)[x]))
  }

  predicate StringRule(p: Program, numeric: set<string>, lifted: set<string>, x: string) {
    && x in p.assigns && x !in numeric && Eligible(p, x)
    && (forall e :: e in p.assigns[x] ==> StringSource(e, lifted))
  }

  // ---------------------------------------------------------------- least fixed points

  type Rule = (set<string>, string) -> bool

  /** Lifting more variables never takes a lift away. */
  ghost predicate Monotone(rule: Rule) {
    forall a, b, x :: a <= b && rule(a, x) ==> rule(b, x)
  }

  /** The rule has nothing left to add. */
  ghost predicate Closed(names: set<string>, rule: Rule, s: set<string>) {
    forall x :: x in names && rule(s, x) ==> x in s
  }

  /** s holds exactly what the rule supports, and no closed set omits any of it. */
  ghost predicate IsLeastFixpoint(names: set<string>, rule: Rule, s: set<string>) {
    && (forall x :: x in s <==> x in names && rule(s, x))
    && (forall t :: Closed(names, rule, t) ==> s <= t)
  }

  /** There is at most one least fixed point, so every run of the loop returns the same set. */
  lemma LeastFixpointIsUnique(names: set<string>, rule: Rule, s: set<string>, t: set<string>)
    requires IsLeastFixpoint(names, rule, s) && IsLeastFixpoint(names, rule, t)
    ensures s == t
  {
    assert Closed(names, rule, s) && Closed(names, rule, t);
  }

  /** The source's loop: passes over the names until one changes nothing. The order within a
      pass is arbitrary, as map iteration is, and additions take effect within the pass. */
  method ChaoticLift(names: set<string>, rule: Rule) returns (lifted: set<string>)
    requires Monotone(rule)
    ensures IsLeastFixpoint(names, rule, lifted)
  {
    lifted := {};
    var changed := true;
    while changed
      invariant forall x :: x in lifted ==> x in names && rule(lifted, x)
      invariant forall t :: Closed(names, rule, t) ==> lifted <= t
      invariant !changed ==> Closed(names, rule, lifted)
      decreases |names - lifted|, changed
    {
      changed := false;
      ghost var before := lifted;
      var todo := names;
      while todo != {}
        invariant todo <= names
        invariant forall x :: x in lifted ==> x in names && rule(lifted, x)
        invariant forall t :: Closed(names, rule, t) ==> lifted <= t
        invariant changed ==> before < lifted
        invariant !changed ==> lifted == before && forall x :: x in names - todo && rule(lifted, x) ==> x in lifted
        decreases todo
      {
        var x :| x in todo;
        todo := todo - {x};
        if x !in lifted && rule(lifted, x) {
          StaysLeast(names, rule, lifted, x);
          lifted := lifted + {x};
          changed := true;
        }
      }
      if changed {
        Shrinks(names, before, lifted);
      }
    }
  }

  lemma StaysLeast(names: set<string>, rule: Rule, lifted: set<string>, x: string)
    requires Monotone(rule) && x in names && rule(lifted, x)
    requires forall y :: y in lifted ==> rule(lifted, y)
    requires forall t :: Closed(names, rule, t) ==> lifted <= t
    ensures forall y :: y in lifted + {x} ==> rule(lifted + {x}, y)
    ensures forall t :: Closed(names, rule, t) ==> lifted + {x} <= t
  {
  }

  lemma Shrinks(names: set<string>, before: set<string>, after: set<string>)
    requires before < after <= names
    ensures |names - after| < |names - before|
  {
    var x :| x in after && x !in before;
    assert names - after <= (names - before) - {x};
    SubsetIsSmaller(names - after, (names - before) - {x});
  }

  lemma {:induction false} SubsetIsSmaller(a: set<string>, b: set<string>)
    requires a <= b
    ensures |a| <= |b|
    decreases a
  {
    if a != {} {
      var x :| x in a;
      SubsetIsSmaller(a - {x}, b - {x});
    }
  }

  function NumericRuleOf(p: Program): Rule {
    (lifted: set<string>, x: string) => NumericRule(p, lifted, x)
  }

  function StringRuleOf(p: Program, numeric: set<string>): Rule {
    (lifted: set<string>, x: string) => StringRule(p, numeric, lifted, x)
  }

  lemma RulesAreMonotone(p: Program, numeric: set<string>)
    ensures Monotone(NumericRuleOf(p)) && Monotone(StringRuleOf(p, numeric))
  {
  }

  method NumericLiftVars(p: Program) returns (lifted: set<string>)
    ensures IsLeastFixpoint(p.assigns.Keys, NumericRuleOf(p), lifted)
  {
    RulesAreMonotone(p, {});
    lifted := ChaoticLift(p.assigns.Keys, NumericRuleOf(p));
  }

  method StringLiftVars(p: Program, numeric: set<string>) returns (lifted: set<string>)
    ensures IsLeastFixpoint(p.assigns.Keys, StringRuleOf(p, numeric), lifted)
  {
    RulesAreMonotone(p, numeric);
    lifted := ChaoticLift(p.assigns.Keys, StringRuleOf(p, numeric));
  }

  /** No variable is lifted both ways. */
  lemma LiftsAreDisjoint(p: Program, numeric: set<string>, strings: set<string>)
    requires IsLeastFixpoint(p.assigns.Keys, StringRuleOf(p, numeric), strings)
    ensures numeric !! strings
  {
  }

  // ---------------------------------------------------------------- what is lifted

  /** x may be lifted at all: assigned, not barred, no element of an array. */
  predicate MayLift(p: Program, x: string) {
    x in p.assigns && x !in p.barred && forall c :: c in x ==> c != '[' && c != ']'
  }

  /** x is a string, shown in k steps: every source of it is a literal, an interpolation or a capture, or
      copies a variable that is shown to be one in fewer steps. */
  predicate StringIn(p: Program, numeric: set<string>, x: string, k: nat)
    decreases k, 1
  {
    MayLift(p, x) && x !in numeric && forall e :: e in p.assigns[x] ==> StringFrom(p, numeric, e, k)
  }

  predicate StringFrom(p: Program, numeric: set<string>, e: Expr, k: nat)
    decreases k, 0
  {
    match e
    case Str(_) | Interp(_) | Capture => true
    case VarE(y) => k > 0 && StringIn(p, numeric, y, k - 1)
    case GetVar(y) => k > 0 && StringIn(p, numeric, y, k - 1)
    case IntE(_) | Concat(_, _) | Compare(_, _) | Numeric(_, _) | ArithE(_) | Other => false
  }

  ghost predicate IsString(p: Program, numeric: set<string>, x: string) {
    exists k: nat :: StringIn(p, numeric, x, k)
  }

  lemma {:induction false} StringStays(p: Program, numeric: set<string>, x: string, k: nat, m: nat)
    requires StringIn(p, numeric, x, k) && k <= m
    ensures StringIn(p, numeric, x, m)
    decreases k
  {
    forall e | e in p.assigns[x] ensures StringFrom(p, numeric, e, m) {
      assert StringFrom(p, numeric, e, k);
      match e {
        case VarE(y) => StringStays(p, numeric, y, k - 1, m - 1);
        case GetVar(y) => StringStays(p, numeric, y, k - 1, m - 1);
        case _ =>
      }
    }
  }

  /** The string lift: x is lifted if and only if it is shown to be a string in some number of steps. */
  lemma StringLiftExactly(p: Program, numeric: set<string>, strings: set<string>, x: string)
    requires IsLeastFixpoint(p.assigns.Keys, StringRuleOf(p, numeric), strings)
    ensures x in strings <==> IsString(p, numeric, x)
  {
    if IsString(p, numeric, x) {
      var k: nat :| StringIn(p, numeric, x, k);
      ShownIsLifted(p, numeric, strings, x, k);
    }
    var shown := set y | y in p.assigns.Keys && IsString(p, numeric, y);
    forall y | y in p.assigns.Keys && StringRuleOf(p, numeric)(shown, y) ensures y in shown {
      var k := StepsForAll(p, numeric, shown, p.assigns[y]);
      assert StringIn(p, numeric, y, k);
    }
    assert Closed(p.assigns.Keys, StringRuleOf(p, numeric), shown);
  }

  lemma {:induction false} ShownIsLifted(p: Program, numeric: set<string>, strings: set<string>, x: string, k: nat)
    requires IsLeastFixpoint(p.assigns.Keys, StringRuleOf(p, numeric), strings) && StringIn(p, numeric, x, k)
    ensures x in strings
    decreases k
  {
    forall e | e in p.assigns[x] ensures StringSource(e, strings) {
      assert StringFrom(p, numeric, e, k);
      match e {
        case VarE(y) => ShownIsLifted(p, numeric, strings, y, k - 1);
        case GetVar(y) => ShownIsLifted(p, numeric, strings, y, k - 1);
        case _ =>
      }
    }
    assert StringRuleOf(p, numeric)(strings, x);
  }

  /** Sources that copy only variables shown to be strings are shown together in some number of steps. */
  lemma {:induction false} StepsForAll(p: Program, numeric: set<string>, shown: set<string>, es: seq<Expr>) returns (k: nat)
    requires forall y :: y in shown ==> IsString(p, numeric, y)
    requires forall e :: e in es ==> StringSource(e, shown)
    ensures forall e :: e in es ==> StringFrom(p, numeric, e, k)
    decreases |es|
  {
    k := 0;
    if es != [] {
      var rest := StepsForAll(p, numeric, shown, es[1..]);
      var first := StepsForOne(p, numeric, shown, es[0]);
      k := if first > rest then first else rest;
      forall e | e in es ensures StringFrom(p, numeric, e, k) {
        if e == es[0] {
          FromStays(p, numeric, e, first, k);
        } else {
          assert e in es[1..];
          FromStays(p, numeric, e, rest, k);
        }
      }
    }
  }

  lemma StepsForOne(p: Program, numeric: set<string>, shown: set<string>, e: Expr) returns (k: nat)
    requires (forall y :: y in shown ==> IsString(p, numeric, y)) && StringSource(e, shown)
    ensures StringFrom(p, numeric, e, k)
  {
    k := 0;
    if e.VarE? || e.GetVar? {
      var j: nat :| StringIn(p, numeric, e.x, j);
      k := j + 1;
    }
  }

  lemma FromStays(p: Program, numeric: set<string>, e: Expr, k: nat, m: nat)
    requires StringFrom(p, numeric, e, k) && k <= m
    ensures StringFrom(p, numeric, e, m)
  {
    if e.VarE? || e.GetVar? {
      StringStays(p, numeric, e.x, k - 1, m - 1);
    }
  }

  /** A variable with nothing but literals is lifted; one with an arithmetic, array or unknown source never. */
  lemma LiteralsAreLifted(p: Program, numeric: set<string>, strings: set<string>, x: string)
    requires IsLeastFixpoint(p.assigns.Keys, StringRuleOf(p, numeric), strings) && MayLift(p, x) && x !in numeric
    ensures (forall e :: e in p.assigns[x] ==> e.Str?) ==> x in strings
    ensures (exists e :: e in p.assigns[x] && (e.ArithE? || e.IntE? || e.Other?)) ==> x !in strings
  {
    StringLiftExactly(p, numeric, strings, x);
    if forall e :: e in p.assigns[x] ==> e.Str? {
      assert StringIn(p, numeric, x, 0);
    }
    if x in strings {
      var k: nat :| StringIn(p, numeric, x, k);
      assert forall e :: e in p.assigns[x] ==> StringFrom(p, numeric, e, k);
    }
  }

  // The numeric lift in the same way.

  /** Nothing after the i-th loop runs over x, which that loop does. */
  predicate IsLastLoop(loops: seq<(string, Iter)>, x: string, i: nat) {
    i < |loops| && loops[i].0 == x && forall j :: i < j < |loops| ==> loops[j].0 != x
  }

  /** The loop over x that stands last binds it to integers only. */
  ghost predicate LastLoopIsNumeric(p: Program, x: string) {
    forall i: nat :: IsLastLoop(p.loops, x, i) ==>
      match p.loops[i].1
      case Items(elems) => forall e :: e in elems ==> e.Some? && IsInteger(e.value)
      case Range(_, _) => true
      case Unknown => false
  }

  /** x is an integer, shown in k steps: the loop over it that counts is numeric, and every source of it is
      an integer or an integer's text, arithmetic without `/` and `%`, or copies a variable that is shown to be
      one in fewer steps. */
  ghost predicate IntegerIn(p: Program, x: string, k: nat)
    decreases k, 1
  {
    MayLift(p, x) && LastLoopIsNumeric(p, x) && forall e :: e in p.assigns[x] ==> IntegerFrom(p, e, k)
  }

  ghost predicate IntegerFrom(p: Program, e: Expr, k: nat)
    decreases k, 0
  {
    match e
    case IntE(_) => true
    case Str(s) => IsInteger(s)
    case ArithE(a) => !G.Divides(a)
    case VarE(y) => k > 0 && IntegerIn(p, y, k - 1)
    case GetVar(y) => k > 0 && IntegerIn(p, y, k - 1)
    case Interp(_) | Concat(_, _) | Compare(_, _) | Numeric(_, _) | Capture | Other => false
  }

  ghost predicate IsNumber(p: Program, x: string) {
    exists k: nat :: IntegerIn(p, x, k)
  }

  lemma {:induction false} LastLoopIsKept(loops: seq<(string, Iter)>, x: string, i: nat)
    requires IsLastLoop(loops, x, i)
    ensures x in ForIters(loops) && ForIters(loops)[x] == loops[i].1
    decreases |loops|
  {
    if i < |loops| - 1 {
      var front := loops[..|loops| - 1];
      assert forall j :: i < j < |front| ==> front[j] == loops[j];
      LastLoopIsKept(front, x, i);
    }
  }

  lemma {:induction false} SomeLoopIsLast(loops: seq<(string, Iter)>, x: string) returns (i: nat)
    requires x in ForIters(loops)
    ensures IsLastLoop(loops, x, i)
    decreases |loops|
  {
    i := |loops| - 1;
    if loops[i].0 != x {
      i := SomeLoopIsLast(loops[..|loops| - 1], x);
      assert forall j :: i < j < |loops| - 1 ==> loops[..|loops| - 1][j] == loops[j];
    }
  }

  lemma LastLoopCounts(p: Program, x: string)
    ensures (x in ForIters(p.loops) ==> IterIsNumeric(ForIters(p.loops)[x])) <==> LastLoopIsNumeric(p, x)
  {
    if x in ForIters(p.loops) {
      var i := SomeLoopIsLast(p.loops, x);
      LastLoopIsKept(p.loops, x, i);
    }
    forall i: nat | IsLastLoop(p.loops, x, i) ensures x in ForIters(p.loops) && ForIters(p.loops)[x] == p.loops[i].1 {
      LastLoopIsKept(p.loops, x, i);
    }
  }

  lemma {:induction false} IntegerStays(p: Program, x: string, k: nat, m: nat)
    requires IntegerIn(p, x, k) && k <= m
    ensures IntegerIn(p, x, m)
    decreases k
  {
    forall e | e in p.assigns[x] ensures IntegerFrom(p, e, m) {
      assert IntegerFrom(p, e, k);
      match e {
        case VarE(y) => IntegerStays(p, y, k - 1, m - 1);
        case GetVar(y) => IntegerStays(p, y, k - 1, m - 1);
        case _ =>
      }
    }
  }

  /** The numeric lift: x is lifted if and only if it is shown to be an integer in some number of steps. */
  lemma NumericLiftExactly(p: Program, lifted: set<string>, x: string)
    requires IsLeastFixpoint(p.assigns.Keys, NumericRuleOf(p), lifted)
    ensures x in lifted <==> IsNumber(p, x)
  {
    if IsNumber(p, x) {
      var k: nat :| IntegerIn(p, x, k);
      ShownIntegerIsLifted(p, lifted, x, k);
    }
    var shown := set y | y in p.assigns.Keys && IsNumber(p, y);
    forall y | y in p.assigns.Keys && NumericRuleOf(p)(shown, y) ensures y in shown {
      LastLoopCounts(p, y);
      var k := IntegerStepsForAll(p, shown, p.assigns[y]);
      assert IntegerIn(p, y, k);
    }
    assert Closed(p.assigns.Keys, NumericRuleOf(p), shown);
  }

  lemma {:induction false} ShownIntegerIsLifted(p: Program, lifted: set<string>, x: string, k: nat)
    requires IsLeastFixpoint(p.assigns.Keys, NumericRuleOf(p), lifted) && IntegerIn(p, x, k)
    ensures x in lifted
    decreases k
  {
    LastLoopCounts(p, x);
    forall e | e in p.assigns[x] ensures NumericSource(e, lifted) {
      assert IntegerFrom(p, e, k);
      match e {
        case VarE(y) => ShownIntegerIsLifted(p, lifted, y, k - 1);
        case GetVar(y) => ShownIntegerIsLifted(p, lifted, y, k - 1);
        case ArithE(a) => G.DivisionIsFound(a);
        case _ =>
      }
    }
    assert NumericRuleOf(p)(lifted, x);
  }

  lemma {:induction false} IntegerStepsForAll(p: Program, shown: set<string>, es: seq<Expr>) returns (k: nat)
    requires forall y :: y in shown ==> IsNumber(p, y)
    requires forall e :: e in es ==> NumericSource(e, shown)
    ensures forall e :: e in es ==> IntegerFrom(p, e, k)
    decreases |es|
  {
    k := 0;
    if es != [] {
      var rest := IntegerStepsForAll(p, shown, es[1..]);
      var first := IntegerStepsForOne(p, shown, es[0]);
      k := if first > rest then first else rest;
      forall e | e in es ensures IntegerFrom(p, e, k) {
        if e == es[0] {
          IntegerFromStays(p, e, first, k);
        } else {
          assert e in es[1..];
          IntegerFromStays(p, e, rest, k);
        }
      }
    }
  }

  lemma IntegerStepsForOne(p: Program, shown: set<string>, e: Expr) returns (k: nat)
    requires (forall y :: y in shown ==> IsNumber(p, y)) && NumericSource(e, shown)
    ensures IntegerFrom(p, e, k)
  {
    k := 0;
    if e.VarE? || e.GetVar? {
      var j: nat :| IntegerIn(p, e.x, j);
      k := j + 1;
    } else if e.ArithE? {
      G.DivisionIsFound(e.e);
    }
  }

  lemma IntegerFromStays(p: Program, e: Expr, k: nat, m: nat)
    requires IntegerFrom(p, e, k) && k <= m
    ensures IntegerFrom(p, e, m)
  {
    if e.VarE? || e.GetVar? {
      IntegerStays(p, e.x, k - 1, m - 1);
    }
  }

  // ---------------------------------------------------------------- runs

  /** v is a value e can produce: an arithmetic source produces the decimal text of the int64
      it evaluates to, or anything when the evaluation fails. */
  ghost predicate Produces(e: Expr, st: Store, v: string) {
    match e
    case Str(s) => v == s
    case IntE(n) => Fits(n) ==> v == Decimal(n)
    case VarE(x) => v == Lookup(st, x)
    case GetVar(x) => v == Lookup(st, x)
    case ArithE(a) => exists ast: G.State, m, o :: G.OnlyDivisionFails(m) && ArithProduces(G.Eval(a, ast, m, o), v)
    case _ => true
  }

  predicate ArithProduces(r: G.Outcome, v: string) {
    r.Ok? ==> v == Decimal(Wrap(r.v))
  }

  ghost predicate IterYields(it: Iter, v: string) {
    match it
    case Items(elems) => exists e :: e in elems && (e.Some? ==> v == e.value)
    case Range(lo, hi) => exists n :: lo <= n <= hi && Fits(n) && v == Decimal(n)
    case Unknown => true
  }

  /** One step of a run: an assignment from one of the variable's sources, a loop binding its variable,
      an assignment that was not collected, or any write to a variable that is not up for lifting. */
  ghost predicate Step(p: Program, st: Store, st': Store) {
    exists x, v :: st' == st[x := v] && MayWrite(p, st, x, v)
  }

  ghost predicate MayWrite(p: Program, st: Store, x: string, v: string) {
    || (x in p.assigns && exists e :: e in p.assigns[x] && Produces(e, st, v))
    || (exists i :: 0 <= i < |p.loops| && p.loops[i].0 == x && IterYields(p.loops[i].1, v))
    || (exists i :: 0 <= i < |p.unseen| && p.unseen[i].0 == x && Produces(p.unseen[i].1, st, v))
    || x !in p.assigns || x in p.barred
  }

  ghost predicate Run(p: Program, sts: seq<Store>) {
    sts != [] && forall i :: 0 <= i < |sts| - 1 ==> Step(p, sts[i], sts[i + 1])
  }

  predicate EmptyOrInteger(s: string) {
    s == "" || IsInteger(s)
  }

  /** No two loops bind the same variable. */
  predicate OneLoopPerVariable(loops: seq<(string, Iter)>) {
    forall i, j :: 0 <= i < j < |loops| ==> loops[i].0 != loops[j].0
  }

  lemma {:induction false} IterIsKept(loops: seq<(string, Iter)>, i: nat)
    requires OneLoopPerVariable(loops) && i < |loops|
    ensures loops[i].0 in ForIters(loops) && ForIters(loops)[loops[i].0] == loops[i].1
    decreases |loops|
  {
    if i < |loops| - 1 {
      IterIsKept(loops[..|loops| - 1], i);
    }
  }

  /** Every numeric source produces an empty text or an integer from a store where the lifted
      variables hold such texts. */
  lemma NumericSourceProducesInteger(e: Expr, lifted: set<string>, st: Store, v: string)
    requires NumericSource(e, lifted) && Produces(e, st, v) && (e.IntE? ==> Fits(e.n))
    requires forall x :: x in lifted ==> EmptyOrInteger(Lookup(st, x))
    ensures EmptyOrInteger(v)
  {
    match e
    case IntE(n) => DecimalRoundTrip(n);
    case ArithE(a) =>
      var ast: G.State, m, o :| G.OnlyDivisionFails(m) && ArithProduces(G.Eval(a, ast, m, o), v);
      G.DivisionFreeNeverFails(a, ast, m, o);
      var _ := WrapIsCongruent(G.Eval(a, ast, m, o).v);
      DecimalRoundTrip(Wrap(G.Eval(a, ast, m, o).v));
    case _ =>
  }

  lemma NumericIterYieldsInteger(it: Iter, v: string)
    requires IterIsNumeric(it) && IterYields(it, v)
    ensures IsInteger(v)
  {
    if it.Range? {
      var n :| it.lo <= n <= it.hi && Fits(n) && v == Decimal(n);
      DecimalRoundTrip(n);
    }
  }

  /** Integer nodes hold int64 values. */
  predicate LiteralsFit(p: Program) {
    forall x, e :: x in p.assigns && e in p.assigns[x] && e.IntE? ==> Fits(e.n)
  }

  /** The iterable can only bind its variable to an empty text or an integer. */
  predicate IterIsSafe(it: Iter) {
    match it
    case Items(elems) => forall e :: e in elems ==> e.Some? && EmptyOrInteger(e.value)
    case Range(_, _) => true
    case Unknown => false
  }

  lemma IterIsSafeExactly(it: Iter)
    ensures IterIsSafe(it) <==> forall v :: IterYields(it, v) ==> EmptyOrInteger(v)
  {
    WordIsNoInteger();
    if it.Range? {
      forall v | IterYields(it, v) ensures EmptyOrInteger(v) {
        NumericIterYieldsInteger(it, v);
      }
    } else if it.Unknown? {
      assert IterYields(it, "word");
    } else if !IterIsSafe(it) {
      var e :| e in it.elems && !(e.Some? && EmptyOrInteger(e.value));
      assert IterYields(it, if e.Some? then e.value else "word");
    }
  }

  lemma WordIsNoInteger()
    ensures !EmptyOrInteger("word")
  {
    assert Trim("word") == "word" by { assert TrimLeft("word") == "word"; }
    assert 'w' in "word" && !IsDigit("word"[0]);
  }

  /** A run from a store where the lifted variables are empty. */
  ghost predicate LiftedRun(p: Program, lifted: set<string>, sts: seq<Store>) {
    Run(p, sts) && forall y :: y in lifted ==> Lookup(sts[0], y) == ""
  }

  /** Every loop that binds a lifted variable, not only the one looked at, is safe. */
  predicate LiftedLoopsAreSafe(p: Program, lifted: set<string>) {
    forall i :: 0 <= i < |p.loops| && p.loops[i].0 in lifted ==> IterIsSafe(p.loops[i].1)
  }

  /** No evaluation of a fails, whatever the state, the order and the meaning of its operators. */
  ghost predicate NeverFails(a: Ast) {
    forall st: G.State, m: G.Meaning, o: G.Order :: G.OnlyDivisionFails(m) ==> G.Eval(a, st, m, o).Ok?
  }

  /** The source can only give an empty text or an integer. A text put together counts as any text. */
  ghost predicate SourceIsSafe(e: Expr, lifted: set<string>) {
    match e
    case Str(s) => EmptyOrInteger(s)
    case IntE(n) => Fits(n)
    case VarE(x) => x in lifted
    case GetVar(x) => x in lifted
    case ArithE(a) => NeverFails(a)
    case _ => false
  }

  lemma SafeSourceProducesInteger(e: Expr, lifted: set<string>, st: Store, v: string)
    requires SourceIsSafe(e, lifted) && Produces(e, st, v)
    requires forall x :: x in lifted ==> EmptyOrInteger(Lookup(st, x))
    ensures EmptyOrInteger(v)
  {
    match e
    case IntE(n) => DecimalRoundTrip(n);
    case ArithE(a) =>
      var ast: G.State, m, o :| G.OnlyDivisionFails(m) && ArithProduces(G.Eval(a, ast, m, o), v);
      var _ := WrapIsCongruent(G.Eval(a, ast, m, o).v);
      DecimalRoundTrip(Wrap(G.Eval(a, ast, m, o).v));
    case _ =>
  }

  /** Any other source gives some other text from a store where every lifted variable is empty. */
  lemma UnsafeSourceProducesMore(e: Expr, lifted: set<string>) returns (st: Store, v: string)
    requires !SourceIsSafe(e, lifted)
    ensures (forall x :: x in lifted ==> Lookup(st, x) == "") && Produces(e, st, v) && !EmptyOrInteger(v)
  {
    WordIsNoInteger();
    st, v := map[], "word";
    match e
    case Str(s) => v := s;
    case VarE(x) => st := map[x := "word"];
    case GetVar(x) => st := map[x := "word"];
    case ArithE(a) =>
      var ast: G.State, m: G.Meaning, o: G.Order :| G.OnlyDivisionFails(m) && !G.Eval(a, ast, m, o).Ok?;
      assert ArithProduces(G.Eval(a, ast, m, o), v);
    case _ =>
  }

  /** Every uncollected assignment to a lifted variable is safe. */
  ghost predicate UnseenAreSafe(p: Program, lifted: set<string>) {
    forall i :: 0 <= i < |p.unseen| && p.unseen[i].0 in lifted ==> SourceIsSafe(p.unseen[i].1, lifted)
  }

  /** The exact condition: every run keeps the numerically lifted variables empty or integer if and
      only if every loop over one of them and every uncollected assignment to one of them can only give
      it such a text. */
  lemma LiftedIsIntegerExactly(p: Program, lifted: set<string>)
    requires IsLeastFixpoint(p.assigns.Keys, NumericRuleOf(p), lifted) && LiteralsFit(p)
    ensures (forall sts, i, x :: LiftedRun(p, lifted, sts) && 0 <= i < |sts| && x in lifted ==>
               EmptyOrInteger(Lookup(sts[i], x)))
            <==> LiftedLoopsAreSafe(p, lifted) && UnseenAreSafe(p, lifted)
  {
    if LiftedLoopsAreSafe(p, lifted) && UnseenAreSafe(p, lifted) {
      forall sts, i, x | LiftedRun(p, lifted, sts) && 0 <= i < |sts| && x in lifted
        ensures EmptyOrInteger(Lookup(sts[i], x))
      {
        SafeLoopsKeepIntegers(p, lifted, sts, i, x);
      }
    } else {
      var x, st, v := UnsafeWrite(p, lifted);
      var sts := [st, st[x := v]];
      assert LiftedRun(p, lifted, sts) && Lookup(sts[1], x) == v;
    }
  }

  lemma UnsafeWrite(p: Program, lifted: set<string>) returns (x: string, st: Store, v: string)
    requires !LiftedLoopsAreSafe(p, lifted) || !UnseenAreSafe(p, lifted)
    ensures x in lifted && MayWrite(p, st, x, v) && !EmptyOrInteger(v)
    ensures forall y :: y in lifted ==> Lookup(st, y) == ""
  {
    if !LiftedLoopsAreSafe(p, lifted) {
      var i :| 0 <= i < |p.loops| && p.loops[i].0 in lifted && !IterIsSafe(p.loops[i].1);
      IterIsSafeExactly(p.loops[i].1);
      v :| IterYields(p.loops[i].1, v) && !EmptyOrInteger(v);
      x, st := p.loops[i].0, map[];
    } else {
      var i :| 0 <= i < |p.unseen| && p.unseen[i].0 in lifted && !SourceIsSafe(p.unseen[i].1, lifted);
      st, v := UnsafeSourceProducesMore(p.unseen[i].1, lifted);
      x := p.unseen[i].0;
    }
  }

  lemma {:induction false} SafeLoopsKeepIntegers(p: Program, lifted: set<string>, sts: seq<Store>, i: nat, x: string)
    requires IsLeastFixpoint(p.assigns.Keys, NumericRuleOf(p), lifted)
    requires LiteralsFit(p) && LiftedLoopsAreSafe(p, lifted) && UnseenAreSafe(p, lifted)
    requires LiftedRun(p, lifted, sts) && i < |sts| && x in lifted
    ensures EmptyOrInteger(Lookup(sts[i], x))
    decreases i
  {
    if i > 0 {
      forall y | y in lifted ensures EmptyOrInteger(Lookup(sts[i - 1], y)) {
        SafeLoopsKeepIntegers(p, lifted, sts, i - 1, y);
      }
      assert Step(p, sts[i - 1], sts[i]);
      var y, v :| sts[i] == sts[i - 1][y := v] && MayWrite(p, sts[i - 1], y, v);
      if x == y {
        assert NumericRuleOf(p)(lifted, x);
        WriteIsInteger(p, lifted, sts[i - 1], x, v);
      }
    }
  }

  lemma WriteIsInteger(p: Program, lifted: set<string>, st: Store, x: string, v: string)
    requires x in lifted && NumericRule(p, lifted, x) && MayWrite(p, st, x, v)
    requires LiteralsFit(p) && LiftedLoopsAreSafe(p, lifted) && UnseenAreSafe(p, lifted)
    requires forall y :: y in lifted ==> EmptyOrInteger(Lookup(st, y))
    ensures EmptyOrInteger(v)
  {
    if exists e :: e in p.assigns[x] && Produces(e, st, v) {
      var e :| e in p.assigns[x] && Produces(e, st, v);
      NumericSourceProducesInteger(e, lifted, st, v);
    } else if exists i :: 0 <= i < |p.loops| && p.loops[i].0 == x && IterYields(p.loops[i].1, v) {
      var i :| 0 <= i < |p.loops| && p.loops[i].0 == x && IterYields(p.loops[i].1, v);
      IterIsSafeExactly(p.loops[i].1);
    } else {
      var i :| 0 <= i < |p.unseen| && p.unseen[i].0 == x && Produces(p.unseen[i].1, st, v);
      SafeSourceProducesInteger(p.unseen[i].1, lifted, st, v);
    }
  }

  /** So with one loop per variable, and no uncollected assignment that stores anything else, in every
      run from a store where the lifted variables are empty, a lifted variable is always empty or an
      integer. */
  lemma LiftedIsAlwaysInteger(p: Program, lifted: set<string>, sts: seq<Store>, i: nat, x: string)
    requires IsLeastFixpoint(p.assigns.Keys, NumericRuleOf(p), lifted)
    requires LiteralsFit(p) && OneLoopPerVariable(p.loops) && UnseenAreSafe(p, lifted)
    requires LiftedRun(p, lifted, sts) && i < |sts| && x in lifted
    ensures EmptyOrInteger(Lookup(sts[i], x))
  {
    forall j | 0 <= j < |p.loops| && p.loops[j].0 in lifted ensures IterIsSafe(p.loops[j].1) {
      IterIsKept(p.loops, j);
      assert NumericRuleOf(p)(lifted, p.loops[j].0);
    }
    LiftedIsIntegerExactly(p, lifted);
  }

  /** Two loops over one variable break it: only the second iterable is looked at, the variable
      is lifted, and the first loop binds it to a word. */
  lemma TwoLoopsAreNotSeen()
    ensures var p := Program(map["x" := []], [("x", Items([Some("word")])), ("x", Range(0, 1))], {}, []);
            && NumericRule(p, {}, "x") && Step(p, map[], map["x" := "word"]) && !EmptyOrInteger("word")
  {
    var p := Program(map["x" := []], [("x", Items([Some("word")])), ("x", Range(0, 1))], {}, []);
    assert p.loops[..1] == [("x", Items([Some("word")]))];
    assert ForIters(p.loops)["x"] == Range(0, 1);
    assert Some("word") in p.loops[0].1.elems && IterYields(p.loops[0].1, "word");
    var none: Store := map[];
    assert MayWrite(p, none, "x", "word") && none["x" := "word"] == map["x" := "word"];
    WordIsNoInteger();
  }

  /** `x=1; true && x=word`: only the first assignment is collected, x is lifted, and there is no loop, but
      a run stores the word. */
  lemma UnseenAssignmentIsMissed()
    ensures var p := Program(map["x" := [Str("1")]], [], {}, [("x", Str("word"))]);
            && IsLeastFixpoint(p.assigns.Keys, NumericRuleOf(p), {"x"}) && LiftedLoopsAreSafe(p, {"x"})
            && LiftedRun(p, {"x"}, [map[], map["x" := "word"]]) && !EmptyOrInteger("word")
  {
    var p := Program(map["x" := [Str("1")]], [], {}, [("x", Str("word"))]);
    WordIsNoInteger();
    OneIsLifted(p);
    hide IsLeastFixpoint, NumericRuleOf, EmptyOrInteger, LiftedRun;
    WordIsStored(p);
  }

  lemma WordIsStored(p: Program)
    requires p.unseen == [("x", Str("word"))]
    ensures LiftedRun(p, {"x"}, [map[], map["x" := "word"]])
  {
    hide IterYields;
    var none: Store := map[];
    var some: Store := none["x" := "word"];
    assert p.unseen[0].0 == "x" && Produces(p.unseen[0].1, none, "word");
    assert MayWrite(p, none, "x", "word");
    assert Step(p, none, some);
    assert [none, some][0] == none && some == map["x" := "word"];
  }

  lemma OneIsLifted(p: Program)
    requires p.assigns == map["x" := [Str("1")]] && p.loops == [] && p.barred == {}
    ensures IsLeastFixpoint(p.assigns.Keys, NumericRuleOf(p), {"x"})
  {
    OneIsAnInteger();
    hide IsInteger;
    assert NumericRuleOf(p)({"x"}, "x") && NumericRuleOf(p)({}, "x");
    forall t | Closed(p.assigns.Keys, NumericRuleOf(p), t) ensures {"x"} <= t {
      assert NumericRuleOf(p)(t, "x");
    }
  }

  lemma OneIsAnInteger()
    ensures IsInteger("1")
  {
    DecimalRoundTrip(1);
    assert Decimal(1) == "1";
  }
}
