/** Upper bounds on the length of every shell variable: an iteration over the assignments,
    the runs its bounds must cover, and exactly when they do. */
module ShStrLen {
  import opened Int64
  import opened Options
  import opened ShText
  import opened ShExpr

  const CAP: nat := 4096
  const PASS_LIMIT: nat := 1024
  const MAX_UINT64: nat := 0xFFFF_FFFF_FFFF_FFFF

  /** A variable's bound; None is unbounded. */
  type Lens = map<string, Option<nat>>

  datatype LenAssign = LenAssign(x: string, rhs: Expr)

  // ---------------------------------------------------------------- the analysis

  function SatAdd(a: nat, b: nat): nat {
    if a + b > MAX_UINT64 then MAX_UINT64 else a + b
  }

  function BoundOf(lens: Lens, x: string): Option<nat> {
    if x in lens then lens[x] else None
  }

  function ExprLen(e: Expr, lens: Lens): Option<nat>
    decreases e, 0
  {
    match e
    case Str(s) => Some(|s|)
    case IntE(_) => Some(20)
    case VarE(x) => BoundOf(lens, x)
    case GetVar(x) => BoundOf(lens, x)
    case Interp(parts) => PartsLen(parts, lens)
    case Concat(l, r) =>
      var a, b := ExprLen(l, lens), ExprLen(r, lens);
      if a.None? || b.None? then None else Some(SatAdd(a.value, b.value))
    case Compare(_, _) => Some(1)
    case Numeric(_, _) | ArithE(_) => Some(20)
    case Capture | Other => None
  }

  /** The running total of an interpolation, abandoned once it passes the cap. */
  function PartsLen(parts: seq<Expr>, lens: Lens): Option<nat>
    decreases parts, 0
  {
    if parts == [] then Some(0)
    else
      var total, l := PartsLen(parts[..|parts| - 1], lens), ExprLen(parts[|parts| - 1], lens);
      if total.None? || l.None? || SatAdd(total.value, l.value) > CAP then None
      else Some(SatAdd(total.value, l.value))
  }

  /** The bounds after looking at one assignment. */
  function Update(a: LenAssign, lens: Lens): Lens
    requires a.x in lens
  {
    var l := ExprLen(a.rhs, lens);
    if lens[a.x].None? then lens
    else if l.None? || l.value > CAP then lens[a.x := None]
    else if l.value > lens[a.x].value then lens[a.x := l]
    else lens
  }

  predicate Covers(lens: Lens, assigns: seq<LenAssign>) {
    forall a :: a in assigns ==> a.x in lens
  }

  function Pass(assigns: seq<LenAssign>, lens: Lens): (r: Lens)
    requires Covers(lens, assigns)
    ensures r.Keys == lens.Keys
  {
    if assigns == [] then lens
    else
      var before := Pass(assigns[..|assigns| - 1], lens);
      Update(assigns[|assigns| - 1], before)
  }

  function Names(assigns: seq<LenAssign>): set<string> {
    set a | a in assigns :: a.x
  }

  function Zeros(assigns: seq<LenAssign>): Lens {
    map x | x in Names(assigns) :: Some(0)
  }

  function Passes(assigns: seq<LenAssign>, k: nat): (r: Lens)
    ensures r.Keys == Names(assigns)
  {
    if k == 0 then Zeros(assigns) else Pass(assigns, Passes(assigns, k - 1))
  }

  /** One more pass would change nothing. */
  predicate Quiet(assigns: seq<LenAssign>, lens: Lens)
    requires Covers(lens, assigns)
  {
    forall a :: a in assigns ==> Update(a, lens) == lens
  }

  /** One pass over the assignments, bounds updated in place. */
  method RunPass(assigns: seq<LenAssign>, before: Lens) returns (lens: Lens, changed: bool)
    requires before.Keys == Names(assigns)
    ensures lens == Pass(assigns, before)
    ensures !changed ==> lens == before && Quiet(assigns, before)
  {
    hide Update;
    lens, changed := before, false;
    for i := 0 to |assigns|
      invariant Covers(before, assigns[..i]) && lens == Pass(assigns[..i], before)
      invariant !changed ==> lens == before && forall j :: 0 <= j < i ==> Update(assigns[j], before) == before
    {
      assert assigns[..i + 1][..i] == assigns[..i];
      var next := Update(assigns[i], lens);
      if next != lens {
        changed := true;
        lens := next;
      }
    }
    assert assigns[..|assigns|] == assigns;
  }

  /** The source's loop: passes until one changes nothing or the pass limit is reached. */
  method AnalyzeStringLengths(assigns: seq<LenAssign>) returns (lens: Lens, k: nat)
    ensures lens == Passes(assigns, k) && k <= PASS_LIMIT
    ensures k < PASS_LIMIT ==> Quiet(assigns, lens)
  {
    lens, k := Zeros(assigns), 0;
    for it := 0 to PASS_LIMIT
      invariant k == it && lens == Passes(assigns, k)
    {
      var next, changed := RunPass(assigns, lens);
      if !changed {
        return;
      }
      lens, k := next, it + 1;
    }
  }

  // ---------------------------------------------------------------- runs

  /** v is a text e may evaluate to; arithmetic may give any int64, unknown calls any text. */
  ghost predicate MayGive(e: Expr, st: Store, v: string)
    decreases e, 0
  {
    match e
    case Str(s) => v == s
    case IntE(n) => Fits(n) && v == Decimal(n)
    case VarE(x) => v == Lookup(st, x)
    case GetVar(x) => v == Lookup(st, x)
    case Interp(parts) => PartsMayGive(parts, st, v)
    case Concat(l, r) => exists a, b :: MayGive(l, st, a) && MayGive(r, st, b) && v == a + b
    case Compare(_, _) => v == "0" || v == "1"
    case Numeric(_, _) | ArithE(_) => exists n :: Fits(n) && v == Decimal(n)
    case Capture | Other => true
  }

  ghost predicate PartsMayGive(parts: seq<Expr>, st: Store, v: string)
    decreases parts, 0
  {
    if parts == [] then v == ""
    else
      var init, last := parts[..|parts| - 1], parts[|parts| - 1];
      exists a, b :: PartsMayGive(init, st, a) && MayGive(last, st, b) && v == a + b
  }

  /** One of the assignments is executed. */
  ghost predicate Step(assigns: seq<LenAssign>, st: Store, st': Store) {
    exists a, v :: a in assigns && MayGive(a.rhs, st, v) && st' == st[a.x := v]
  }

  /** A run: the variables of the collected assignments start empty, and these and the assignments that
      were not collected are executed in any order and any number of times. Not collected are those in
      case bodies, in pipelines and where a command is expected; a variable bound by `for` or `read` is one
      whose right-hand side is not known. */
  ghost predicate Run(assigns: seq<LenAssign>, unseen: seq<LenAssign>, sts: seq<Store>) {
    && sts != [] && (forall x :: x in Names(assigns) ==> Lookup(sts[0], x) == "")
    && forall i :: 0 <= i < |sts| - 1 ==> Step(assigns + unseen, sts[i], sts[i + 1])
  }

  ghost predicate Reachable(assigns: seq<LenAssign>, unseen: seq<LenAssign>, st: Store) {
    exists sts :: Run(assigns, unseen, sts) && st == sts[|sts| - 1]
  }

  /** No assignment that was not collected would raise a bound. */
  predicate UnseenAreCovered(unseen: seq<LenAssign>, lens: Lens) {
    forall a :: a in unseen && a.x in lens ==> Update(a, lens) == lens
  }

  predicate Bounded(lens: Lens, st: Store) {
    forall x :: x in lens && lens[x].Some? ==> |Lookup(st, x)| <= lens[x].value
  }

  // ---------------------------------------------------------------- soundness

  /** A bound below the saturation point holds of every text the expression may give. */
  lemma {:induction false} ExprLenSound(e: Expr, lens: Lens, st: Store, v: string)
    requires Bounded(lens, st) && MayGive(e, st, v)
    ensures var l := ExprLen(e, lens); l.Some? && l.value < MAX_UINT64 ==> |v| <= l.value
    decreases e, 0
  {
    match e
    case IntE(n) => DecimalLength(n);
    case Interp(parts) => PartsLenSound(parts, lens, st, v);
    case Concat(l, r) =>
      var a, b :| MayGive(l, st, a) && MayGive(r, st, b) && v == a + b;
      ExprLenSound(l, lens, st, a);
      ExprLenSound(r, lens, st, b);
    case Numeric(_, _) =>
      var n :| Fits(n) && v == Decimal(n);
      DecimalLength(n);
    case ArithE(_) =>
      var n :| Fits(n) && v == Decimal(n);
      DecimalLength(n);
    case _ =>
  }

  lemma {:induction false} PartsLenSound(parts: seq<Expr>, lens: Lens, st: Store, v: string)
    requires Bounded(lens, st) && PartsMayGive(parts, st, v)
    ensures var l := PartsLen(parts, lens); l.Some? ==> |v| <= l.value && l.value <= CAP
    decreases parts, 0
  {
    if parts != [] {
      var init, last := parts[..|parts| - 1], parts[|parts| - 1];
      var a, b :| PartsMayGive(init, st, a) && MayGive(last, st, b) && v == a + b;
      PartsLenSound(init, lens, st, a);
      ExprLenSound(last, lens, st, b);
    }
  }

  /** A bound is a 64-bit number: where the lengths of a concatenation add up to more, it stays at the largest. */
  lemma BoundsAreWords(e: Expr, lens: Lens)
    requires forall x :: x in lens && lens[x].Some? ==> lens[x].value < 0x1_0000_0000_0000_0000
    requires LiteralsAreWords(e)
    ensures ExprLen(e, lens).Some? ==> ExprLen(e, lens).value < 0x1_0000_0000_0000_0000
    ensures e.Concat? && ExprLen(e.l, lens).Some? && ExprLen(e.r, lens).Some? ==>
              var n := ExprLen(e.l, lens).value + ExprLen(e.r, lens).value;
              ExprLen(e, lens) == Some(if n < 0x1_0000_0000_0000_0000 then n else 0xFFFF_FFFF_FFFF_FFFF)
  {
  }

  predicate LiteralsAreWords(e: Expr) {
    match e
    case Str(s) => |s| < 0x1_0000_0000_0000_0000
    case _ => true
  }

  /** Bounds that one more pass would not change, and no uncollected assignment would raise, hold at every
      point of every run. */
  lemma {:induction false} QuietBoundsHold(assigns: seq<LenAssign>, unseen: seq<LenAssign>, lens: Lens, sts: seq<Store>, i: nat)
    requires lens.Keys == Names(assigns) && Quiet(assigns, lens) && UnseenAreCovered(unseen, lens)
    requires Run(assigns, unseen, sts) && i < |sts|
    ensures Bounded(lens, sts[i])
    decreases i
  {
    if i > 0 {
      QuietBoundsHold(assigns, unseen, lens, sts, i - 1);
      assert Step(assigns + unseen, sts[i - 1], sts[i]);
      var a, v :| a in assigns + unseen && MayGive(a.rhs, sts[i - 1], v) && sts[i] == sts[i - 1][a.x := v];
      ExprLenSound(a.rhs, lens, sts[i - 1], v);
      if a.x in lens {
        assert Update(a, lens) == lens;
      }
    }
  }

  // ---------------------------------------------------------------- the bounds are attained

  function Long(n: nat): (s: string)
    ensures |s| == n
  {
    seq(n, i => 'x')
  }

  /** A text of the greatest length e may give, or one past the cap where there is none. */
  function Longest(e: Expr, st: Store): string
    decreases e, 0
  {
    match e
    case Str(s) => s
    case IntE(n) => Decimal(n)
    case VarE(x) => Lookup(st, x)
    case GetVar(x) => Lookup(st, x)
    case Interp(parts) => LongestParts(parts, st)
    case Concat(l, r) => Longest(l, st) + Longest(r, st)
    case Compare(_, _) => "1"
    case Numeric(_, _) | ArithE(_) => Decimal(MIN)
    case Capture | Other => Long(CAP + 1)
  }

  function LongestParts(parts: seq<Expr>, st: Store): string
    decreases parts, 0
  {
    if parts == [] then "" else LongestParts(parts[..|parts| - 1], st) + Longest(parts[|parts| - 1], st)
  }

  /** No integer node: their bound of 20 is the one that need not be attained. */
  predicate NoIntNodes(e: Expr) {
    match e
    case IntE(_) => false
    case Interp(parts) => forall i :: 0 <= i < |parts| ==> NoIntNodes(parts[i])
    case Concat(l, r) => NoIntNodes(l) && NoIntNodes(r)
    case _ => true
  }

  lemma {:induction false} LongestMayBeGiven(e: Expr, st: Store)
    requires NoIntNodes(e)
    ensures MayGive(e, st, Longest(e, st))
    decreases e, 0
  {
    match e
    case Interp(parts) => LongestPartsMayBeGiven(parts, st);
    case Concat(l, r) =>
      LongestMayBeGiven(l, st);
      LongestMayBeGiven(r, st);
    case Numeric(_, _) => assert Fits(MIN);
    case ArithE(_) => assert Fits(MIN);
    case _ =>
  }

  lemma {:induction false} LongestPartsMayBeGiven(parts: seq<Expr>, st: Store)
    requires forall i :: 0 <= i < |parts| ==> NoIntNodes(parts[i])
    ensures PartsMayGive(parts, st, LongestParts(parts, st))
    decreases parts, 0
  {
    if parts != [] {
      LongestPartsMayBeGiven(parts[..|parts| - 1], st);
      LongestMayBeGiven(parts[|parts| - 1], st);
    }
  }

  /** A length attains its bound: exactly when bounded, past the cap when not. */
  predicate Attains(l: Option<nat>, n: nat) {
    if l.None? then n > CAP else if l.value < MAX_UINT64 then n == l.value else n >= MAX_UINT64
  }

  /** Every variable's current value attains its bound. */
  ghost predicate Tight(lens: Lens, st: Store) {
    forall x :: x in lens ==> Attains(lens[x], |Lookup(st, x)|)
  }

  /** The variables an expression reads. */
  function Reads(e: Expr): set<string> {
    match e
    case VarE(x) => {x}
    case GetVar(x) => {x}
    case Interp(parts) => set i, x | 0 <= i < |parts| && x in Reads(parts[i]) :: x
    case Concat(l, r) => Reads(l) + Reads(r)
    case _ => {}
  }

  /** Variables read but never assigned, whose length nothing bounds, are long. */
  ghost predicate OutsideIsLong(vars: set<string>, lens: Lens, st: Store) {
    forall x :: x in vars && x !in lens ==> |Lookup(st, x)| > CAP
  }

  lemma {:induction false} LongestAttains(e: Expr, lens: Lens, st: Store)
    requires NoIntNodes(e) && Tight(lens, st) && OutsideIsLong(Reads(e), lens, st)
    ensures Attains(ExprLen(e, lens), |Longest(e, st)|)
    decreases e, 0
  {
    match e
    case Interp(parts) =>
      forall i | 0 <= i < |parts| ensures Reads(parts[i]) <= Reads(e) {
      }
      LongestPartsAttain(parts, lens, st);
    case Concat(l, r) =>
      LongestAttains(l, lens, st);
      LongestAttains(r, lens, st);
    case Numeric(_, _) => DecimalLength(MIN);
    case ArithE(_) => DecimalLength(MIN);
    case _ =>
  }

  lemma {:induction false} LongestPartsAttain(parts: seq<Expr>, lens: Lens, st: Store)
    requires forall i :: 0 <= i < |parts| ==> NoIntNodes(parts[i]) && OutsideIsLong(Reads(parts[i]), lens, st)
    requires Tight(lens, st)
    ensures Attains(PartsLen(parts, lens), |LongestParts(parts, st)|)
    decreases parts, 0
  {
    if parts != [] {
      LongestPartsAttain(parts[..|parts| - 1], lens, st);
      LongestAttains(parts[|parts| - 1], lens, st);
    }
  }

  lemma StepReaches(assigns: seq<LenAssign>, unseen: seq<LenAssign>, st: Store, a: LenAssign, v: string)
    requires Reachable(assigns, unseen, st) && a in assigns + unseen && MayGive(a.rhs, st, v)
    ensures Reachable(assigns, unseen, st[a.x := v])
  {
    var sts :| Run(assigns, unseen, sts) && st == sts[|sts| - 1];
    var longer := sts + [st[a.x := v]];
    assert Step(assigns + unseen, st, st[a.x := v]);
    assert Run(assigns, unseen, longer);
  }

  ghost predicate NoIntAssigns(assigns: seq<LenAssign>) {
    forall a :: a in assigns ==> NoIntNodes(a.rhs)
  }

  /** All the variables the assignments read. */
  function AllReads(assigns: seq<LenAssign>): set<string> {
    set a, x | a in assigns && x in Reads(a.rhs) :: x
  }

  /** Some run ends in a store that attains the bounds. */
  ghost predicate Attained(assigns: seq<LenAssign>, unseen: seq<LenAssign>, lens: Lens) {
    exists st :: Reachable(assigns, unseen, st) && Tight(lens, st) && OutsideIsLong(AllReads(assigns + unseen), lens, st)
  }

  lemma ReadsAreOutsideLong(all: seq<LenAssign>, a: LenAssign, lens: Lens, st: Store)
    requires a in all && OutsideIsLong(AllReads(all), lens, st)
    ensures OutsideIsLong(Reads(a.rhs), lens, st)
  {
  }

  lemma UpdateStaysAttained(assigns: seq<LenAssign>, unseen: seq<LenAssign>, a: LenAssign, lens: Lens)
    requires a in assigns && lens.Keys == Names(assigns) && NoIntAssigns(assigns) && Attained(assigns, unseen, lens)
    ensures Attained(assigns, unseen, Update(a, lens))
  {
    hide Update, ExprLen, Longest, MayGive, Reachable, Tight, OutsideIsLong;
    var st :| Reachable(assigns, unseen, st) && Tight(lens, st) && OutsideIsLong(AllReads(assigns + unseen), lens, st);
    var v := Longest(a.rhs, st);
    ReadsAreOutsideLong(assigns + unseen, a, lens, st);
    LongestMayBeGiven(a.rhs, st);
    LongestAttains(a.rhs, lens, st);
    if Update(a, lens) != lens {
      StepReaches(assigns, unseen, st, a, v);
      UpdateStaysTight(a, lens, st, v);
    }
  }

  lemma UpdateStaysTight(a: LenAssign, lens: Lens, st: Store, v: string)
    requires a.x in lens && Tight(lens, st) && Attains(ExprLen(a.rhs, lens), |v|) && Update(a, lens) != lens
    ensures Tight(Update(a, lens), st[a.x := v])
    ensures forall vars :: OutsideIsLong(vars, lens, st) ==> OutsideIsLong(vars, Update(a, lens), st[a.x := v])
  {
  }

  lemma {:induction false} PassStaysAttained(assigns: seq<LenAssign>, unseen: seq<LenAssign>, part: seq<LenAssign>, lens: Lens)
    requires (forall a :: a in part ==> a in assigns) && lens.Keys == Names(assigns)
    requires NoIntAssigns(assigns) && Attained(assigns, unseen, lens)
    ensures Covers(lens, part) && Attained(assigns, unseen, Pass(part, lens))
    decreases |part|
  {
    if part != [] {
      PassStaysAttained(assigns, unseen, part[..|part| - 1], lens);
      UpdateStaysAttained(assigns, unseen, part[|part| - 1], Pass(part[..|part| - 1], lens));
    }
  }

  /** After any number of passes there is a run in which every bounded variable has exactly
      its bound and every unbounded one is longer than the cap: no pass overshoots. */
  lemma {:induction false} PassesAreAttained(assigns: seq<LenAssign>, unseen: seq<LenAssign>, k: nat)
    requires NoIntAssigns(assigns)
    ensures Attained(assigns, unseen, Passes(assigns, k))
  {
    if k == 0 {
      EntryIsAttained(assigns, unseen);
    } else {
      PassesAreAttained(assigns, unseen, k - 1);
      PassStaysAttained(assigns, unseen, assigns, Passes(assigns, k - 1));
    }
  }

  lemma EntryIsAttained(assigns: seq<LenAssign>, unseen: seq<LenAssign>)
    ensures Attained(assigns, unseen, Zeros(assigns))
  {
    var st: Store := map x | x in AllReads(assigns + unseen) - Names(assigns) :: Long(CAP + 1);
    var sts := [st];
    assert Run(assigns, unseen, sts) && st == sts[|sts| - 1];
    assert Reachable(assigns, unseen, st);
    assert Tight(Zeros(assigns), st) && OutsideIsLong(AllReads(assigns + unseen), Zeros(assigns), st);
  }

  /** The bounds after k passes hold in every run exactly when one more pass would change nothing and no
      uncollected assignment would raise one: stopping any earlier is always unsound. */
  lemma BoundsHoldExactlyWhenQuiet(assigns: seq<LenAssign>, unseen: seq<LenAssign>, k: nat)
    requires NoIntAssigns(assigns + unseen)
    ensures (forall st :: Reachable(assigns, unseen, st) ==> Bounded(Passes(assigns, k), st))
            <==> Quiet(assigns, Passes(assigns, k)) && UnseenAreCovered(unseen, Passes(assigns, k))
  {
    var lens := Passes(assigns, k);
    if Quiet(assigns, lens) && UnseenAreCovered(unseen, lens) {
      forall st | Reachable(assigns, unseen, st) ensures Bounded(lens, st) {
        var sts :| Run(assigns, unseen, sts) && st == sts[|sts| - 1];
        QuietBoundsHold(assigns, unseen, lens, sts, |sts| - 1);
      }
    } else {
      var a :| a in assigns + unseen && a.x in lens && Update(a, lens) != lens;
      assert NoIntAssigns(assigns) by {
        forall b | b in assigns ensures NoIntNodes(b.rhs) {
          assert b in assigns + unseen;
        }
      }
      PassesAreAttained(assigns, unseen, k);
      PassesStayCapped(assigns, k, a.x);
      UnquietBreaks(assigns, unseen, lens, a);
    }
  }

  /** `y=a`, `y=$x`, `x=5`: the integer's bound of 20 is far from its one character. */
  function Slack(): seq<LenAssign> {
    [LenAssign("y", Str("a")), LenAssign("y", VarE("x")), LenAssign("x", IntE(5))]
  }

  /** With integer nodes the bounds may hold before they are quiet: one pass bounds y by 1, which is
      right in every run, and the next raises it to 20. */
  lemma IntegerBoundsMayHoldEarly()
    ensures var lens := Passes(Slack(), 1);
            !Quiet(Slack(), lens) && forall st :: Reachable(Slack(), [], st) ==> Bounded(lens, st)
  {
    hide Reachable, Passes, Update;
    SlackPass();
    var lens := Passes(Slack(), 1);
    var a := Slack()[1];
    assert a in Slack() && Update(a, lens) != lens by { assert Update(a, lens)["y"] == Some(20) by { ReadUpdate(lens); } }
    forall st | Reachable(Slack(), [], st) ensures Bounded(lens, st) {
      SlackRun(st);
    }
  }

  lemma ReadUpdate(lens: Lens)
    requires lens == map["x" := Some(20), "y" := Some(1)]
    ensures Update(Slack()[1], lens) == lens["y" := Some(20)]
  {
  }

  lemma SlackPass()
    ensures Passes(Slack(), 1) == map["x" := Some(20), "y" := Some(1)]
  {
    var a := Slack();
    assert a[0].x == "y" && a[2].x == "x" && Names(a) == {"x", "y"} by { assert a[0] in a && a[2] in a; }
    var lens := Zeros(a);
    assert lens == map["x" := Some(0), "y" := Some(0)];
    assert a[..3] == a && a[..3][..2] == a[..2] && a[..2][..1] == a[..1] && a[..1][..0] == [];
    assert Pass(a[..1], lens) == lens["y" := Some(1)];
    assert Pass(a[..2], lens) == lens["y" := Some(1)];
    assert Pass(a[..3], lens) == lens["y" := Some(1)]["x" := Some(20)];
    assert Passes(a, 0) == lens;
  }

  lemma SlackRun(st: Store)
    requires Reachable(Slack(), [], st)
    ensures |Lookup(st, "x")| <= 1 && |Lookup(st, "y")| <= 1
  {
    var sts :| Run(Slack(), [], sts) && st == sts[|sts| - 1];
    SlackSteps(sts, |sts| - 1);
  }

  lemma {:induction false} SlackSteps(sts: seq<Store>, i: nat)
    requires Run(Slack(), [], sts) && i < |sts|
    ensures |Lookup(sts[i], "x")| <= 1 && |Lookup(sts[i], "y")| <= 1
  {
    var assigns := Slack();
    if i == 0 {
      assert "x" in Names(assigns) && "y" in Names(assigns) by { assert assigns[0] in assigns && assigns[2] in assigns; }
    } else {
      SlackSteps(sts, i - 1);
      assert assigns + [] == assigns && Step(assigns + [], sts[i - 1], sts[i]);
      var a, v :| a in assigns && MayGive(a.rhs, sts[i - 1], v) && sts[i] == sts[i - 1][a.x := v];
      assert |v| <= 1;
    }
  }

  /** A bound is at most the cap, or there is none. */
  predicate IsCapped(l: Option<nat>) {
    l.Some? ==> l.value <= CAP
  }

  lemma {:induction false} PassKeepsCapped(assigns: seq<LenAssign>, lens: Lens, x: string)
    requires Covers(lens, assigns) && x in lens && IsCapped(lens[x])
    ensures IsCapped(Pass(assigns, lens)[x])
    decreases |assigns|
  {
    if assigns != [] {
      PassKeepsCapped(assigns[..|assigns| - 1], lens, x);
    }
  }

  lemma {:induction false} PassesStayCapped(assigns: seq<LenAssign>, k: nat, x: string)
    requires x in Names(assigns)
    ensures IsCapped(Passes(assigns, k)[x])
  {
    if k > 0 {
      PassesStayCapped(assigns, k - 1, x);
      PassKeepsCapped(assigns, Passes(assigns, k - 1), x);
    }
  }

  lemma UnquietBreaks(assigns: seq<LenAssign>, unseen: seq<LenAssign>, lens: Lens, a: LenAssign)
    requires a in assigns + unseen && a.x in lens && lens.Keys == Names(assigns) && NoIntAssigns(assigns + unseen)
    requires IsCapped(lens[a.x]) && Update(a, lens) != lens
    requires Attained(assigns, unseen, lens)
    ensures exists st :: Reachable(assigns, unseen, st) && !Bounded(lens, st)
  {
    var st :| Reachable(assigns, unseen, st) && Tight(lens, st) && OutsideIsLong(AllReads(assigns + unseen), lens, st);
    var v := Longest(a.rhs, st);
    assert Reads(a.rhs) <= AllReads(assigns + unseen);
    LongestMayBeGiven(a.rhs, st);
    LongestAttains(a.rhs, lens, st);
    StepReaches(assigns, unseen, st, a, v);
    assert |Lookup(st[a.x := v], a.x)| > lens[a.x].value;
  }

  // ---------------------------------------------------------------- growth and the pass limit

  predicate AtMost(a: Option<nat>, b: Option<nat>) {
    b.None? || (a.Some? && a.value <= b.value)
  }

  lemma {:induction false} PassMovesUp(assigns: seq<LenAssign>, lens: Lens, x: string)
    requires Covers(lens, assigns) && x in lens
    ensures AtMost(lens[x], Pass(assigns, lens)[x])
    decreases |assigns|
  {
    if assigns != [] {
      PassMovesUp(assigns[..|assigns| - 1], lens, x);
    }
  }

  /** From pass to pass a bound only moves up, from 0 through the cap to unbounded. */
  lemma {:induction false} BoundsOnlyMoveUp(assigns: seq<LenAssign>, j: nat, k: nat, x: string)
    requires j <= k && x in Names(assigns)
    ensures AtMost(Passes(assigns, j)[x], Passes(assigns, k)[x]) && IsCapped(Passes(assigns, k)[x])
    decreases k
  {
    PassesStayCapped(assigns, k, x);
    if j < k {
      BoundsOnlyMoveUp(assigns, j, k - 1, x);
      PassMovesUp(assigns, Passes(assigns, k - 1), x);
    }
  }

  /** `s="${s}x"`. */
  function Growing(): seq<LenAssign> {
    [LenAssign("s", Interp([VarE("s"), Str("x")]))]
  }

  lemma GrowingStep(lens: Lens, k: nat)
    requires lens == map["s" := Some(k)] && k < CAP
    ensures Update(Growing()[0], lens) == map["s" := Some(k + 1)]
  {
    var parts := [VarE("s"), Str("x")];
    assert parts[..1] == [VarE("s")] && parts[..1][..0] == [];
    assert PartsLen(parts[..1], lens) == Some(k);
    assert PartsLen(parts, lens) == Some(k + 1);
  }

  lemma {:induction false} GrowingPasses(k: nat)
    requires k <= CAP
    ensures Passes(Growing(), k) == map["s" := Some(k)]
  {
    hide ExprLen, Update;
    var a := Growing();
    assert Names(a) == {"s"} by { assert a[0] in a; }
    if k == 0 {
      assert Zeros(a) == map["s" := Some(0)];
    } else {
      GrowingPasses(k - 1);
      var before := Passes(a, k - 1);
      assert a[..0] == [];
      assert Pass(a, before) == Update(a[0], Pass(a[..0], before));
      GrowingStep(before, k - 1);
    }
  }

  /** Any pass limit below the cap stops the loop early on `s="${s}x"`, with a bound that some
      run exceeds. */
  lemma LowPassLimitIsUnsound(limit: nat)
    requires limit < CAP
    ensures var lens := Passes(Growing(), limit);
            && lens == map["s" := Some(limit)] && !Quiet(Growing(), lens)
            && exists st :: Reachable(Growing(), [], st) && !Bounded(lens, st)
  {
    hide Passes, Update, Reachable, Bounded;
    GrowingPasses(limit);
    GrowingStep(Passes(Growing(), limit), limit);
    assert Growing()[0] in Growing();
    assert Update(Growing()[0], Passes(Growing(), limit))["s"] != Passes(Growing(), limit)["s"];
    assert Growing() + [] == Growing();
    BoundsHoldExactlyWhenQuiet(Growing(), [], limit);
  }

  /** The source's limit is such a limit: it answers 1024. */
  lemma PassLimitIsTooLow()
    ensures PASS_LIMIT < CAP
    ensures forall k: nat :: k <= PASS_LIMIT ==> !Quiet(Growing(), Passes(Growing(), k))
    ensures exists st :: Reachable(Growing(), [], st) && !Bounded(map["s" := Some(1024)], st)
  {
    hide Passes, Update, Reachable, Bounded, Quiet;
    forall k: nat | k <= PASS_LIMIT ensures !Quiet(Growing(), Passes(Growing(), k)) {
      LowPassLimitIsUnsound(k);
    }
    LowPassLimitIsUnsound(PASS_LIMIT);
  }

  /** The cap: one pass bounds a literal by its length up to 4096 characters, and a longer one not at all. */
  lemma LiteralBoundExactly(x: string, s: string)
    ensures var all := [LenAssign(x, Str(s))]; x in Passes(all, 1) && Passes(all, 1)[x] == if |s| <= 4096 then Some(|s|) else None
  {
    var all := [LenAssign(x, Str(s))];
    assert Passes(all, 0) == Zeros(all) && all[0] in all && x in Names(all);
    assert all[..0] == [] && Pass(all[..0], Zeros(all)) == Zeros(all);
    assert Passes(all, 1) == Update(all[0], Zeros(all));
  }

  /** `x=a; true && x=ab`: the second assignment is not collected, one pass is quiet with the bound 1, and a
      run reaches a length of two. */
  lemma UnseenAssignmentIsMissed()
    ensures var assigns, unseen := [LenAssign("x", Str("a"))], [LenAssign("x", Str("ab"))];
            var lens := Passes(assigns, 1);
            && lens == map["x" := Some(1)] && Quiet(assigns, lens)
            && exists st :: Reachable(assigns, unseen, st) && !Bounded(lens, st)
  {
    hide Reachable, Bounded, Passes;
    var assigns, unseen := [LenAssign("x", Str("a"))], [LenAssign("x", Str("ab"))];
    OneShortAssign(assigns);
    var lens := Passes(assigns, 1);
    assert unseen[0] in unseen && Update(unseen[0], lens) == map["x" := Some(2)];
    assert !UnseenAreCovered(unseen, lens);
    assert assigns + unseen == [assigns[0], unseen[0]];
    BoundsHoldExactlyWhenQuiet(assigns, unseen, 1);
  }

  lemma OneShortAssign(assigns: seq<LenAssign>)
    requires assigns == [LenAssign("x", Str("a"))]
    ensures Passes(assigns, 1) == map["x" := Some(1)] && Quiet(assigns, map["x" := Some(1)])
  {
    assert Names(assigns) == {"x"} by { assert assigns[0] in assigns; }
    assert Zeros(assigns) == map["x" := Some(0)];
    assert assigns[..0] == [] && Passes(assigns, 0) == Zeros(assigns);
    assert Pass(assigns[..0], Zeros(assigns)) == Zeros(assigns);
    assert Pass(assigns, Zeros(assigns)) == Update(assigns[0], Zeros(assigns));
  }
}
