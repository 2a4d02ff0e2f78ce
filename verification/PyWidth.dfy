/** Storage widths: a name gets a C int only if its range fits 32 bits and no intermediate of
    an assignment to it that mentions the name needs more. */
module PyWidth {
  import opened Intervals
  import opened Options
  import opened PyText
  import opened PyEval
  import opened PyEvalProof
  import opened PyEvalSound
  import opened PyRegroup

  predicate FitsI32(v: Interval) {
    v.Known? ==> v.lo >= -0x8000_0000 && v.hi <= 0x7FFF_FFFF
  }

  /** A known interval fits exactly when every value it allows is an int of 32 bits. */
  lemma FitsExactly(v: Interval)
    requires NonEmpty(v)
    ensures FitsI32(v) <==> v.Top? || forall x :: Allows(v, x) ==> -2147483648 <= x <= 2147483647
  {
    if v.Known? {
      assert Allows(v, v.lo) && Allows(v, v.hi);
    }
  }

  datatype Report = Report(text: seq<Token>, range: Interval)

  /** The over-wide intermediate reported for a right-hand side, if any: the first one met
      going into the parts of both splits before the whole. */
  function WideIntermediate(rhs: seq<Token>, env: Env, name: string): Option<Report>
    decreases |rhs|
  {
    var s := Strip(rhs);
    if s == [] || Id(name) !in s || EvalText(s, env, 0).Top? then None
    else
      var sum := WideAround(s, SplitAt(s, {'+', '-'}), env, name);
      var product := WideAround(s, SplitAt(s, {'*', '%'}), env, name);
      if sum.Some? then sum
      else if product.Some? then product
      else if FitsI32(EvalText(s, env, 0)) then None
      else Some(Report(s, EvalText(s, env, 0)))
  }

  function WideAround(s: seq<Token>, split: Option<nat>, env: Env, name: string): Option<Report>
    requires split.Some? ==> 0 < split.value < |s|
    decreases |s|, 0
  {
    if split.None? then None
    else
      var l := WideIntermediate(s[..split.value], env, name);
      if l.Some? then l else WideIntermediate(s[split.value + 1..], env, name)
  }

  /** Whatever is reported mentions the name and does not fit 32 bits. */
  lemma {:induction false} ReportIsWide(rhs: seq<Token>, env: Env, name: string)
    ensures var r := WideIntermediate(rhs, env, name);
            r.Some? ==> && Id(name) in r.value.text && r.value.range == EvalText(r.value.text, env, 0)
                        && r.value.range.Known? && !FitsI32(r.value.range)
    decreases |rhs|
  {
    hide EvalText, Scan;
    var s := Strip(rhs);
    ReportAroundIsWide(s, SplitAt(s, {'+', '-'}), env, name);
    ReportAroundIsWide(s, SplitAt(s, {'*', '%'}), env, name);
  }

  lemma {:induction false} ReportAroundIsWide(s: seq<Token>, split: Option<nat>, env: Env, name: string)
    requires split.Some? ==> 0 < split.value < |s|
    ensures var r := WideAround(s, split, env, name);
            r.Some? ==> && Id(name) in r.value.text && r.value.range == EvalText(r.value.text, env, 0)
                        && r.value.range.Known? && !FitsI32(r.value.range)
    decreases |s|, 0
  {
    hide EvalText;
    if split.Some? {
      ReportIsWide(s[..split.value], env, name);
      ReportIsWide(s[split.value + 1..], env, name);
    }
  }

  /** Nothing smaller is to blame: no part at which the reported text can be split has a report. */
  ghost predicate IsSmallest(r: Option<Report>, env: Env, name: string) {
    r.Some? ==>
      forall ops, i :: ops in [{'+', '-'}, {'*', '%'}] && SplitAt(r.value.text, ops) == Some(i) ==>
        && WideIntermediate(r.value.text[..i], env, name).None?
        && WideIntermediate(r.value.text[i + 1..], env, name).None?
  }

  lemma {:induction false} ReportIsSmallest(rhs: seq<Token>, env: Env, name: string)
    ensures IsSmallest(WideIntermediate(rhs, env, name), env, name)
    decreases |rhs|
  {
    hide EvalText, Scan, IsSmallest;
    var s := Strip(rhs);
    var sum, product := SplitAt(s, {'+', '-'}), SplitAt(s, {'*', '%'});
    SmallestAround(s, sum, env, name);
    SmallestAround(s, product, env, name);
    NoneIsSmallest(env, name);
    var r := WideIntermediate(rhs, env, name);
    if r != WideAround(s, sum, env, name) && r != WideAround(s, product, env, name) && r.Some? {
      WholeIsSmallest(s, env, name, r);
    }
  }

  lemma WholeIsSmallest(s: seq<Token>, env: Env, name: string, r: Option<Report>)
    requires r.Some? && r.value.text == s
    requires WideAround(s, SplitAt(s, {'+', '-'}), env, name).None? && WideAround(s, SplitAt(s, {'*', '%'}), env, name).None?
    ensures IsSmallest(r, env, name)
  {
    hide EvalText, Scan, WideIntermediate;
  }

  lemma {:induction false} SmallestAround(s: seq<Token>, split: Option<nat>, env: Env, name: string)
    requires split.Some? ==> 0 < split.value < |s|
    ensures IsSmallest(WideAround(s, split, env, name), env, name)
    decreases |s|, 0
  {
    hide EvalText, IsSmallest;
    if split.Some? {
      ReportIsSmallest(s[..split.value], env, name);
      ReportIsSmallest(s[split.value + 1..], env, name);
    }
    NoneIsSmallest(env, name);
  }

  lemma NoneIsSmallest(env: Env, name: string)
    ensures IsSmallest(None, env, name)
  {
  }

  /** Without a known range, or without the name, nothing is reported, whatever the text. */
  lemma UnknownIsUnreported(s: seq<Token>, env: Env, name: string)
    requires EvalText(Strip(s), env, 0).Top? || Id(name) !in s
    ensures WideIntermediate(s, env, name).None?
  {
    hide EvalText, Scan;
    if Id(name) in Strip(s) {
      StripHolds(s, Id(name));
    }
  }

  lemma {:induction false} StripHolds(s: seq<Token>, t: Token)
    requires t in Strip(s)
    ensures t in s
    decreases |s|
  {
    if Wrapped(s) {
      StripHolds(s[1..|s| - 1], t);
    }
  }

  /** And of two parts to blame the left one is reported. */
  lemma LeftReportWins(e: Expr, env: Env, name: string)
    requires WellFormed(e) && e.Bin? && !e.op.Div? && !e.op.FloorDiv?
    requires Mentions(e, name) && EvalText(Text(e), env, 0).Known?
    ensures var l, r := WideIntermediate(Text(e.l), env, name), WideIntermediate(Text(e.r), env, name);
            && (l.Some? ==> WideIntermediate(Text(e), env, name) == l)
            && (l.None? && r.Some? ==> WideIntermediate(Text(e), env, name) == r)
            && (l.None? && r.None? && (Level(e) == 1 || SplitAt(Text(e), {'*', '%'}).None?) ==>
                  var v := EvalText(Text(e), env, 0);
                  WideIntermediate(Text(e), env, name) == if FitsI32(v) then None else Some(Report(Text(e), v)))
  {
    hide Text, Scan, Strip, EvalText;
    StripText(e);
    CutSides(e, 0, {'+', '-'});
    if Level(e) == 1 {
      HigherLevelHasNoSplit(e, {'+', '-'}, 0);
      CutSides(e, 1, {'*', '%'});
      assert RightmostCut(e, {'*', '%'}) == CutAt(e.l, e.op, e.r);
    } else {
      assert RightmostCut(e, {'+', '-'}) == CutAt(e.l, e.op, e.r);
    }
    hide WellFormed, RightmostCut;
  }

  // ---------------------------------------------------------------- silence is a proof

  /** Trees in which no quotient stands outside calls, signs and powers. */
  predicate IsArith(e: Expr) {
    match e
    case Bin(op, l, r) => !op.Div? && !op.FloorDiv? && IsArith(l) && IsArith(r)
    case Paren(a) => IsArith(a)
    case _ => true
  }

  predicate Mentions(e: Expr, name: string) {
    Id(name) in Text(e)
  }

  /** s is e or an operand somewhere in it; what stands in a call, a sign or a power is not looked at. */
  predicate PartOf(s: Expr, e: Expr) {
    s == e
    || match e
       case Bin(_, l, r) => PartOf(s, l) || PartOf(s, r)
       case Paren(a) => PartOf(s, a)
       case _ => false
  }

  /** Every sub-expression of e has a proved range. */
  ghost predicate AllKnown(e: Expr, env: Env) {
    forall s :: PartOf(s, e) ==> EvalText(Text(s), env, 0).Known?
  }

  /** Every sub-expression of e that mentions the name fits 32 bits. */
  ghost predicate AllFit(e: Expr, env: Env, name: string) {
    forall s :: PartOf(s, e) && Mentions(s, name) ==> FitsI32(EvalText(Text(s), env, 0))
  }

  lemma KnownBelow(e: Expr, env: Env)
    requires AllKnown(e, env)
    ensures EvalText(Text(e), env, 0).Known?
    ensures e.Bin? ==> AllKnown(e.l, env) && AllKnown(e.r, env)
    ensures e.Paren? ==> AllKnown(e.e, env)
  {
    hide EvalText, Text;
    assert PartOf(e, e);
  }

  lemma FitsItself(e: Expr, env: Env, name: string)
    requires AllFit(e, env, name)
    ensures Mentions(e, name) ==> FitsI32(EvalText(Text(e), env, 0))
  {
    hide EvalText, Text;
    assert PartOf(e, e);
  }

  lemma FitsFromBelow(e: Expr, env: Env, name: string)
    requires Mentions(e, name) ==> FitsI32(EvalText(Text(e), env, 0))
    requires e.Bin? ==> AllFit(e.l, env, name) && AllFit(e.r, env, name)
    requires e.Paren? ==> AllFit(e.e, env, name)
    ensures AllFit(e, env, name)
  {
    hide EvalText, Text;
  }

  lemma {:induction false} PartMentions(s: Expr, e: Expr, name: string)
    requires PartOf(s, e) && Mentions(s, name)
    ensures Mentions(e, name)
    decreases e
  {
    if s != e {
      match e
      case Bin(_, l, r) =>
        if PartOf(s, l) {
          PartMentions(s, l, name);
        } else {
          PartMentions(s, r, name);
        }
      case Paren(a) => PartMentions(s, a, name);
    }
  }

  lemma UnmentionedFits(e: Expr, env: Env, name: string)
    requires !Mentions(e, name)
    ensures AllFit(e, env, name)
  {
    hide EvalText, Text, Mentions;
    forall s | PartOf(s, e) ensures !Mentions(s, name) {
      if Mentions(s, name) {
        PartMentions(s, e, name);
      }
    }
  }

  /** Parentheses change neither the range nor the report. */
  lemma ParenIsTransparent(a: Expr, env: Env, name: string)
    ensures EvalText(Text(Paren(a)), env, 0) == EvalText(Text(a), env, 0)
    ensures WideIntermediate(Text(Paren(a)), env, name) == WideIntermediate(Text(a), env, name)
  {
    hide Scan, Text;
    StripText(Paren(a));
    StripText(a);
  }

  /** No report for a right-hand side whose parts all have proved ranges means that every
      sub-expression mentioning the name fits 32 bits. */
  lemma {:induction false} NoReportMeansAllFit(e: Expr, env: Env, name: string)
    requires WellFormed(e) && IsArith(e) && AllKnown(e, env)
    requires WideIntermediate(Text(e), env, name).None?
    ensures AllFit(e, env, name)
  {
    hide Text, Scan, Strip, EvalText, AllKnown, AllFit;
    StripText(e);
    KnownBelow(e, env);
    if !Mentions(e, name) {
      UnmentionedFits(e, env, name);
    } else if e.Paren? {
      ParenIsTransparent(e.e, env, name);
      NoReportMeansAllFit(e.e, env, name);
      ParenMentions(e.e, name);
      FitsItself(e.e, env, name);
      FitsFromBelow(e, env, name);
    } else {
      CutSides(e, 0, {'+', '-'});
      if e.Bin? {
        if Level(e) == 1 {
          CutSides(e, 1, {'*', '%'});
        }
        NoReportMeansAllFit(e.l, env, name);
        NoReportMeansAllFit(e.r, env, name);
      }
      FitsFromBelow(e, env, name);
    }
  }

  lemma ParenMentions(a: Expr, name: string)
    ensures Mentions(Paren(a), name) == Mentions(a, name)
  {
  }

  // ---------------------------------------------------------------- the width of a name

  datatype Width = I32 | I64

  /** An assignment of the scope: `target = rhs` or `target op= rhs`. */
  datatype Assignment = Plain(target: string, rhs: Expr) | Augmented(target: string, op: BinOp, rhs: Expr)

  /** The text the source checks; of an augmented assignment, the target, the operator and the right-hand
      side written one after the other. */
  function CheckedText(a: Assignment): seq<Token> {
    match a
    case Plain(_, rhs) => Text(rhs)
    case Augmented(x, op, rhs) => [Id(x)] + Symbol(op) + Text(rhs)
  }

  /** The expression whose value is stored. */
  function StoredTree(a: Assignment): Expr {
    match a
    case Plain(_, rhs) => rhs
    case Augmented(x, op, rhs) => Stored(x, op, rhs)
  }

  /** The expression whose text is checked. */
  function CheckedTree(a: Assignment): Expr {
    match a
    case Plain(_, rhs) => rhs
    case Augmented(x, op, rhs) => Graft(x, op, rhs)
  }

  lemma CheckedTreeIsChecked(a: Assignment)
    requires WellFormed(a.rhs)
    ensures WellFormed(CheckedTree(a)) && Text(CheckedTree(a)) == CheckedText(a)
    ensures WellFormed(StoredTree(a)) ==> CheckedTree(a) == StoredTree(a)
  {
    if a.Augmented? {
      GraftIsATree(a.target, a.op, a.rhs);
      GraftText(a.target, a.op, a.rhs);
    }
  }

  /** The checked expression has the value that is stored: any plain assignment, and an augmented one whose
      operator may be applied to the beginning of the right-hand side. */
  predicate ChecksWhatItStores(a: Assignment) {
    a.Augmented? ==> Harmless(a.op, a.rhs)
  }

  /** One of the assignments forces the name to 64 bits. */
  predicate Forced(assigns: seq<Assignment>, env: Env, n: string) {
    exists k :: 0 <= k < |assigns| && Forces(assigns[k], env, n)
  }

  predicate Forces(a: Assignment, env: Env, n: string) {
    a.target == n && WideIntermediate(CheckedText(a), env, n).Some?
  }

  /** The widths of a scope's names, by the source's two passes: mark the names an
      over-wide intermediate forces to 64 bits, then decide every name. */
  method IntEvidence(assigns: seq<Assignment>, env: Env, names: set<string>) returns (width: map<string, Width>)
    ensures width.Keys == names * env.Keys
    ensures forall n :: n in width ==> (width[n] == I32 <==> FitsI32(env[n]) && !Forced(assigns, env, n))
  {
    hide WideIntermediate, CheckedText;
    var need64: set<string> := {};
    for i := 0 to |assigns|
      invariant forall n :: n in need64 <==> n in names && Forced(assigns[..i], env, n)
    {
      var a := assigns[i];
      assert assigns[..i + 1] == assigns[..i] + [a];
      ForcedStep(assigns[..i], a, env);
      if a.target in names && WideIntermediate(CheckedText(a), env, a.target).Some? {
        need64 := need64 + {a.target};
      }
    }
    assert assigns[..|assigns|] == assigns;
    width := map[];
    var todo := names;
    while todo != {}
      invariant todo <= names
      invariant width.Keys == (names - todo) * env.Keys
      invariant forall n :: n in width ==> (width[n] == I32 <==> FitsI32(env[n]) && n !in need64)
      decreases todo
    {
      var n :| n in todo;
      todo := todo - {n};
      if n in env {
        width := width[n := if !FitsI32(env[n]) || n in need64 then I64 else I32];
      }
    }
  }

  lemma ForcedStep(assigns: seq<Assignment>, a: Assignment, env: Env)
    ensures forall n :: Forced(assigns + [a], env, n) <==> Forced(assigns, env, n) || Forces(a, env, n)
  {
    hide Forces;
    forall n ensures Forced(assigns + [a], env, n) <==> Forced(assigns, env, n) || Forces(a, env, n) {
      var both := assigns + [a];
      assert both[|assigns|] == a;
      assert forall k :: 0 <= k < |assigns| ==> both[k] == assigns[k];
    }
  }

  /** For a name kept in a C int, every sub-expression mentioning it fits, in each checked expression whose
      parts have proved ranges. */
  lemma NarrowNameIsSafe(assigns: seq<Assignment>, env: Env, n: string, k: nat)
    requires k < |assigns| && assigns[k].target == n && !Forced(assigns, env, n)
    requires var e := CheckedTree(assigns[k]); WellFormed(assigns[k].rhs) && IsArith(e) && AllKnown(e, env)
    ensures AllFit(CheckedTree(assigns[k]), env, n)
  {
    hide WideIntermediate, AllKnown, AllFit, WellFormed, IsArith, CheckedText, CheckedTree;
    var a := assigns[k];
    assert !Forces(a, env, n);
    CheckedTreeIsChecked(a);
    NoReportMeansAllFit(CheckedTree(a), env, n);
  }

  /** So Python's value of every such sub-expression is an int of 32 bits, in every store the env allows. */
  lemma NarrowNameValuesFit(assigns: seq<Assignment>, env: Env, n: string, k: nat, s: Expr, st: Store)
    requires k < |assigns| && assigns[k].target == n && !Forced(assigns, env, n)
    requires var e := CheckedTree(assigns[k]); WellFormed(assigns[k].rhs) && IsArith(e) && AllKnown(e, env) && PartOf(s, e)
    requires SignsAreSafe(CheckedTree(assigns[k]), env)
    requires Mentions(s, n) && Admits(env, st)
    ensures var v := Eval(s, st); v.Some? && v.value.Int? && -0x8000_0000 <= v.value.n <= 0x7FFF_FFFF
  {
    hide EvalText, Text, WellFormed, IsArith, PartOf, SignsAreSafe, CheckedTree, CheckedText;
    NarrowNameIsSafe(assigns, env, n, k);
    CheckedTreeIsChecked(assigns[k]);
    PartIsATree(s, CheckedTree(assigns[k]), env);
    EvalTextSound(s, env, st, 0);
  }

  /** And the value an augmented assignment stores into such a name is one too, if the expression checked has
      the value that is stored. */
  lemma NarrowNameStoresFit(assigns: seq<Assignment>, env: Env, n: string, k: nat, st: Store)
    requires k < |assigns| && assigns[k].target == n && !Forced(assigns, env, n)
    requires assigns[k].Augmented? && ChecksWhatItStores(assigns[k])
    requires var e := CheckedTree(assigns[k]); WellFormed(assigns[k].rhs) && IsArith(e) && AllKnown(e, env)
    requires SignsAreSafe(CheckedTree(assigns[k]), env) && Admits(env, st)
    ensures var v := Eval(StoredTree(assigns[k]), st); v.Some? && v.value.Int? && -0x8000_0000 <= v.value.n <= 0x7FFF_FFFF
  {
    hide EvalText, WellFormed, IsArith, Graft, AllKnown, Eval, Admits;
    var a := assigns[k];
    GraftText(a.target, a.op, a.rhs);
    var e := CheckedTree(a);
    assert Text(e)[0] == Id(n);
    assert Mentions(e, n) && PartOf(e, e);
    NarrowNameValuesFit(assigns, env, n, k, e, st);
    HarmlessKeepsValue(a.target, a.op, a.rhs, st);
  }

  lemma {:induction false} PartIsATree(s: Expr, e: Expr, env: Env)
    requires WellFormed(e) && IsArith(e) && SignsAreSafe(e, env) && PartOf(s, e)
    ensures WellFormed(s) && IsArith(s) && SignsAreSafe(s, env)
    decreases e
  {
    if s != e {
      match e
      case Bin(_, l, r) =>
        if PartOf(s, l) {
          PartIsATree(s, l, env);
        } else {
          PartIsATree(s, r, env);
        }
      case Paren(a) => PartIsATree(s, a, env);
    }
  }

  /** Operators, names, literals and parentheses only. */
  predicate OnlyOperators(e: Expr) {
    match e
    case Lit(_) | Name(_) => true
    case Bin(_, l, r) => OnlyOperators(l) && OnlyOperators(r)
    case Paren(a) => OnlyOperators(a)
    case _ => false
  }

  /** The sign conditions ask nothing of these. */
  lemma {:induction false} OperatorsAreSafe(e: Expr, env: Env)
    requires OnlyOperators(e)
    ensures SignsAreSafe(e, env)
    decreases e
  {
    match e
    case Bin(_, l, r) => OperatorsAreSafe(l, env); OperatorsAreSafe(r, env);
    case Paren(a) => OperatorsAreSafe(a, env);
    case _ =>
  }

  // ---------------------------------------------------------------- a width that is too small

  /** A call, a sign or a power is reported exactly when its own range does not fit: what is computed inside
      it is not looked at. */
  lemma UnsplitReportExactly(e: Expr, env: Env, name: string)
    requires WellFormed(e) && Level(e) >= 2 && !e.Paren?
    ensures WideIntermediate(Text(e), env, name).Some?
            <==> Mentions(e, name) && EvalText(Text(e), env, 0).Known? && !FitsI32(EvalText(Text(e), env, 0))
  {
    hide Text, Scan, Strip, EvalText;
    StripText(e);
    CutSides(e, 0, {'+', '-'});
    CutSides(e, 1, {'*', '%'});
    HigherLevelHasNoSplit(e, {'+', '-'}, 0);
    HigherLevelHasNoSplit(e, {'*', '%'}, 1);
  }

  /** `min(x*x, 100)`. */
  function Clipped(): Expr { Call2("min", Bin(Mul, Name("x"), Name("x")), Lit(100)) }

  /** With x up to 100000 it is not reported, for it is at most 100, though the product in it is not of 32 bits. */
  lemma WideArgumentIsMissed()
    ensures var env := map["x" := Known(0, 100_000)];
            && WellFormed(Clipped()) && WideIntermediate(Text(Clipped()), env, "x").None?
            && EvalText(Text(Clipped().a), env, 1) == Known(0, 10_000_000_000)
  {
    hide EvalText, Text, WideIntermediate;
    var env := map["x" := Known(0, 100_000)];
    NameInterval("x", env, 2);
    OperatorInterval(Clipped().a, env, 1);
    UnsplitInterval(Lit(100), env, 1);
    UnsplitInterval(Clipped(), env, 0);
    UnsplitReportExactly(Clipped(), env, "x");
  }

  /** `x *= a + b`, checked as `x*a + b`. */
  function Scaled(): Assignment { Augmented("x", Mul, Bin(Add, Name("a"), Name("b"))) }

  function ScaledEnv(): Env {
    map["x" := Known(0, 999), "a" := Known(2_000_000, 2_000_000), "b" := Known(2_000_000, 2_000_000)]
  }

  function ScaledStore(): Store { map["x" := Int(999), "a" := Int(2_000_000), "b" := Int(2_000_000)] }

  /** Nothing is reported and the range of x fits, so x is kept in 32 bits, while the run from x = 999
      stores 3996000000. */
  lemma WideValueInNarrowName()
    ensures !Forced([Scaled()], ScaledEnv(), "x") && FitsI32(ScaledEnv()["x"]) && !ChecksWhatItStores(Scaled())
    ensures Admits(ScaledEnv(), ScaledStore()) && Eval(StoredTree(Scaled()), ScaledStore()) == Some(Int(3_996_000_000))
  {
    hide WideIntermediate, CheckedText;
    ScaledIsUnreported();
    assert forall k :: 0 <= k < |[Scaled()]| ==> [Scaled()][k] == Scaled();
  }

  lemma ScaledRanges()
    ensures var e, env := Bin(Add, Bin(Mul, Name("x"), Name("a")), Name("b")), ScaledEnv();
            && EvalText(Text(e), env, 0) == Known(2_000_000, 2_000_000_000)
            && EvalText(Text(e.l), env, 0) == Known(0, 1_998_000_000)
            && forall n :: n in env ==> EvalText(Text(Name(n)), env, 0) == env[n]
  {
    hide EvalText, Text;
    var e, env := Bin(Add, Bin(Mul, Name("x"), Name("a")), Name("b")), ScaledEnv();
    forall d: nat, n | d <= 2 && n in env ensures EvalText(Text(Name(n)), env, d) == env[n] {
      NameInterval(n, env, d);
    }
    OperatorInterval(e.l, env, 0);
    OperatorInterval(e.l, env, 1);
    OperatorInterval(e, env, 0);
  }

  lemma ScaledIsUnreported()
    ensures WideIntermediate(CheckedText(Scaled()), ScaledEnv(), "x").None?
  {
    hide WideIntermediate, EvalText, Scan, Strip, CheckedText, WideAround;
    var env := ScaledEnv();
    var e := Bin(Add, Bin(Mul, Name("x"), Name("a")), Name("b"));
    CheckedTreeIsChecked(Scaled());
    assert CheckedTree(Scaled()) == e;
    ScaledRanges();
    StripText(e);
    SumSideIsUnreported(e, env);
    ProductSideIsUnreported(e, env);
    NothingWide(Text(e), env, "x");
  }

  lemma SumSideIsUnreported(e: Expr, env: Env)
    requires e == Bin(Add, Bin(Mul, Name("x"), Name("a")), Name("b")) && env == ScaledEnv()
    ensures WideAround(Text(e), SplitAt(Text(e), {'+', '-'}), env, "x").None?
  {
    hide WideIntermediate, EvalText, Scan, Strip;
    ScaledRanges();
    CutSides(e, 0, {'+', '-'});
    UnmentionedIsUnreported("b", env, "x");
    CutSides(e.l, 0, {'+', '-'});
    CutSides(e.l, 1, {'*', '%'});
    NameIsUnreported("x", env);
    UnmentionedIsUnreported("a", env, "x");
    StripText(e.l);
    NothingWide(Text(e.l), env, "x");
  }

  lemma ProductSideIsUnreported(e: Expr, env: Env)
    requires e == Bin(Add, Bin(Mul, Name("x"), Name("a")), Name("b")) && env == ScaledEnv()
    ensures WideAround(Text(e), SplitAt(Text(e), {'*', '%'}), env, "x").None?
  {
    hide EvalText, Scan, Strip;
    var rest := Bin(Add, Name("a"), Name("b"));
    StarUnderPlus(e, "x", "a", "b");
    assert Text(e)[..1] == Text(Name("x"));
    NameIsUnreported("x", env);
    StripText(rest);
    assert Text(rest) == [Id("a"), Op('+'), Id("b")];
  }

  lemma NameIsUnreported(x: string, env: Env)
    requires x in env && FitsI32(env[x])
    ensures WideIntermediate(Text(Name(x)), env, x).None?
  {
    hide EvalText, Strip;
    NameInterval(x, env, 0);
    StripText(Name(x));
    NothingWide(Text(Name(x)), env, x);
  }

  lemma UnmentionedIsUnreported(y: string, env: Env, name: string)
    requires y != name
    ensures WideIntermediate(Text(Name(y)), env, name).None?
  {
    hide EvalText, Strip;
    StripText(Name(y));
  }

  /** Nothing is reported if neither the text nor a side of a split is too wide. */
  lemma NothingWide(s: seq<Token>, env: Env, name: string)
    requires Strip(s) == s && FitsI32(EvalText(s, env, 0))
    requires WideAround(s, SplitAt(s, {'+', '-'}), env, name).None? && WideAround(s, SplitAt(s, {'*', '%'}), env, name).None?
    ensures WideIntermediate(s, env, name).None?
  {
    hide EvalText, Scan, Strip, WideAround;
  }

  /** The text of `x *= a + b` is that of `x*a + b`: a looser right-hand side is regrouped. */
  lemma AugmentedIsRegrouped(x: string, a: Expr, b: Expr)
    ensures CheckedText(Augmented(x, Mul, Bin(Add, a, b))) == Text(Bin(Add, Bin(Mul, Name(x), a), b))
    ensures !WellFormed(StoredTree(Augmented(x, Mul, Bin(Add, a, b))))
  {
    Regrouped(Text(Name(x)), Symbol(Mul), Text(a), Symbol(Add), Text(b));
  }

  // ---------------------------------------------------------------- what is reported

  /** No product stands outside brackets in a sum. */
  predicate Flat(e: Expr) {
    match e
    case Bin(op, l, r) => Flat(l) && Flat(r) && (OpLevel(op) == 0 ==> Level(l) != 1 && Level(r) != 1)
    case Paren(a) => Flat(a)
    case _ => true
  }

  /** What is reported is the text of a part of e. */
  ghost predicate ReportsPart(e: Expr, text: seq<Token>, env: Env, name: string) {
    var r := WideIntermediate(text, env, name);
    r.Some? ==> exists s :: PartOf(s, e) && r.value.text == Text(s)
  }

  lemma {:induction false} FlatSumHasNoProduct(e: Expr)
    requires WellFormed(e) && IsArith(e) && Flat(e) && Level(e) == 0
    ensures SplitAt(Text(e), {'*', '%'}).None?
  {
    hide Text, Scan;
    FlatOffersNoProduct(e);
    ScanOver([], e, false, {'*', '%'}, 0);
    assert [] + Text(e) == Text(e);
    ScanNothing(false, {'*', '%'}, 0);
  }

  lemma {:induction false} FlatOffersNoProduct(e: Expr)
    requires WellFormed(e) && IsArith(e) && Flat(e) && Level(e) != 1
    ensures NoSplit(e, {'*', '%'})
    decreases e
  {
    if e.Bin? {
      FlatOffersNoProduct(e.l);
      FlatOffersNoProduct(e.r);
      assert e.op == Add || e.op == Sub;
      assert Symbol(e.op)[0].c !in {'*', '%'};
    }
  }

  /** A report is of the whole text, or of one side of one of the two splits. */
  lemma ReportComesFrom(rhs: seq<Token>, env: Env, name: string)
    ensures var s, r := Strip(rhs), WideIntermediate(rhs, env, name);
            r.Some? ==> r.value.text == s || IsFromSide(s, SplitAt(s, {'+', '-'}), r, env, name)
                        || IsFromSide(s, SplitAt(s, {'*', '%'}), r, env, name)
  {
    hide EvalText, Scan, Strip;
  }

  predicate IsFromSide(s: seq<Token>, split: Option<nat>, r: Option<Report>, env: Env, name: string)
    requires split.Some? ==> 0 < split.value < |s|
  {
    split.Some? && (r == WideIntermediate(s[..split.value], env, name) || r == WideIntermediate(s[split.value + 1..], env, name))
  }

  /** Of a flat right-hand side every report is a sub-expression, in every env and for every name. */
  lemma {:induction false} FlatReportsParts(e: Expr, env: Env, name: string)
    requires WellFormed(e) && IsArith(e) && Flat(e)
    ensures ReportsPart(e, Text(e), env, name)
    decreases e
  {
    hide Text, Scan, Strip, EvalText;
    StripText(e);
    if e.Paren? {
      ParenIsTransparent(e.e, env, name);
      FlatReportsParts(e.e, env, name);
      PartsOfPart(e.e, e, Text(e), env, name);
    } else {
      CutSides(e, 0, {'+', '-'});
      if e.Bin? {
        if Level(e) == 1 {
          HigherLevelHasNoSplit(e, {'+', '-'}, 0);
          CutSides(e, 1, {'*', '%'});
        } else {
          FlatSumHasNoProduct(e);
        }
        FlatReportsParts(e.l, env, name);
        FlatReportsParts(e.r, env, name);
        PartsOfPart(e.l, e, Text(e.l), env, name);
        PartsOfPart(e.r, e, Text(e.r), env, name);
      } else {
        NoCutAbove(e);
      }
      assert PartOf(e, e);
      ReportComesFrom(Text(e), env, name);
      var r := WideIntermediate(Text(e), env, name);
      if r.Some? && r.value.text != Text(e) {
        assert r == WideIntermediate(Text(e.l), env, name) || r == WideIntermediate(Text(e.r), env, name);
      }
    }
  }

  lemma PartsOfPart(a: Expr, e: Expr, text: seq<Token>, env: Env, name: string)
    requires PartOf(a, e) && ReportsPart(a, text, env, name)
    ensures ReportsPart(e, text, env, name)
  {
    hide WideIntermediate;
    var r := WideIntermediate(text, env, name);
    if r.Some? {
      var s :| PartOf(s, a) && r.value.text == Text(s);
      PartIsTransitive(s, a, e);
    }
  }

  lemma {:induction false} PartIsTransitive(s: Expr, a: Expr, e: Expr)
    requires PartOf(s, a) && PartOf(a, e)
    ensures PartOf(s, e)
    decreases e
  {
    if a != e {
      match e
      case Bin(_, l, r) =>
        if PartOf(a, l) {
          PartIsTransitive(s, a, l);
        } else {
          PartIsTransitive(s, a, r);
        }
      case Paren(b) => PartIsTransitive(s, a, b);
    }
  }

  /** `a + b*(a + b)`. */
  function RepeatedSum(a: string, b: string): Expr {
    Bin(Add, Name(a), Bin(Mul, Name(b), Paren(RepeatedPart(a, b))))
  }

  function RepeatedPart(a: string, b: string): Expr { Bin(Add, Name(a), Name(b)) }

  /** Flatness is not needed: cut at its `*` this right-hand side leaves the text `a+b`, which happens to
      be that of another part, so no env makes it report anything else. */
  lemma NotFlatButHarmless(a: string, b: string, env: Env, name: string)
    ensures var e := RepeatedSum(a, b);
            WellFormed(e) && IsArith(e) && !Flat(e) && ReportsPart(e, Text(e), env, name)
  {
    hide EvalText, Scan, Strip, Text, WideIntermediate;
    var e, sum := RepeatedSum(a, b), RepeatedPart(a, b);
    RepeatedIsATree(a, b);
    PartReports(e.l, e, env, name);
    PartReports(e.r, e, env, name);
    PartReports(sum, e, env, name);
    PartReports(Paren(sum), e, env, name);
    StripText(e);
    CutSides(e, 0, {'+', '-'});
    StarInRepeatedSum(a, b);
    ReportComesFrom(Text(e), env, name);
    assert PartOf(e, e);
  }

  lemma RepeatedIsATree(a: string, b: string)
    ensures var e, sum := RepeatedSum(a, b), RepeatedPart(a, b);
            && WellFormed(e) && IsArith(e) && !Flat(e)
            && forall p :: p in [e.l, e.r, sum, Paren(sum)] ==> WellFormed(p) && IsArith(p) && Flat(p) && PartOf(p, e)
  {
    var e, sum := RepeatedSum(a, b), RepeatedPart(a, b);
    NodeIsATree(sum);
    NodeIsATree(Paren(sum));
    NodeIsATree(e.r);
    assert PartOf(sum, sum);
    assert PartOf(sum, Paren(sum)) && PartOf(Paren(sum), Paren(sum));
    assert PartOf(sum, e.r) && PartOf(Paren(sum), e.r) && PartOf(e.r, e.r) && PartOf(e.l, e.l);
    assert Level(e.r) == 1;
  }

  lemma NodeIsATree(e: Expr)
    requires match e
             case Bin(op, l, r) =>
               && (op == Add || op == Mul) && l.Name? && !r.Bin? && Level(r) == 4
               && WellFormed(r) && IsArith(r) && Flat(r)
             case Paren(a) => WellFormed(a) && IsArith(a) && Flat(a)
             case _ => false
    ensures WellFormed(e) && IsArith(e) && Flat(e)
  {
  }

  lemma PartReports(p: Expr, e: Expr, env: Env, name: string)
    requires WellFormed(p) && IsArith(p) && Flat(p) && PartOf(p, e)
    ensures ReportsPart(e, Text(p), env, name)
  {
    FlatReportsParts(p, env, name);
    PartsOfPart(p, e, Text(p), env, name);
  }

  lemma StarInRepeatedSum(a: string, b: string)
    ensures var s, sum := Text(RepeatedSum(a, b)), RepeatedPart(a, b);
            && SplitAt(s, {'*', '%'}) == Some(3) && s[..3] == Text(sum) && s[4..] == Text(Paren(sum))
  {
    hide Scan;
    var s, sum := Text(RepeatedSum(a, b)), RepeatedPart(a, b);
    RepeatedText(a, b);
    var p := Text(sum) + [Op('*')];
    RepeatedIsATree(a, b);
    ScanOver(p, Paren(sum), false, {'*', '%'}, 0);
    ScanStep(Text(sum), Op('*'), false, {'*', '%'}, 0);
  }

  lemma RepeatedText(a: string, b: string)
    ensures var sum := RepeatedPart(a, b);
            && Text(sum) == [Id(a), Op('+'), Id(b)]
            && Text(RepeatedSum(a, b)) == Text(sum) + [Op('*')] + Text(Paren(sum))
  {
    var e, sum := RepeatedSum(a, b), RepeatedPart(a, b);
    assert Text(e.r) == Text(Name(b)) + Symbol(Mul) + Text(Paren(sum));
    assert Text(e) == Text(Name(a)) + Symbol(Add) + Text(e.r);
    Regrouped(Text(Name(a)), Symbol(Add), Text(Name(b)), Symbol(Mul), Text(Paren(sum)));
  }

  function ProductPlus(): Expr { Bin(Add, Bin(Mul, Name("x"), Name("y")), Name("z")) }

  function SpuriousEnv(): Env {
    map["x" := Known(0, 0), "y" := Known(0x7FFF_FFFF, 0x7FFF_FFFF), "z" := Known(1, 1)]
  }

  lemma SpuriousRanges()
    ensures var e, env := ProductPlus(), SpuriousEnv();
            && EvalText(Text(e), env, 0) == Known(1, 1) && EvalText(Text(e.l), env, 0) == Known(0, 0)
            && EvalText(Text(Bin(Add, Name("y"), Name("z"))), env, 0) == Known(0x8000_0000, 0x8000_0000)
            && forall n :: n in env ==> EvalText(Text(Name(n)), env, 0) == env[n]
  {
    hide EvalText, Text;
    var e, env := ProductPlus(), SpuriousEnv();
    forall d: nat, n | d <= 2 && n in env ensures EvalText(Text(Name(n)), env, d) == env[n] {
      NameInterval(n, env, d);
    }
    OperatorInterval(e.l, env, 0);
    OperatorInterval(e.l, env, 1);
    OperatorInterval(e, env, 0);
    OperatorInterval(Bin(Add, Name("y"), Name("z")), env, 0);
  }

  /** Every sub-expression has a range, and one that fits. */
  lemma SpuriousParts()
    ensures AllKnown(ProductPlus(), SpuriousEnv()) && AllFit(ProductPlus(), SpuriousEnv(), "z")
  {
    hide EvalText, Text;
    var e, env := ProductPlus(), SpuriousEnv();
    SpuriousRanges();
    forall s | PartOf(s, e) ensures EvalText(Text(s), env, 0).Known? && FitsI32(EvalText(Text(s), env, 0)) {
      PartsOfProductPlus(s);
    }
  }

  lemma PartsOfProductPlus(s: Expr)
    requires PartOf(s, ProductPlus())
    ensures s in [ProductPlus(), ProductPlus().l, Name("x"), Name("y"), Name("z")]
  {
    var e := ProductPlus();
    if s != e && PartOf(s, e.l) {
      assert s == e.l || PartOf(s, Name("x")) || PartOf(s, Name("y"));
    } else if s != e {
      assert PartOf(s, Name("z"));
    }
  }

  /** A text with a proved range outside 32 bits is reported, or a part of it is. */
  lemma WideIsReported(s: seq<Token>, env: Env, name: string)
    ensures Strip(s) == s && Id(name) in s && EvalText(s, env, 0).Known? && !FitsI32(EvalText(s, env, 0))
            ==> WideIntermediate(s, env, name).Some?
  {
    hide EvalText, Scan, Strip, WideAround;
  }

  /** The report can name a text that is no sub-expression: in `x*y+z` the `*` split runs even
      though a `+` stands outside it, and `y+z` is reported although every sub-expression fits. */
  lemma ReportMayBeSpurious()
    ensures var e, env := ProductPlus(), SpuriousEnv();
            && WellFormed(e) && IsArith(e) && AllKnown(e, env) && AllFit(e, env, "z")
            && WideIntermediate(Text(e), env, "z").Some?
  {
    hide EvalText, Scan, Strip, WideIntermediate;
    var e, yz := ProductPlus(), Bin(Add, Name("y"), Name("z"));
    SpuriousRanges();
    SpuriousParts();
    StripText(yz);
    StarUnderPlus(e, "x", "y", "z");
    WideIsReported(Text(yz), SpuriousEnv(), "z");
    StarIsFollowed(e, SpuriousEnv(), "z");
  }

  /** A report behind a split at a `*` is a report of the whole text. */
  lemma StarIsFollowed(e: Expr, env: Env, name: string)
    requires e.Bin? && SplitAt(Text(e), {'*', '%'}) == Some(1) && |Text(e)| > 2
    ensures Id(name) in Text(e) && EvalText(Text(e), env, 0).Known? && WideIntermediate(Text(e)[2..], env, name).Some?
            ==> WideIntermediate(Text(e), env, name).Some?
  {
    hide EvalText, Scan, Strip;
    StripText(e);
  }

  lemma StarUnderPlus(e: Expr, x: string, y: string, z: string)
    requires e == Bin(Add, Bin(Mul, Name(x), Name(y)), Name(z))
    ensures SplitAt(Text(e), {'*', '%'}) == Some(1) && Text(e)[2..] == Text(Bin(Add, Name(y), Name(z)))
    ensures Id(z) in Text(e) && Id(z) in Text(Bin(Add, Name(y), Name(z)))
  {
    hide Scan;
    var ops := {'*', '%'};
    var s := Text(e);
    assert Text(e.l) == [Id(x)] + [Op('*')] + [Id(y)];
    assert s == Text(e.l) + Symbol(Add) + Text(Name(z));
    assert s == [Id(x)] + [Op('*')] + [Id(y)] + [Op('+')] + [Id(z)];
    assert s[4] == Id(z) && Text(Bin(Add, Name(y), Name(z)))[2] == Id(z);
    ScanStep([Id(x)] + [Op('*')] + [Id(y)] + [Op('+')], Id(z), false, ops, 0);
    ScanStep([Id(x)] + [Op('*')] + [Id(y)], Op('+'), false, ops, 0);
    ScanStep([Id(x)] + [Op('*')], Id(y), false, ops, 0);
    ScanStep([Id(x)], Op('*'), false, ops, 0);
  }
}
