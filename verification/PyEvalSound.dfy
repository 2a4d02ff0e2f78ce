/** The main theorem of the textual evaluator: a known interval contains Python's value. */
module PyEvalSound {
  import opened Int64
  import opened Intervals
  import opened Options
  import opened PyText
  import opened PyEval
  import opened PyEvalProof
  import opened PyEvalTop

  // ---------------------------------------------------------------- cutting a tree's text

  lemma CutSides(u: Expr, k: nat, ops: set<char>)
    requires WellFormed(u) && k <= 1 && OfLevel(ops, k) && '/' !in ops && Level(u) >= k
    ensures var c := RightmostCut(u, ops);
            var i := SplitAt(Text(u), ops);
            (c.NoCut? <==> i.None?)
            && (c.CutAt? ==>
                  && i == Some(|Text(c.l)|) && Text(u)[..i.value] == Text(c.l)
                  && Symbol(c.op) == [Text(u)[i.value]] && Text(u)[i.value + 1..] == Text(c.r))
  {
    hide Text, Scan;
    ScanFindsCut(u, k, ops, false);
    if RightmostCut(u, ops).CutAt? {
      CutKeepsText(u, ops);
      CutOperator(u, ops);
    }
  }

  lemma {:induction false} CutOperator(u: Expr, ops: set<char>)
    requires RightmostCut(u, ops).CutAt?
    ensures Symbol(RightmostCut(u, ops).op)[0].c in ops
  {
    if Symbol(u.op)[0].c !in ops {
      CutOperator(u.l, ops);
    }
  }

  /** Splitting at the rightmost `+` regroups the terms after it without changing the sum. */
  lemma {:induction false} PlusCutKeepsValue(e: Expr, st: Store)
    requires WellFormed(e) && Level(e) == 0 && RightmostCut(e, {'+'}).CutAt?
    ensures var c := RightmostCut(e, {'+'});
            var a, b := Eval(c.l, st), Eval(c.r, st);
            a.Some? && a.value.Int? && b.Some? && b.value.Int?
            ==> Eval(e, st) == Some(Int(a.value.n + b.value.n))
  {
    if e.op.Sub? {
      PlusCutKeepsValue(e.l, st);
    }
  }

  /** Any other split finds the tree's own operator, or a tree headed by a quotient. */
  lemma OtherCuts(e: Expr, ops: set<char>)
    requires WellFormed(e) && RightmostCut(e, ops).CutAt?
    requires (ops == {'-'} && Level(e) == 0 && RightmostCut(e, {'+'}).NoCut?) || (ops == {'*', '%'} && Level(e) == 1)
    ensures var c := RightmostCut(e, ops);
            c == CutAt(e.l, e.op, e.r) || (c.r.Bin? && c.r.op == e.op && (e.op.Div? || e.op.FloorDiv?))
  {
  }

  /** A tree headed by `/` or `//` has no known interval. */
  lemma {:induction false} QuotientIsTop(e: Expr, env: Env, depth: nat)
    requires WellFormed(e) && e.Bin? && (e.op.Div? || e.op.FloorDiv?)
    ensures EvalText(Text(e), env, depth) == Top
    decreases |Text(e)|
  {
    hide Text, Scan, Strip, WellFormed, SignsAreSafe, QuotientRefused, FloorDivIV, RightmostCut, SplitAt;
    if depth <= DEPTH_LIMIT {
      QuotientSplits(e, env);
      var c := RightmostCut(e, {'*', '%'});
      if c.CutAt? {
        QuotientIsTop(c.r, env, depth + 1);
      } else {
        QuotientAlwaysRefused(Text(e)[..SplitAt(Text(e), {'/'}).value]);
      }
    }
  }

  /** Such a text is split at a `*` or `%` before its quotient, or else at the quotient. */
  lemma QuotientSplits(e: Expr, env: Env)
    requires WellFormed(e) && e.Bin? && (e.op.Div? || e.op.FloorDiv?)
    ensures Strip(Text(e)) == Text(e) && Text(e) != []
    ensures SplitAt(Text(e), {'+'}).None? && SplitAt(Text(e), {'-'}).None?
    ensures var c, i := RightmostCut(e, {'*', '%'}), SplitAt(Text(e), {'*', '%'});
            if c.CutAt? then
              && i.Some? && Text(e)[i.value + 1..] == Text(c.r) && |Text(c.r)| < |Text(e)|
              && WellFormed(c.r) && c.r.Bin? && (c.r.op.Div? || c.r.op.FloorDiv?)
            else i.None? && SplitAt(Text(e), {'/'}).Some?
  {
    hide Text, Scan, Strip, SignsAreSafe;
    StripText(e);
    CutSides(e, 0, {'+'});
    CutSides(e, 0, {'-'});
    HigherLevelHasNoSplit(e, {'+'}, 0);
    HigherLevelHasNoSplit(e, {'-'}, 0);
    CutSides(e, 1, {'*', '%'});
    ScanFindsCut(e, 1, {'/'}, false);
    if RightmostCut(e, {'*', '%'}).CutAt? {
      OtherCuts(e, {'*', '%'});
      CutIsATree(e, {'*', '%'}, env);
      CutKeepsText(e, {'*', '%'});
    }
  }

  // ---------------------------------------------------------------- soundness

  /** Interval arithmetic is sound operator by operator, against Python's floor modulus. */
  lemma ApplyBinSound(op: BinOp, a: Interval, b: Interval, v: Option<Value>, w: Option<Value>)
    requires !op.Div? && !op.FloorDiv? && Holds(a, v) && Holds(b, w)
    ensures Holds(ApplyBin(Symbol(op)[0].c, a, b),
                  if v.None? || w.None? then None else BinValue(op, v.value, w.value))
  {
    if a.Known? && b.Known? {
      var x, y := v.value.n, w.value.n;
      match op
      case Add =>
        AddIVExact(a, b);
        assert Plus(x, y) == x + y;
      case Sub =>
        SubIVExact(a, b);
        assert Minus(x, y) == x - y;
      case Mul =>
        MulIVExact(a, b);
        assert Times(x, y) == x * y;
      case Mod =>
        if ModIV(a, b).Known? {
          ModIVSound(a, b, x, y);
        }
    }
  }

  lemma UnparenKeeps(e: Expr, env: Env, st: Store)
    requires WellFormed(e) && SignsAreSafe(e, env)
    ensures var u := Unparen(e);
            && !u.Paren? && WellFormed(u) && SignsAreSafe(u, env) && Eval(u, st) == Eval(e, st)
            && |Text(u)| <= |Text(e)|
  {
    if e.Paren? {
      UnparenKeeps(e.e, env, st);
    }
  }

  /** If the evaluator answers with an interval, Python's evaluation succeeds with an int in
      it: for every parse tree, every env, every store the env allows, and every depth. */
  lemma {:induction false} EvalTextSound(e: Expr, env: Env, st: Store, depth: nat)
    requires WellFormed(e) && SignsAreSafe(e, env) && Admits(env, st)
    ensures Holds(EvalText(Text(e), env, depth), Eval(e, st))
    decreases |Text(e)|, 2
  {
    hide Text, Scan, Strip, WellFormed, SignsAreSafe, Eval;
    StripText(e);
    UnparenKeeps(e, env, st);
    if depth <= DEPTH_LIMIT {
      var u := Unparen(e);
      if Level(u) <= 1 {
        SoundBinary(e, u, env, st, depth);
      } else {
        SoundUnsplit(e, u, env, st, depth);
      }
    }
  }

  lemma {:induction false} SoundCut(u: Expr, ops: set<char>, env: Env, st: Store, depth: nat)
    requires WellFormed(u) && SignsAreSafe(u, env) && Admits(env, st) && depth <= DEPTH_LIMIT
    requires Level(u) <= 1 && RightmostCut(u, ops).CutAt?
    requires if Level(u) == 0 then ops == {'+'} || (ops == {'-'} && RightmostCut(u, {'+'}).NoCut?)
             else ops == {'*', '%'}
    ensures SplitAt(Text(u), ops).Some?
    ensures Holds(EvalAround(Text(u), SplitAt(Text(u), ops).value, env, depth), Eval(u, st))
    decreases |Text(u)|, 0
  {
    hide Text, Scan, Strip, EvalText, ApplyBin;
    CutSides(u, Level(u), ops);
    CutIsATree(u, ops, env);
    CutKeepsText(u, ops);
    var c := RightmostCut(u, ops);
    if ops != {'+'} {
      OtherCuts(u, ops);
    }
    if c == CutAt(u.l, u.op, u.r) || ops == {'+'} {
      EvalTextSound(c.l, env, st, depth + 1);
      EvalTextSound(c.r, env, st, depth + 1);
      ApplyBinSound(c.op, EvalText(Text(c.l), env, depth + 1), EvalText(Text(c.r), env, depth + 1),
                    Eval(c.l, st), Eval(c.r, st));
      if ops == {'+'} {
        PlusCutKeepsValue(u, st);
      }
    } else {
      QuotientIsTop(c.r, env, depth + 1);
      ApplyToTop(Text(u)[SplitAt(Text(u), ops).value].c, EvalText(Text(c.l), env, depth + 1));
    }
  }

  lemma ApplyToTop(op: char, a: Interval)
    ensures ApplyBin(op, a, Top) == Top
  {
  }

  lemma {:induction false} SoundBinary(e: Expr, u: Expr, env: Env, st: Store, depth: nat)
    requires u == Unparen(e) && Strip(Text(e)) == Text(u) && |Text(u)| <= |Text(e)|
    requires WellFormed(u) && SignsAreSafe(u, env) && Admits(env, st) && depth <= DEPTH_LIMIT
    requires Level(u) <= 1
    ensures Holds(EvalText(Text(e), env, depth), Eval(u, st))
    decreases |Text(e)|, 1
  {
    hide Text, Scan, Strip, WellFormed, SignsAreSafe, Eval;
    CutSides(u, 0, {'+'});
    CutSides(u, 0, {'-'});
    if Level(u) == 0 {
      if RightmostCut(u, {'+'}).CutAt? {
        SoundCut(u, {'+'}, env, st, depth);
      } else {
        SoundCut(u, {'-'}, env, st, depth);
      }
    } else {
      HigherLevelHasNoSplit(u, {'+'}, 0);
      HigherLevelHasNoSplit(u, {'-'}, 0);
      CutSides(u, 1, {'*', '%'});
      if RightmostCut(u, {'*', '%'}).CutAt? {
        SoundCut(u, {'*', '%'}, env, st, depth);
      } else {
        ScanFindsCut(u, 1, {'/'}, false);
      }
    }
  }

  lemma {:induction false} SoundUnsplit(e: Expr, u: Expr, env: Env, st: Store, depth: nat)
    requires u == Unparen(e) && Strip(Text(e)) == Text(u) && |Text(u)| <= |Text(e)|
    requires WellFormed(u) && SignsAreSafe(u, env) && Admits(env, st) && depth <= DEPTH_LIMIT
    requires Level(u) >= 2 && !u.Paren?
    ensures Holds(EvalText(Text(e), env, depth), Eval(u, st))
    decreases |Text(e)|, 1
  {
    hide Text, Scan, Strip, EvalUnsplit, WellFormed, SignsAreSafe, Eval;
    NoCutAbove(u);
    if u.Call1? {
      SoundCall1(u, env, st, depth);
    } else if u.Call2? {
      SoundCall2(u, env, st, depth);
    } else {
      SoundLeaf(u, env, st, depth);
    }
  }

  lemma {:induction false} SoundLeaf(u: Expr, env: Env, st: Store, depth: nat)
    requires WellFormed(u) && SignsAreSafe(u, env) && Admits(env, st) && depth <= DEPTH_LIMIT
    requires !u.Bin? && !u.Paren? && !u.Call1? && !u.Call2?
    ensures Holds(EvalUnsplit(Text(u), env, depth), Eval(u, st))
    decreases |Text(u)|, 0
  {
    hide EvalText;
    match u
    case Lit(n) =>
    case Name(x) =>
    case Neg(a) =>
      assert Text(u)[1..] == Text(a);
      EvalTextSound(a, env, st, depth + 1);
      var v := EvalText(Text(a), env, depth + 1);
      assert NegIsSafe(v);
      if v.Known? {
        NegIVExact(v);
      }
    case Pos(a) =>
      assert Text(u)[1..] == Text(a);
    case Pow(b, x) => PowIsTop(b, x, env, depth);
    case Atom(t) => AtomIsTop(t, env, depth);
  }

  lemma {:induction false} SoundCall1(u: Expr, env: Env, st: Store, depth: nat)
    requires WellFormed(u) && SignsAreSafe(u, env) && Admits(env, st) && depth <= DEPTH_LIMIT
    requires u.Call1?
    ensures Holds(EvalUnsplit(Text(u), env, depth), Eval(u, st))
    decreases |Text(u)|, 0
  {
    hide EvalText, EvalUnsplit;
    UnsplitCall1(u.f, u.e, env, depth);
    assert |Text(u.e)| < |Text(u)|;
    hide Text;
    EvalTextSound(u.e, env, st, depth + 1);
    if u.f == "abs" {
      var v := EvalText(Text(u.e), env, depth + 1);
      assert AbsIsSafe(v);
      if AbsIV(v).Known? {
        AbsIVSound(v, Eval(u.e, st).value.n);
      }
    }
  }

  lemma {:induction false} SoundCall2(u: Expr, env: Env, st: Store, depth: nat)
    requires WellFormed(u) && SignsAreSafe(u, env) && Admits(env, st) && depth <= DEPTH_LIMIT
    requires u.Call2?
    ensures Holds(EvalUnsplit(Text(u), env, depth), Eval(u, st))
    decreases |Text(u)|, 0
  {
    hide EvalText, EvalUnsplit;
    UnsplitCall2(u.f, u.a, u.b, env, depth);
    assert |Text(u.a)| < |Text(u)| && |Text(u.b)| < |Text(u)|;
    hide Text;
    EvalTextSound(u.a, env, st, depth + 1);
    EvalTextSound(u.b, env, st, depth + 1);
  }

  lemma NoCutAbove(u: Expr)
    requires WellFormed(u) && Level(u) >= 2
    ensures SplitAt(Text(u), {'+'}).None? && SplitAt(Text(u), {'-'}).None?
    ensures SplitAt(Text(u), {'*', '%'}).None? && SplitAt(Text(u), {'/'}).None?
  {
    hide Text, Scan;
    ScanFindsCut(u, 0, {'+'}, false);
    ScanFindsCut(u, 0, {'-'}, false);
    ScanFindsCut(u, 1, {'*', '%'}, false);
    ScanFindsCut(u, 1, {'/'}, false);
  }

  /** `**` is never split and matches no call: a power has no known interval. */
  lemma PowIsTop(b: Expr, x: Expr, env: Env, depth: nat)
    requires WellFormed(Pow(b, x)) && depth <= DEPTH_LIMIT
    ensures EvalUnsplit(Text(Pow(b, x)), env, depth) == Top
  {
    if b.Atom? {
      PowOfAtomIsTop(b.s, x, env, depth);
    } else if b.Call1? || b.Call2? {
      hide EvalText, Depth;
      var s := Text(Pow(b, x));
      PowCallIsOverClosed(b, x);
      assert s[0].Id? && s[1].Open?;
      if s[|s| - 1].Close? {
        OverClosedCall(s, env, depth);
      }
    }
  }

  lemma PowOfAtomIsTop(t: AtomText, x: Expr, env: Env, depth: nat)
    requires depth <= DEPTH_LIMIT
    ensures EvalUnsplit(Text(Pow(Atom(t), x)), env, depth) == Top
  {
    hide EvalText, Depth, EvalCall;
    var rest := [Op('*'), Op('*')] + Text(x);
    var s := t + rest;
    AtomEnds(t);
    assert Text(Pow(Atom(t), x)) == s;
    CallShape(s, env, depth);
    if |s| >= 3 && s[|s| - 1].Close? && s[0].Id? && s[1].Open? {
      PowAtomIsOverClosed(t, rest);
      OverClosedCall(s, env, depth);
    }
  }

  lemma CallShape(s: seq<Token>, env: Env, depth: nat)
    requires depth <= DEPTH_LIMIT
    ensures !(|s| >= 3 && s[|s| - 1].Close? && s[0].Id? && s[1].Open?) ==> EvalCall(s, env, depth) == Top
  {
  }

  lemma PowAtomIsOverClosed(t: AtomText, rest: seq<Token>)
    requires t[0].Id? && t[1].Open? && rest != []
    ensures var s := t + rest; Depth(s[2..|s| - 1], 0).None?
  {
    var s, tail := t + rest, rest[..|rest| - 1];
    UnwindDepth(t, [], 0);
    assert s[2..|s| - 1] == t[2..] + tail && t[1..][1..] == t[2..];
    if Depth(t[2..], 0).Some? {
      DepthShift(t[2..], 0);
    }
    DepthConcat(t[2..], tail, 0);
  }

  /** Read as the arguments of its base, a power's text closes the call's bracket too early. */
  lemma PowCallIsOverClosed(b: Expr, x: Expr)
    requires b.Call1? || b.Call2?
    ensures var s := Text(Pow(b, x)); Depth(s[2..|s| - 1], 0).None?
  {
    hide Depth;
    var stars := [Op('*'), Op('*')];
    if b.Call1? {
      TextIsBalanced(b.e, 0);
      assert Text(b) == [Id(b.f), Open] + Text(b.e) + [Close];
      EarlyClose(b.f, Text(b.e), stars, Text(x));
    } else {
      TextIsBalanced(b.a, 0); TextIsBalanced(b.b, 0);
      TokenDepth(Comma, 0);
      DepthConcat(Text(b.a), [Comma], 0);
      DepthConcat(Text(b.a) + [Comma], Text(b.b), 0);
      var args := Text(b.a) + [Comma] + Text(b.b);
      assert Text(b) == [Id(b.f), Open] + args + [Close];
      EarlyClose(b.f, args, stars, Text(x));
    }
  }

  lemma EarlyClose(f: string, args: seq<Token>, stars: seq<Token>, x: seq<Token>)
    requires Depth(args, 0) == Some(0) && x != []
    ensures var s := [Id(f), Open] + args + [Close] + stars + x; Depth(s[2..|s| - 1], 0).None?
  {
    var s := [Id(f), Open] + args + [Close] + stars + x;
    var tail := [Close] + (stars + x[..|x| - 1]);
    assert s[2..|s| - 1] == args + tail;
    DepthConcat(args, tail, 0);
  }

  lemma ArgumentSplit(f: string, a: Expr, b: Expr)
    ensures var s := Text(Call2(f, a, b));
            && |s| == |Text(a)| + |Text(b)| + 4 && s[0] == Id(f) && s[1].Open? && s[|s| - 1].Close?
    ensures var s := Text(Call2(f, a, b));
            var inner := s[2..|s| - 1];
            CommaAt(inner, 0) == Some(|Text(a)|) && inner[..|Text(a)|] == Text(a)
            && inner[|Text(a)| + 1..] == Text(b)
  {
    hide CommaAt;
    Call2Text(f, a, b);
    hide Text;
    var k := [Comma] + Text(b);
    CommaOver(a, k, 0);
    assert CommaAt(k, 0) == Some(0) by { FirstComma(Text(b)); }
  }

  lemma Call2Text(f: string, a: Expr, b: Expr)
    ensures var s := Text(Call2(f, a, b));
            && |s| == |Text(a)| + |Text(b)| + 4 && s[0] == Id(f) && s[1].Open? && s[|s| - 1].Close?
            && s[2..|s| - 1] == Text(a) + ([Comma] + Text(b))
  {
    PairSlices(Id(f), Open, Text(a), Comma, Text(b), Close);
  }

  lemma PairSlices(t0: Token, t1: Token, a: seq<Token>, t2: Token, b: seq<Token>, t3: Token)
    ensures var s := [t0, t1] + a + [t2] + b + [t3];
            && |s| == |a| + |b| + 4 && s[0] == t0 && s[1] == t1 && s[|s| - 1] == t3
            && s[2..|s| - 1] == a + ([t2] + b)
  {
  }

  lemma FirstComma(s: seq<Token>)
    ensures CommaAt([Comma] + s, 0) == Some(0)
  {
  }

  lemma NameInterval(x: string, env: Env, depth: nat)
    requires x in env && depth <= DEPTH_LIMIT
    ensures EvalText(Text(Name(x)), env, depth) == env[x]
  {
  }

  /** The interval of a sum, or of a product, is computed from those of its two operands. */
  lemma OperatorInterval(e: Expr, env: Env, depth: nat)
    requires WellFormed(e) && e.Bin? && (e.op.Add? || e.op.Mul? || e.op.Mod?) && depth <= DEPTH_LIMIT
    ensures EvalText(Text(e), env, depth)
            == ApplyBin(Symbol(e.op)[0].c, EvalText(Text(e.l), env, depth + 1), EvalText(Text(e.r), env, depth + 1))
  {
    hide Scan, Strip, Text;
    StripText(e);
    CutSides(e, 0, {'+'});
    CutSides(e, 0, {'-'});
    if Level(e) == 1 {
      HigherLevelHasNoSplit(e, {'+'}, 0);
      HigherLevelHasNoSplit(e, {'-'}, 0);
      CutSides(e, 1, {'*', '%'});
    }
  }

  /** The interval of every other expression, from those of its operands: a literal is itself if it
      fits, a name what the env says, signs and calls apply their rule, powers are unknown. */
  lemma UnsplitInterval(e: Expr, env: Env, depth: nat)
    requires WellFormed(e) && Level(e) >= 2 && !e.Paren? && depth <= DEPTH_LIMIT
    ensures EvalText(Text(e), env, depth) == match e
              case Lit(n) => if Fits(n) then Known(n, n) else Top
              case Name(x) => if x in env then env[x] else Top
              case Neg(a) => NegIV(EvalText(Text(a), env, depth + 1))
              case Pos(a) => if a.Lit? && Fits(a.n) then Known(a.n, a.n) else Top
              case Call1(f, a) =>
                var v := EvalText(Text(a), env, depth + 1);
                if f == "int" then v else if f == "abs" then AbsIV(v) else Top
              case Call2(f, a, b) =>
                var v, w := EvalText(Text(a), env, depth + 1), EvalText(Text(b), env, depth + 1);
                if f == "min" then MinIV(v, w) else if f == "max" then MaxIV(v, w) else Top
              case _ => Top
  {
    hide EvalUnsplit, Text, Scan, Strip;
    StripText(e);
    NoCutAbove(e);
    assert EvalText(Text(e), env, depth) == EvalUnsplit(Text(e), env, depth);
    match e
    case Pow(b, x) => PowIsTop(b, x, env, depth);
    case Call1(f, a) => UnsplitCall1(f, a, env, depth);
    case Call2(f, a, b) => UnsplitCall2(f, a, b, env, depth);
    case Atom(t) => UnsplitOther(t, env, depth);
    case _ => UnsplitAtom(e, env, depth);
  }

  /** One under n minus signs. */
  function Signs(n: nat): Expr {
    if n == 0 then Lit(1) else Neg(Signs(n - 1))
  }

  /** The depth limit: sixteen signs are followed, a seventeenth is not. */
  lemma {:induction false} SignsExactly(n: nat, env: Env, depth: nat)
    ensures EvalText(Text(Signs(n)), env, depth)
            == if depth + n > 16 then Top else if n % 2 == 0 then Known(1, 1) else Known(-1, -1)
    decreases n
  {
    hide EvalText, Text;
    if depth > 16 {
      TooDeep(Text(Signs(n)), env, depth);
    } else {
      SignsAreTrees(n);
      UnsplitInterval(Signs(n), env, depth);
      if n > 0 {
        SignsExactly(n - 1, env, depth + 1);
      }
    }
  }

  lemma SignsAreTrees(n: nat)
    ensures WellFormed(Signs(n)) && Level(Signs(n)) >= 2 && !Signs(n).Paren?
  {
  }

  lemma TooDeep(s: seq<Token>, env: Env, depth: nat)
    requires depth > 16
    ensures EvalText(s, env, depth) == Top
  {
  }

  lemma UnsplitAtom(e: Expr, env: Env, depth: nat)
    requires WellFormed(e) && depth <= DEPTH_LIMIT && (e.Lit? || e.Name? || e.Neg? || e.Pos?)
    ensures EvalUnsplit(Text(e), env, depth) == match e
              case Lit(n) => if Fits(n) then Known(n, n) else Top
              case Name(x) => if x in env then env[x] else Top
              case Neg(a) => NegIV(EvalText(Text(a), env, depth + 1))
              case _ => if e.e.Lit? && Fits(e.e.n) then Known(e.e.n, e.e.n) else Top
  {
    hide EvalText;
    if e.Neg? || e.Pos? {
      assert Text(e)[1..] == Text(e.e);
    }
  }

  lemma UnsplitOther(t: AtomText, env: Env, depth: nat)
    requires depth <= DEPTH_LIMIT
    ensures EvalUnsplit(Text(Atom(t)), env, depth) == Top
  {
    AtomIsTop(t, env, depth);
  }

  lemma UnsplitCall1(f: string, a: Expr, env: Env, depth: nat)
    requires depth <= DEPTH_LIMIT
    ensures var v := EvalText(Text(a), env, depth + 1);
            EvalUnsplit(Text(Call1(f, a)), env, depth) == if f == "int" then v else if f == "abs" then AbsIV(v) else Top
  {
    hide EvalText, CommaAt;
    var s := Text(Call1(f, a));
    assert s[2..|s| - 1] == Text(a);
    CommaOver(a, [], 0);
    CommaNone([], 0);
    assert Text(a) + [] == Text(a);
  }

  lemma UnsplitCall2(f: string, a: Expr, b: Expr, env: Env, depth: nat)
    requires depth <= DEPTH_LIMIT
    ensures var v, w := EvalText(Text(a), env, depth + 1), EvalText(Text(b), env, depth + 1);
            EvalUnsplit(Text(Call2(f, a, b)), env, depth)
            == if f == "min" then MinIV(v, w) else if f == "max" then MaxIV(v, w) else Top
  {
    hide EvalText, Text;
    ArgumentSplit(f, a, b);
    PairIsTop(f, a, b, env, depth + 1);
  }

  lemma PairIsTop(f: string, a: Expr, b: Expr, env: Env, depth: nat)
    ensures var s := Text(Call2(f, a, b)); EvalText(s[2..|s| - 1], env, depth) == Top
  {
    hide EvalText, Text, CommaAt;
    ArgumentSplit(f, a, b);
    Call2Text(f, a, b);
    TextIsBracketed(a, []);
    TextIsBracketed(b, []);
    UnwindPair(Text(a), Text(b), []);
    assert Text(a) + [Comma] + Text(b) == Text(a) + ([Comma] + Text(b));
    var s := Text(Call2(f, a, b));
    CommaIsTop(s[2..|s| - 1], env, depth);
  }

  /** A difference is computed at its own `-` when no `+` stands outside brackets in it, and otherwise
      as the sum around the last such `+`. */
  lemma DifferenceInterval(e: Expr, env: Env, depth: nat)
    requires WellFormed(e) && e.Bin? && e.op.Sub? && depth <= DEPTH_LIMIT
    ensures var c := RightmostCut(e, {'+'});
            EvalText(Text(e), env, depth)
            == if c.NoCut? then SubIV(EvalText(Text(e.l), env, depth + 1), EvalText(Text(e.r), env, depth + 1))
               else AddIV(EvalText(Text(c.l), env, depth + 1), EvalText(Text(c.r), env, depth + 1))
  {
    hide Scan, Strip, Text, EvalUnsplit;
    StripText(e);
    CutSides(e, 0, {'+'});
    CutSides(e, 0, {'-'});
    var c := RightmostCut(e, {'+'});
    if c.CutAt? {
      CutOperator(e, {'+'});
    }
  }

  /** Without the sign conditions soundness fails. A negated interval starting at MIN comes out empty. */
  lemma NegationConditionIsNeeded()
    ensures var env, st := map["x" := Known(MIN, 0)], map["x" := Int(0)];
            Admits(env, st) && !Holds(EvalText(Text(Neg(Name("x"))), env, 0), Eval(Neg(Name("x")), st))
  {
    hide Scan, Strip;
    var neg := Neg(Name("x"));
    StripText(neg);
    NoCutAbove(neg);
    NameInterval("x", map["x" := Known(MIN, 0)], 1);
    assert Text(neg)[1..] == Text(Name("x"));
  }

  /** The abs of an interval around zero excludes zero. */
  lemma AbsConditionIsNeeded()
    ensures var env, st := map["x" := Known(-1, 5)], map["x" := Int(0)];
            var e := Call1("abs", Name("x"));
            Admits(env, st) && !Holds(EvalText(Text(e), env, 0), Eval(e, st))
  {
    hide Scan, Strip;
    var abs := Call1("abs", Name("x"));
    StripText(abs);
    NoCutAbove(abs);
    NameInterval("x", map["x" := Known(-1, 5)], 1);
    assert Text(abs)[2..|Text(abs)| - 1] == Text(Name("x"));
  }
}
