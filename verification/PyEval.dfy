/** The textual interval evaluator of the Python range analysis, and its soundness against
    Python's evaluation of the parse tree the text came from. */
module PyEval {
  import opened Int64
  import opened Intervals
  import opened Options
  import opened PyText

  type Env = map<string, Interval>

  const DEPTH_LIMIT: nat := 16

  function ApplyBin(op: char, a: Interval, b: Interval): Interval {
    match op
    case '+' => AddIV(a, b)
    case '-' => SubIV(a, b)
    case '*' => MulIV(a, b)
    case '%' => ModIV(a, b)
    case _ => Top
  }

  /** The floor-division rule: a dividend known non-negative over a divisor known positive. */
  function FloorDivIV(a: Interval, b: Interval): Interval {
    if a.Top? || a.lo < 0 || b.Top? || b.lo <= 0 || b.hi <= 0 then Top
    else
      FloorFits(a.lo, b.hi); FloorFits(a.hi, b.lo);
      Known(a.lo / b.hi, a.hi / b.lo)
  }

  lemma FloorFits(x: int, y: int)
    requires Fits(x) && y > 0
    ensures Fits(x / y)
  {
    var q, r := x / y, x % y;
    assert q * y + r == x;
    if q < x && x < 0 {
      ProductMonotone(q, x - 1, y);
      ProductMonotone(1, y, x);
      assert (x - 1) * y == x * y - y && x * y == y * x;
    } else if x >= 0 {
      QuotientShrinks(q, r, y);
    }
    if q >= 0 && x < 0 {
      ProductMonotone(0, q, y);
    }
  }

  /** The guard in front of the floor-division rule: the left part of a split at `/`
      has a `/` in it, or does not end with one. */
  predicate QuotientRefused(l: seq<Token>) {
    Op('/') in l || l == [] || l[|l| - 1] != Op('/')
  }

  function TrimSlash(l: seq<Token>): seq<Token> {
    if l != [] && l[|l| - 1] == Op('/') then l[..|l| - 1] else l
  }

  /** That guard always holds, so the floor-division rule behind it is never reached and
      every quotient, `/` or `//`, is unknown. */
  lemma QuotientAlwaysRefused(l: seq<Token>)
    ensures QuotientRefused(l)
  {
  }

  /** Decimal integer text: one number that fits int64, with an optional plus sign. */
  function ParseInt(s: seq<Token>): Option<int> {
    if |s| == 1 && s[0].Num? && Fits(s[0].n) then Some(s[0].n)
    else if |s| == 2 && s[0] == Op('+') && s[1].Num? && Fits(s[1].n) then Some(s[1].n)
    else None
  }

  function EvalText(text: seq<Token>, env: Env, depth: nat): Interval
    decreases DEPTH_LIMIT + 1 - depth, 2
  {
    if depth > DEPTH_LIMIT then Top
    else
      var s := Strip(text);
      var plus, minus, star, slash :=
        SplitAt(s, {'+'}), SplitAt(s, {'-'}), SplitAt(s, {'*', '%'}), SplitAt(s, {'/'});
      if s == [] then Top
      else if plus.Some? then EvalAround(s, plus.value, env, depth)
      else if minus.Some? then EvalAround(s, minus.value, env, depth)
      else if star.Some? then EvalAround(s, star.value, env, depth)
      else if slash.Some? then
        var l := s[..slash.value];
        var a, b := EvalText(TrimSlash(l), env, depth + 1), EvalText(s[slash.value + 1..], env, depth + 1);
        if QuotientRefused(l) then Top else FloorDivIV(a, b)
      else EvalUnsplit(s, env, depth)
  }

  /** A text without a split: a sign, a number, a name or a call. */
  function EvalUnsplit(s: seq<Token>, env: Env, depth: nat): Interval
    requires depth <= DEPTH_LIMIT && s != []
    decreases DEPTH_LIMIT + 1 - depth, 1
  {
    if s[0] == Op('-') && |s| > 1 then NegIV(EvalText(s[1..], env, depth + 1))
    else if ParseInt(s).Some? then Known(ParseInt(s).value, ParseInt(s).value)
    else if |s| == 1 && s[0].Id? && s[0].x in env then env[s[0].x]
    else EvalCall(s, env, depth)
  }

  /** The two sides of a split, combined by the operator found there. */
  function EvalAround(s: seq<Token>, i: nat, env: Env, depth: nat): Interval
    requires depth <= DEPTH_LIMIT && i < |s| && s[i].Op?
    decreases DEPTH_LIMIT + 1 - depth, 0
  {
    ApplyBin(s[i].c, EvalText(s[..i], env, depth + 1), EvalText(s[i + 1..], env, depth + 1))
  }

  /** int(x), abs(x), min(x, y) and max(x, y); anything else is unknown. */
  function EvalCall(s: seq<Token>, env: Env, depth: nat): Interval
    requires depth <= DEPTH_LIMIT
    decreases DEPTH_LIMIT + 1 - depth, 0
  {
    if |s| < 3 || !s[|s| - 1].Close? || !s[0].Id? || !s[1].Open? then Top
    else
      var inner := s[2..|s| - 1];
      if s[0].x == "int" then EvalText(inner, env, depth + 1)
      else if s[0].x == "abs" then AbsIV(EvalText(inner, env, depth + 1))
      else if s[0].x in {"min", "max"} then
        var comma := CommaAt(inner, 0);
        if comma.None? then Top
        else
          var a := EvalText(inner[..comma.value], env, depth + 1);
          var b := EvalText(inner[comma.value + 1..], env, depth + 1);
          if s[0].x == "min" then MinIV(a, b) else MaxIV(a, b)
      else Top
  }

  // ---------------------------------------------------------------- Python's own evaluation

  /** An int, or a value (a float) the analysis does not track. */
  datatype Value = Int(n: int) | Untracked

  type Store = map<string, Value>

  function FloorMod(x: int, y: int): int
    requires y != 0
  {
    if y > 0 || x % y == 0 then x % y else x % y + y
  }

  function FloorQuo(x: int, y: int): int
    requires y != 0
  {
    (x - FloorMod(x, y)) / y
  }

  function Power(x: int, k: nat): int {
    if k == 0 then 1 else x * Power(x, k - 1)
  }

  function BinValue(op: BinOp, a: Value, b: Value): Option<Value> {
    if a.Untracked? || b.Untracked? then Some(Untracked)
    else match op
      case Add => Some(Int(a.n + b.n))
      case Sub => Some(Int(a.n - b.n))
      case Mul => Some(Int(a.n * b.n))
      case Mod => if b.n == 0 then None else Some(Int(FloorMod(a.n, b.n)))
      case Div => if b.n == 0 then None else Some(Untracked)
      case FloorDiv => if b.n == 0 then None else Some(Int(FloorQuo(a.n, b.n)))
  }

  function PowValue(a: Value, b: Value): Value {
    if a.Int? && b.Int? && b.n >= 0 then Int(Power(a.n, b.n)) else Untracked
  }

  /** Of a call of any other function nothing is known. */
  function CallValue1(f: string, a: Value): Value {
    if a.Untracked? then Untracked
    else if f == "int" then a
    else if f == "abs" then Int(if a.n < 0 then -a.n else a.n)
    else Untracked
  }

  function CallValue2(f: string, a: Value, b: Value): Value {
    if a.Untracked? || b.Untracked? then Untracked
    else if f == "min" then Int(if a.n < b.n then a.n else b.n)
    else if f == "max" then Int(if a.n > b.n then a.n else b.n)
    else Untracked
  }

  /** The value of e, or None when evaluation raises (an unbound name, a zero divisor). */
  function Eval(e: Expr, st: Store): Option<Value> {
    match e
    case Lit(n) => Some(Int(n))
    case Name(x) => if x in st then Some(st[x]) else None
    case Bin(op, l, r) =>
      var a, b := Eval(l, st), Eval(r, st);
      if a.None? || b.None? then None else BinValue(op, a.value, b.value)
    case Neg(a) =>
      var v := Eval(a, st);
      if v.Some? && v.value.Int? then Some(Int(-v.value.n)) else v
    case Pos(a) => Eval(a, st)
    case Pow(b, x) =>
      var v, w := Eval(b, st), Eval(x, st);
      if v.None? || w.None? then None else Some(PowValue(v.value, w.value))
    case Paren(a) => Eval(a, st)
    case Call1(f, a) =>
      var v := Eval(a, st);
      if v.None? then None else Some(CallValue1(f, v.value))
    case Call2(f, a, b) =>
      var v, w := Eval(a, st), Eval(b, st);
      if v.None? || w.None? then None else Some(CallValue2(f, v.value, w.value))
    case Atom(_) => Some(Untracked)
  }

  /** st is a store the env allows: every name with a known interval is bound to an int in it. */
  ghost predicate Admits(env: Env, st: Store) {
    forall x :: x in env && env[x].Known? ==> x in st && st[x].Int? && Allows(env[x], st[x].n)
  }

  /** If the interval is known, evaluation succeeds with an int the interval allows. */
  predicate Holds(v: Interval, r: Option<Value>) {
    v.Known? ==> r.Some? && r.value.Int? && Allows(v, r.value.n)
  }

  /** Where the evaluator's own sign handling is right: no negated operand has the interval
      [MIN, _], and no operand of abs straddles zero. Both are tests on an operand's interval. */
  ghost predicate SignsAreSafe(e: Expr, env: Env) {
    match e
    case Lit(_) | Name(_) | Atom(_) => true
    case Bin(_, l, r) => SignsAreSafe(l, env) && SignsAreSafe(r, env)
    case Pos(a) => SignsAreSafe(a, env)
    case Pow(b, x) => SignsAreSafe(b, env) && SignsAreSafe(x, env)
    case Paren(a) => SignsAreSafe(a, env)
    case Call2(_, a, b) => SignsAreSafe(a, env) && SignsAreSafe(b, env)
    case Neg(a) =>
      SignsAreSafe(a, env) && forall d: nat :: NegIsSafe(EvalText(Text(a), env, d))
    case Call1(f, a) =>
      SignsAreSafe(a, env) && (f == "abs" ==> forall d: nat :: AbsIsSafe(EvalText(Text(a), env, d)))
  }

  predicate NegIsSafe(v: Interval) {
    v.Known? ==> v.lo != MIN || v.hi == MIN
  }

  predicate AbsIsSafe(v: Interval) {
    v.Known? ==> v.lo >= 0 || v.hi <= 0 || v.lo == MIN
  }
}
