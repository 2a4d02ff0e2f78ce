/** The interval lattice of the Python range analysis: an int64 interval or "unknown",
    with arithmetic that answers "unknown" as soon as an endpoint overflows. */
module Intervals {
  import opened Int64

  datatype RawInterval = Top | Known(lo: int, hi: int)

  type Interval = v: RawInterval | v.Known? ==> Fits(v.lo) && Fits(v.hi) witness Top

  /** x is one of the values the interval allows. */
  predicate Allows(v: Interval, x: int) {
    v.Known? ==> v.lo <= x <= v.hi
  }

  predicate NonEmpty(v: Interval) {
    v.Known? ==> v.lo <= v.hi
  }

  function Min(a: int, b: int): int { if a < b then a else b }

  function Max(a: int, b: int): int { if a > b then a else b }

  function Join(a: Interval, b: Interval): Interval {
    if a.Top? || b.Top? then Top else Known(Min(a.lo, b.lo), Max(a.hi, b.hi))
  }

  function AddIV(a: Interval, b: Interval): Interval {
    if a.Top? || b.Top? then Top
    else
      var lo, hi := AddOvf(a.lo, b.lo), AddOvf(a.hi, b.hi);
      if lo.Overflow? || hi.Overflow? then Top else Known(lo.v, hi.v)
  }

  function SubIV(a: Interval, b: Interval): Interval {
    if a.Top? || b.Top? || b.lo == MIN || b.hi == MIN then Top
    else AddIV(a, Known(-b.hi, -b.lo))
  }

  /** The four endpoint products, in the order the source visits them. */
  function Corners(a: Interval, b: Interval): seq<(int, int)>
    requires a.Known? && b.Known?
  {
    [(a.lo, b.lo), (a.lo, b.hi), (a.hi, b.lo), (a.hi, b.hi)]
  }

  function MulIV(a: Interval, b: Interval): Interval {
    if a.Top? || b.Top? then Top
    else
      var p, q, r, s := a.lo * b.lo, a.lo * b.hi, a.hi * b.lo, a.hi * b.hi;
      if Fits(p) && Fits(q) && Fits(r) && Fits(s)
      then Known(Min(Min(p, q), Min(r, s)), Max(Max(p, q), Max(r, s)))
      else Top
  }

  /** The source's multiplication: two nested loops over the endpoints that keep the
      smallest and largest product and give up on the first overflow. */
  method MulLoop(a: Interval, b: Interval) returns (r: Interval)
    ensures r == MulIV(a, b)
  {
    if a.Top? || b.Top? {
      return Top;
    }
    var lo, hi, first := 0, 0, true;
    var corners := Corners(a, b);
    for i := 0 to |corners|
      invariant first <==> i == 0
      invariant forall k :: 0 <= k < i ==> Fits(corners[k].0 * corners[k].1)
      invariant !first ==> exists k :: 0 <= k < i && lo == corners[k].0 * corners[k].1
      invariant !first ==> exists k :: 0 <= k < i && hi == corners[k].0 * corners[k].1
      invariant forall k :: 0 <= k < i ==> lo <= corners[k].0 * corners[k].1 <= hi
    {
      var (x, y) := corners[i];
      var p := MulOvf(x, y);
      MulOvfExact(x, y);
      if p.Overflow? {
        assert !Fits(corners[i].0 * corners[i].1);
        return Top;
      }
      if first || p.v < lo { lo := p.v; }
      if first || p.v > hi { hi := p.v; }
      first := false;
    }
    assert forall k :: 0 <= k < 4 ==> lo <= corners[k].0 * corners[k].1 <= hi;
    assert lo <= corners[0].0 * corners[0].1 <= hi && lo <= corners[1].0 * corners[1].1 <= hi
        && lo <= corners[2].0 * corners[2].1 <= hi && lo <= corners[3].0 * corners[3].1 <= hi;
    return Known(lo, hi);
  }

  /** n in int64 for n one below the range at most; only the malformed interval [_, MIN] wraps. */
  function WrapBelow(n: int): (r: int)
    requires MIN - 1 <= n <= MAX
    ensures Fits(r)
  {
    if n == MIN - 1 then MAX else n
  }

  /** Python's `%` with a divisor known positive and a dividend known non-negative. */
  function ModIV(a: Interval, b: Interval): Interval {
    if a.Known? && a.lo >= 0 && b.Known? && b.lo > 0 then Known(0, WrapBelow(b.hi - 1)) else Top
  }

  /** Go's int64 negation: -MIN wraps back to MIN. */
  function Negated(n: int): (r: int)
    requires Fits(n)
    ensures Fits(r)
  {
    if n == MIN then MIN else -n
  }

  /** Unary minus as the text evaluator computes it: it refuses hi == MIN but lets -lo wrap. */
  function NegIV(v: Interval): Interval {
    if v.Top? || v.hi == MIN then Top else Known(Negated(v.hi), Negated(v.lo))
  }

  /** `abs` as the text evaluator computes it: the endpoints' absolute values, in order. */
  function AbsIV(v: Interval): Interval {
    if v.Top? || v.lo == MIN then Top
    else
      var l, h := if v.lo < 0 then Negated(v.lo) else v.lo, if v.hi < 0 then Negated(v.hi) else v.hi;
      if l > h then Known(h, l) else Known(l, h)
  }

  function MinIV(a: Interval, b: Interval): Interval {
    if a.Top? || b.Top? then Top else Known(Min(a.lo, b.lo), Min(a.hi, b.hi))
  }

  function MaxIV(a: Interval, b: Interval): Interval {
    if a.Top? || b.Top? then Top else Known(Max(a.lo, b.lo), Max(a.hi, b.hi))
  }

  /** r is the smallest interval holding f's values: it allows them all and attains its ends. */
  ghost predicate IsHull(r: Interval, a: Interval, b: Interval, f: (int, int) -> int) {
    r.Known?
    && (forall x, y :: Allows(a, x) && Allows(b, y) ==> r.lo <= f(x, y) <= r.hi)
    && (exists x, y :: Allows(a, x) && Allows(b, y) && f(x, y) == r.lo)
    && (exists x, y :: Allows(a, x) && Allows(b, y) && f(x, y) == r.hi)
  }

  /** Some value of f escapes int64. */
  ghost predicate Escapes(a: Interval, b: Interval, f: (int, int) -> int) {
    exists x, y :: Allows(a, x) && Allows(b, y) && !Fits(f(x, y))
  }

  function Plus(x: int, y: int): int { x + y }

  function Minus(x: int, y: int): int { x - y }

  function Times(x: int, y: int): int { x * y }

  /** Addition is exact: the tightest interval, or unknown precisely when some sum overflows. */
  lemma AddIVExact(a: Interval, b: Interval)
    requires a.Known? && b.Known? && NonEmpty(a) && NonEmpty(b)
    ensures if Escapes(a, b, Plus) then AddIV(a, b) == Top else IsHull(AddIV(a, b), a, b, Plus)
  {
    AddOvfExact(a.lo, b.lo);
    AddOvfExact(a.hi, b.hi);
    assert Plus(a.lo, b.lo) == a.lo + b.lo && Plus(a.hi, b.hi) == a.hi + b.hi;
    if Escapes(a, b, Plus) {
      var x, y :| Allows(a, x) && Allows(b, y) && !Fits(Plus(x, y));
    } else {
      assert Allows(a, a.lo) && Allows(b, b.lo) && Allows(a, a.hi) && Allows(b, b.hi);
    }
  }

  /** Subtraction is exact too, except that a divisor interval touching MIN is refused outright. */
  lemma SubIVExact(a: Interval, b: Interval)
    requires a.Known? && b.Known? && NonEmpty(a) && NonEmpty(b)
    ensures if Escapes(a, b, Minus) || b.lo == MIN then SubIV(a, b) == Top
            else IsHull(SubIV(a, b), a, b, Minus)
  {
    hide AddOvf;
    if b.lo != MIN {
      AddOvfExact(a.lo, -b.hi);
      AddOvfExact(a.hi, -b.lo);
      assert Minus(a.lo, b.hi) == a.lo - b.hi && Minus(a.hi, b.lo) == a.hi - b.lo;
      if Escapes(a, b, Minus) {
        var x, y :| Allows(a, x) && Allows(b, y) && !Fits(Minus(x, y));
      } else {
        assert Allows(a, a.lo) && Allows(b, b.lo) && Allows(a, a.hi) && Allows(b, b.hi);
      }
    }
  }

  lemma ProductMonotone(x: int, x': int, y: int)
    requires x <= x'
    ensures y >= 0 ==> x * y <= x' * y
    ensures y <= 0 ==> x * y >= x' * y
  {
  }

  /** Along one axis a product stays between its values at the ends. */
  lemma ProductBetween(lo: int, x: int, hi: int, y: int)
    requires lo <= x <= hi
    ensures Min(lo * y, hi * y) <= x * y <= Max(lo * y, hi * y)
  {
    ProductMonotone(lo, x, y);
    ProductMonotone(x, hi, y);
  }

  lemma ProductInCorners(a: Interval, b: Interval, x: int, y: int)
    requires a.Known? && b.Known? && Allows(a, x) && Allows(b, y)
    ensures Min(Min(a.lo * b.lo, a.lo * b.hi), Min(a.hi * b.lo, a.hi * b.hi)) <= x * y
    ensures x * y <= Max(Max(a.lo * b.lo, a.lo * b.hi), Max(a.hi * b.lo, a.hi * b.hi))
  {
    ProductBetween(a.lo, x, a.hi, y);
    ProductBetween(b.lo, y, b.hi, a.lo);
    ProductBetween(b.lo, y, b.hi, a.hi);
  }

  /** Multiplication is exact: the four corners give the tightest interval, and it is
      unknown precisely when some product overflows. */
  lemma MulIVExact(a: Interval, b: Interval)
    requires a.Known? && b.Known? && NonEmpty(a) && NonEmpty(b)
    ensures if Escapes(a, b, Times) then MulIV(a, b) == Top else IsHull(MulIV(a, b), a, b, Times)
  {
    var c := Corners(a, b);
    forall k | 0 <= k < 4
      ensures Allows(a, c[k].0) && Allows(b, c[k].1) && Times(c[k].0, c[k].1) == c[k].0 * c[k].1
    {
    }
    assert Times(c[0].0, c[0].1) == a.lo * b.lo && Times(c[1].0, c[1].1) == a.lo * b.hi
        && Times(c[2].0, c[2].1) == a.hi * b.lo && Times(c[3].0, c[3].1) == a.hi * b.hi;
    forall x, y | Allows(a, x) && Allows(b, y)
      ensures MulIV(a, b).Known? ==> MulIV(a, b).lo <= Times(x, y) <= MulIV(a, b).hi
    {
      ProductInCorners(a, b, x, y);
    }
  }

  /** The `%` rule is sound against Python's floor modulus. */
  lemma ModIVSound(a: Interval, b: Interval, x: int, y: int)
    requires Allows(a, x) && Allows(b, y) && ModIV(a, b).Known?
    ensures y > 0 && Allows(ModIV(a, b), x % y)
  {
  }

  function Remainder(x: int, y: int): int {
    if y > 0 then x % y else 0
  }

  /** It answers exactly for a dividend known non-negative and a divisor known positive, and then with the
      smallest interval that holds the remainders of all non-negative dividends. */
  lemma ModIVExact(a: Interval, b: Interval)
    requires NonEmpty(a) && NonEmpty(b)
    ensures ModIV(a, b).Known? <==> a.Known? && a.lo >= 0 && b.Known? && b.lo > 0
    ensures ModIV(a, b).Known? ==> IsHull(ModIV(a, b), Known(0, MAX), b, Remainder)
  {
    if ModIV(a, b).Known? {
      var all := Known(0, MAX);
      RemainderBound(0, b.hi);
      RemainderBound(b.hi - 1, b.hi);
      hide Remainder;
      assert Allows(all, 0) && Allows(b, b.hi) && Remainder(0, b.hi) == 0;
      assert Allows(all, b.hi - 1) && Remainder(b.hi - 1, b.hi) == b.hi - 1;
      forall x, y | Allows(all, x) && Allows(b, y) ensures 0 <= Remainder(x, y) <= b.hi - 1 {
        RemainderBound(x, y);
      }
    }
  }

  lemma RemainderBound(x: int, y: int)
    requires y > 0
    ensures 0 <= Remainder(x, y) < y
    ensures 0 <= x < y ==> Remainder(x, y) == x
  {
  }

  function Least(x: int, y: int): int { if y < x then y else x }

  function Greatest(x: int, y: int): int { if y < x then x else y }

  /** Minimum and maximum are exact: the tightest intervals, known if both are. */
  lemma MinMaxIVExact(a: Interval, b: Interval)
    requires NonEmpty(a) && NonEmpty(b)
    ensures MinIV(a, b).Known? <==> a.Known? && b.Known?
    ensures MaxIV(a, b).Known? <==> a.Known? && b.Known?
    ensures a.Known? && b.Known? ==> IsHull(MinIV(a, b), a, b, Least) && IsHull(MaxIV(a, b), a, b, Greatest)
  {
    if a.Known? && b.Known? {
      assert Allows(a, a.lo) && Allows(b, b.lo) && Allows(a, a.hi) && Allows(b, b.hi);
      assert Least(a.lo, b.lo) == MinIV(a, b).lo && Least(a.hi, b.hi) == MinIV(a, b).hi;
      assert Greatest(a.lo, b.lo) == MaxIV(a, b).lo && Greatest(a.hi, b.hi) == MaxIV(a, b).hi;
    }
  }

  /** r is the smallest interval holding what f makes of v's values. */
  ghost predicate IsImage(r: Interval, v: Interval, f: int -> int) {
    r.Known?
    && (forall x :: Allows(v, x) ==> r.lo <= f(x) <= r.hi)
    && (exists x :: Allows(v, x) && f(x) == r.lo)
    && (exists x :: Allows(v, x) && f(x) == r.hi)
  }

  function Opposite(x: int): int { -x }

  function Magnitude(x: int): int { if x > 0 then x else -x }

  /** Negation is refused for an interval ending at MIN, and is the tightest interval exactly for one that
      does not touch MIN. */
  lemma NegIVExact(v: Interval)
    requires v.Known? && NonEmpty(v)
    ensures NegIV(v).Known? <==> v.hi != MIN
    ensures IsImage(NegIV(v), v, Opposite) <==> v.lo != MIN
    ensures (forall x :: Allows(v, x) ==> Allows(NegIV(v), -x)) <==> v.lo != MIN || v.hi == MIN
  {
    assert Opposite(v.hi) == -v.hi && Opposite(v.lo) == -v.lo && Allows(v, v.lo) && Allows(v, v.hi);
    if v.lo == MIN && v.hi != MIN {
      assert !Allows(NegIV(v), -v.hi);
    }
  }

  /** `abs` is refused for an interval starting at MIN, and is the tightest interval exactly for any other
      one that does not straddle zero. */
  lemma AbsIVExact(v: Interval)
    requires v.Known? && NonEmpty(v)
    ensures AbsIV(v).Known? <==> v.lo != MIN
    ensures IsImage(AbsIV(v), v, Magnitude) <==> v.lo != MIN && (v.lo >= 0 || v.hi <= 0)
    ensures (forall x :: Allows(v, x) ==> Allows(AbsIV(v), Magnitude(x))) <==> v.lo >= 0 || v.hi <= 0 || v.lo == MIN
  {
    assert Magnitude(v.hi) == (if v.hi > 0 then v.hi else -v.hi) && Magnitude(v.lo) == (if v.lo > 0 then v.lo else -v.lo);
    assert Allows(v, v.lo) && Allows(v, v.hi);
    if v.lo < 0 < v.hi && v.lo != MIN {
      assert Allows(v, 0) && Magnitude(0) == 0 && !Allows(AbsIV(v), Magnitude(0));
    }
  }

  lemma AbsIVSound(v: Interval, x: int)
    requires v.Known? && AbsIV(v).Known? && Allows(v, x) && (v.lo >= 0 || v.hi <= 0)
    ensures Allows(AbsIV(v), if x < 0 then -x else x)
  {
    AbsIVExact(v);
    assert Allows(AbsIV(v), Magnitude(x));
  }
}
