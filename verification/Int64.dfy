/** Go's int64: every operation wraps, and division truncates toward zero.
    The interval analysis relies on two overflow tests written in that arithmetic. */
module Int64 {
  const MIN: int := -0x8000_0000_0000_0000
  const MAX: int := 0x7FFF_FFFF_FFFF_FFFF
  const MODULUS: int := 0x1_0000_0000_0000_0000

  predicate Fits(n: int) {
    MIN <= n <= MAX
  }

  /** The int64 congruent to n modulo 2^64. */
  function Wrap(n: int): int {
    (n - MIN) % MODULUS + MIN
  }

  lemma WrapIsCongruent(n: int) returns (k: int)
    ensures Wrap(n) == n - k * MODULUS
    ensures Fits(Wrap(n))
    ensures k == 0 <==> Fits(n)
  {
    k := (n - MIN) / MODULUS;
  }

  /** Quotient truncated toward zero, on unbounded integers. */
  function TruncDiv(a: int, b: int): int
    requires b != 0
  {
    if a >= 0 then (if b > 0 then a / b else -(a / -b))
    else if b > 0 then -(-a / b) else -a / -b
  }

  /** Go's `/` on int64; MIN / -1 wraps back to MIN. */
  function Quo(a: int, b: int): int
    requires b != 0
  {
    Wrap(TruncDiv(a, b))
  }

  datatype Checked = Overflow | Value(v: int)

  function AddOvf(x: int, y: int): Checked
    requires Fits(x) && Fits(y)
  {
    var s := Wrap(x + y);
    if (y > 0 && s < x) || (y < 0 && s > x) then Overflow else Value(s)
  }

  function MulOvf(x: int, y: int): Checked
    requires Fits(x) && Fits(y)
  {
    if x == 0 || y == 0 then Value(0)
    else if (x == -1 && y == MIN) || (y == -1 && x == MIN) then Overflow
    else
      var p := Wrap(x * y);
      if Quo(p, y) != x then Overflow else Value(p)
  }

  /** The sign tests on the wrapped sum detect exactly the overflowing additions. */
  lemma AddOvfExact(x: int, y: int)
    requires Fits(x) && Fits(y)
    ensures AddOvf(x, y) == if Fits(x + y) then Value(x + y) else Overflow
  {
  }

  lemma TruncDivRemainder(a: int, b: int) returns (r: int)
    requires b != 0
    ensures a == TruncDiv(a, b) * b + r
    ensures if b > 0 then -b < r < b else b < r < -b
  {
    var m := if a >= 0 then a else -a;
    var d := if b > 0 then b else -b;
    r := if a >= 0 then m % d else -(m % d);
    assert m == (m / d) * d + m % d;
  }

  /** The remainder that goes with it has a's sign. */
  lemma RemainderHasSign(a: int, b: int)
    requires b != 0
    ensures a >= 0 ==> a - TruncDiv(a, b) * b >= 0
    ensures a <= 0 ==> a - TruncDiv(a, b) * b <= 0
  {
    var m := if a >= 0 then a else -a;
    var d := if b > 0 then b else -b;
    var q := m / d;
    assert m - q * d == m % d;
    assert TruncDiv(a, b) == if (a >= 0) == (b > 0) then q else -q;
    assert TruncDiv(a, b) * b == if a >= 0 then q * d else -(q * d);
  }

  /** The `p / y != x` test misses no overflow and rejects no product that fits. */
  lemma MulOvfExact(x: int, y: int)
    requires Fits(x) && Fits(y)
    ensures MulOvf(x, y) == if Fits(x * y) then Value(x * y) else Overflow
  {
    if x != 0 && y != 0 && !(x == -1 && y == MIN) && !(y == -1 && x == MIN) {
      var k := WrapIsCongruent(x * y);
      if Fits(x * y) {
        ExactQuotient(x, y);
        var _ := WrapIsCongruent(x);
      } else {
        MulOverflowIsSeen(x, y);
      }
    }
  }

  lemma ExactQuotient(x: int, y: int)
    requires y != 0
    ensures TruncDiv(x * y, y) == x
  {
    var r := TruncDivRemainder(x * y, y);
    var q := TruncDiv(x * y, y);
    assert (x - q) * y == r;
    if x != q {
      MultipleIsFar(x - q, y);
    }
  }

  /** A multiple of b other than zero is at least as far from zero as b. */
  lemma MultipleIsFar(d: int, b: int)
    requires d != 0
    ensures b > 0 ==> d * b >= b || d * b <= -b
    ensures b < 0 ==> d * b <= b || d * b >= -b
  {
    var d1, b1 := if d > 0 then d else -d, if b > 0 then b else -b;
    assert d * b == d1 * b1 || d * b == -(d1 * b1);
    ProductGrows(d1, b1);
  }

  lemma {:induction false} ProductGrows(d: nat, b: nat)
    requires d > 0
    ensures d * b >= b
  {
    if d > 1 {
      ProductGrows(d - 1, b);
      assert d * b == (d - 1) * b + b;
    }
  }

  lemma MulOverflowIsSeen(x: int, y: int)
    requires Fits(x) && Fits(y) && y != 0 && !Fits(x * y) && !(y == -1 && x == MIN)
    ensures Quo(Wrap(x * y), y) != x
  {
    var p := Wrap(x * y);
    var k := WrapIsCongruent(x * y);
    var r := TruncDivRemainder(p, y);
    QuoIsTruncDiv(p, y);
    assert TruncDiv(p, y) == x ==> r == -k * MODULUS;
  }

  lemma QuoIsTruncDiv(a: int, b: int)
    requires Fits(a) && Fits(b) && b != 0
    ensures Quo(a, b) == if a == MIN && b == -1 then MIN else TruncDiv(a, b)
  {
    var k := WrapIsCongruent(TruncDiv(a, b));
    if !(a == MIN && b == -1) {
      TruncDivFits(a, b);
    }
  }

  lemma TruncDivFits(a: int, b: int)
    requires Fits(a) && b != 0 && !(a == MIN && b == -1)
    ensures Fits(TruncDiv(a, b))
  {
    var m := if a >= 0 then a else -a;
    var d := if b > 0 then b else -b;
    QuotientShrinks(m / d, m % d, d);
  }

  lemma QuotientShrinks(q: int, r: int, d: int)
    requires 0 <= r < d && q * d + r >= 0
    ensures 0 <= q <= q * d + r
    ensures d >= 2 ==> 2 * q <= q * d + r
  {
  }
}
