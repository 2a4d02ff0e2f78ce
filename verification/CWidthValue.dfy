/** What the lowered arithmetic computes: polynomials are right modulo 2^64 in the signedness of their leaves. */
module CWidthValue {
  import opened CWidth

  /** The value of that type congruent to n. */
  function Convert(k: Kind, n: int): int {
    match k
    case Untyped => n
    case Int32 => (n + 0x8000_0000) % 0x1_0000_0000 - 0x8000_0000
    case UInt32 => n % 0x1_0000_0000
    case Int64K => (n + 0x8000_0000_0000_0000) % 0x1_0000_0000_0000_0000 - 0x8000_0000_0000_0000
    case UInt64K => n % 0x1_0000_0000_0000_0000
  }

  /** What the operators compute on integers of any size. */
  type Meaning = (string, int, int) -> int

  ghost predicate IsRing(m: Meaning) {
    forall a, b :: m("+", a, b) == a + b && m("-", a, b) == a - b && m("*", a, b) == a * b
  }

  function Read(vals: map<string, int>, x: string): int {
    if x in vals then vals[x] else 0
  }

  function SizeOf(k: Kind): int {
    if k.Int32? || k.UInt32? then 4 else 8
  }

  function NodeValue(n: Node, vals: map<string, int>, m: Meaning): int {
    match n
    case NNum(v) => v
    case NVar(x) => Read(vals, x)
    case NBin(op, l, r) => m(op, NodeValue(l, vals, m), NodeValue(r, vals, m))
    case NUn(a) => if NodeValue(a, vals, m) == 0 then 1 else 0
    case NCast(ty, a) => Convert(ty, NodeValue(a, vals, m))
    case NSizeof(k) => SizeOf(k)
  }

  /** Sums, differences and products of literals, variables and sizes. */
  predicate Polynomial(e: Expr) {
    match e
    case Cast(_, _) | Not(_) => false
    case Bin(op, l, r) => (op == "+" || op == "-" || op == "*") && Polynomial(l) && Polynomial(r)
    case _ => true
  }

  predicate LiteralsFit(e: Expr) {
    match e
    case Num(n) => n <= 0x7FFF_FFFF_FFFF_FFFF
    case Cast(_, a) => LiteralsFit(a)
    case Bin(_, l, r) => LiteralsFit(l) && LiteralsFit(r)
    case Not(a) => LiteralsFit(a)
    case _ => true
  }

  /** The polynomial's value in the integers. */
  function Exact(e: Expr, vals: map<string, int>, m: Meaning): int {
    match e
    case Num(n) => n
    case Var(x) => Read(vals, x)
    case Member(x) => Read(vals, x)
    case Sizeof(k) => SizeOf(k)
    case Bin(op, l, r) => m(op, Exact(l, vals, m), Exact(r, vals, m))
    case Cast(_, a) => Exact(a, vals, m)
    case Not(a) => if Exact(a, vals, m) == 0 then 1 else 0
  }

  ghost predicate Congruent(a: int, b: int) {
    exists k :: a - b == k * 0x1_0000_0000_0000_0000
  }

  lemma ConvertIsCongruent(k: Kind, n: int)
    requires Is64(k)
    ensures Congruent(Convert(k, n), n)
    ensures if k.Int64K? then -0x8000_0000_0000_0000 <= Convert(k, n) < 0x8000_0000_0000_0000
            else 0 <= Convert(k, n) < 0x1_0000_0000_0000_0000
  {
    var o := if k.Int64K? then 0x8000_0000_0000_0000 else 0;
    var q := (n + o) / 0x1_0000_0000_0000_0000;
    assert Convert(k, n) - n == -q * 0x1_0000_0000_0000_0000;
  }

  /** A value of the type is kept. */
  lemma ConvertKeeps(k: Kind, n: int)
    requires Is64(k)
    requires if k.Int64K? then -0x8000_0000_0000_0000 <= n < 0x8000_0000_0000_0000 else 0 <= n < 0x1_0000_0000_0000_0000
    ensures Convert(k, n) == n
  {
  }

  lemma CongruentConvert(k: Kind, a: int, b: int)
    requires Is64(k) && Congruent(a, b)
    ensures Convert(k, a) == Convert(k, b)
  {
    var j :| a - b == j * 0x1_0000_0000_0000_0000;
    ConvertIsCongruent(k, a);
    ConvertIsCongruent(k, b);
    var p :| Convert(k, a) - a == p * 0x1_0000_0000_0000_0000;
    var q :| Convert(k, b) - b == q * 0x1_0000_0000_0000_0000;
    assert Convert(k, a) - Convert(k, b) == (p + j - q) * 0x1_0000_0000_0000_0000;
  }

  lemma RingIsCongruent(op: string, m: Meaning, a: int, b: int, a': int, b': int)
    requires IsRing(m) && (op == "+" || op == "-" || op == "*") && Congruent(a, a') && Congruent(b, b')
    ensures Congruent(m(op, a, b), m(op, a', b'))
  {
    SumsAreCongruent(a, b, a', b');
    ProductsAreCongruent(a, b, a', b');
  }

  lemma SumsAreCongruent(a: int, b: int, a': int, b': int)
    requires Congruent(a, a') && Congruent(b, b')
    ensures Congruent(a + b, a' + b') && Congruent(a - b, a' - b')
  {
    var j :| a - a' == j * 0x1_0000_0000_0000_0000;
    var k :| b - b' == k * 0x1_0000_0000_0000_0000;
    assert (a + b) - (a' + b') == (j + k) * 0x1_0000_0000_0000_0000;
    assert (a - b) - (a' - b') == (j - k) * 0x1_0000_0000_0000_0000;
  }

  lemma ProductsAreCongruent(a: int, b: int, a': int, b': int)
    requires Congruent(a, a') && Congruent(b, b')
    ensures Congruent(a * b, a' * b')
  {
    var j :| a - a' == j * 0x1_0000_0000_0000_0000;
    var k :| b - b' == k * 0x1_0000_0000_0000_0000;
    calc {
      a * b - a' * b';
      a * (b - b') + (a - a') * b';
      a * (k * 0x1_0000_0000_0000_0000) + (j * 0x1_0000_0000_0000_0000) * b';
      { Regroup(a, k, j, b', 0x1_0000_0000_0000_0000); }
      (a * k + j * b') * 0x1_0000_0000_0000_0000;
    }
  }

  lemma Regroup(a: int, k: int, j: int, b: int, w: int)
    ensures a * (k * w) + (j * w) * b == (a * k + j * b) * w
  {
    assert a * (k * w) == (a * k) * w;
    assert (j * w) * b == (j * b) * w;
  }

  /** The tree of a polynomial with a 64-bit leaf computes the integer value reduced to 64 bits: as an
      unsigned number if one of its leaves is an unsigned 64-bit one, as a signed number otherwise. */
  lemma PolynomialExactly(e: Expr, types: Types, vals: map<string, int>, m: Meaning)
    requires Polynomial(e) && LiteralsFit(e) && IsRing(m) && !WideKind(e, types).Untyped?
    ensures NodeValue(ArithNode(e, types), vals, m) == Convert(WideKind(e, types), Exact(e, vals, m))
  {
    CastsByLeaves(e, types);
    WrappedValue(e, types, Untyped, vals, m);
  }

  lemma NarrowerLeaves(e: Expr, types: Types)
    requires e.Bin?
    ensures WideKind(e, types).Untyped? ==> WideKind(e.l, types).Untyped? && WideKind(e.r, types).Untyped?
    ensures WideKind(e, types).Untyped? || Is64(WideKind(e, types))
    ensures WideKind(e.l, types).Untyped? || Is64(WideKind(e.l, types))
    ensures WideKind(e.r, types).Untyped? || Is64(WideKind(e.r, types))
  {
  }

  lemma {:induction false} WrappedValue(e: Expr, types: Types, outer: Kind, vals: map<string, int>, m: Meaning)
    requires Polynomial(e) && LiteralsFit(e) && IsRing(m)
    requires outer.Untyped? || Is64(outer)
    requires Is64(outer) || !WideKind(e, types).Untyped?
    ensures var k := if WideKind(e, types).Untyped? then outer else WideKind(e, types);
            NodeValue(TreeOf(e, types, outer), vals, m) == Convert(k, Exact(e, vals, m))
    decreases e
  {
    hide Convert, Leaves, WideKind, IsRing;
    var k := if WideKind(e, types).Untyped? then outer else WideKind(e, types);
    if e.Bin? {
      NarrowerLeaves(e, types);
      WrappedValue(e.l, types, k, vals, m);
      WrappedValue(e.r, types, k, vals, m);
      var a, b := NodeValue(TreeOf(e.l, types, k), vals, m), NodeValue(TreeOf(e.r, types, k), vals, m);
      ConvertIsCongruent(if WideKind(e.l, types).Untyped? then k else WideKind(e.l, types), Exact(e.l, vals, m));
      ConvertIsCongruent(if WideKind(e.r, types).Untyped? then k else WideKind(e.r, types), Exact(e.r, vals, m));
      RingIsCongruent(e.op, m, a, b, Exact(e.l, vals, m), Exact(e.r, vals, m));
      CongruentConvert(k, m(e.op, a, b), m(e.op, Exact(e.l, vals, m), Exact(e.r, vals, m)));
    }
  }

  /** A literal that no int64 holds is read as the largest int64: beside an unsigned operand that is its
      value exactly when it fits. */
  lemma LargeLiteralExactly(n: nat, u: int, vals: map<string, int>, m: Meaning)
    requires n < 0x1_0000_0000_0000_0000 && IsRing(m) && vals == map["u" := u]
    ensures var e := Bin("+", Var("u"), Num(n));
            NodeValue(ArithNode(e, map["u" := UInt64K]), vals, m) == Convert(UInt64K, Exact(e, vals, m))
            <==> n <= 0x7FFF_FFFF_FFFF_FFFF
  {
    var e, types := Bin("+", Var("u"), Num(n)), map["u" := UInt64K];
    assert Leaves(Var("u"), types) == {UInt64K};
    if n <= 0x7FFF_FFFF_FFFF_FFFF {
      PolynomialExactly(e, types, vals, m);
      hide Convert, Leaves;
    } else {
      ClampedSum(n, u, vals, m);
      SumsDiffer(u, n);
      hide Convert, ArithNode;
    }
  }

  lemma ClampedSum(n: nat, u: int, vals: map<string, int>, m: Meaning)
    requires n > 0x7FFF_FFFF_FFFF_FFFF && IsRing(m) && vals == map["u" := u]
    ensures NodeValue(ArithNode(Bin("+", Var("u"), Num(n)), map["u" := UInt64K]), vals, m)
            == Convert(UInt64K, u + 0x7FFF_FFFF_FFFF_FFFF)
  {
    var e, types := Bin("+", Var("u"), Num(n)), map["u" := UInt64K];
    CastsByLeaves(e, types);
    assert Leaves(Var("u"), types) == {UInt64K} && Leaves(Num(n), types) == {Int32};
    assert WideKind(e, types) == UInt64K;
    ConvertKeeps(UInt64K, 0x7FFF_FFFF_FFFF_FFFF);
    ConvertIsCongruent(UInt64K, u);
    hide Convert, Leaves;
    WideBinValue(e, types, vals, m);
    assert NodeValue(TreeOf(Num(n), types, UInt64K), vals, m) == 0x7FFF_FFFF_FFFF_FFFF;
    assert NodeValue(TreeOf(Var("u"), types, UInt64K), vals, m) == Convert(UInt64K, u);
    hide TreeOf, WideKind, ArithNode;
    assert Congruent(0x7FFF_FFFF_FFFF_FFFF, 0x7FFF_FFFF_FFFF_FFFF) by { assert 0 == 0 * 0x1_0000_0000_0000_0000; }
    SumsAreCongruent(Convert(UInt64K, u), 0x7FFF_FFFF_FFFF_FFFF, u, 0x7FFF_FFFF_FFFF_FFFF);
    CongruentConvert(UInt64K, Convert(UInt64K, u) + 0x7FFF_FFFF_FFFF_FFFF, u + 0x7FFF_FFFF_FFFF_FFFF);
  }

  lemma SumsDiffer(u: int, n: int)
    requires 0x7FFF_FFFF_FFFF_FFFF < n < 0x1_0000_0000_0000_0000
    ensures Convert(UInt64K, u + n) != Convert(UInt64K, u + 0x7FFF_FFFF_FFFF_FFFF)
  {
    ConvertIsCongruent(UInt64K, u + n);
    ConvertIsCongruent(UInt64K, u + 0x7FFF_FFFF_FFFF_FFFF);
  }

  /** `s + 0 < u` with s signed and u unsigned, both 64-bit: C converts the sum to unsigned, the tree compares
      it as it is. They agree exactly when the sum is not negative or is below u all the same. */
  lemma SignedOperandExactly(s: int, u: int, m: Meaning)
    requires -0x8000_0000_0000_0000 <= s < 0x8000_0000_0000_0000 && 0 <= u < 0x1_0000_0000_0000_0000
    requires IsRing(m) && forall a, b :: m("<", a, b) == if a < b then 1 else 0
    ensures var sum := Bin("+", Var("s"), Num(0));
            var e := Bin("<", sum, Var("u"));
            var types := map["s" := Int64K, "u" := UInt64K];
            NodeValue(ArithNode(e, types), map["s" := s, "u" := u], m) == (if Convert(UInt64K, s) < u then 1 else 0)
            <==> s >= 0 || s + 0x1_0000_0000_0000_0000 < u
  {
    LessOfTree(s, u, m);
    ConvertIsCongruent(UInt64K, s);
  }

  lemma LessOfTree(s: int, u: int, m: Meaning)
    requires -0x8000_0000_0000_0000 <= s < 0x8000_0000_0000_0000 && 0 <= u < 0x1_0000_0000_0000_0000
    requires IsRing(m) && forall a, b :: m("<", a, b) == if a < b then 1 else 0
    ensures var e := Bin("<", Bin("+", Var("s"), Num(0)), Var("u"));
            NodeValue(ArithNode(e, map["s" := Int64K, "u" := UInt64K]), map["s" := s, "u" := u], m) == if s < u then 1 else 0
  {
    var sum, types, vals := Bin("+", Var("s"), Num(0)), map["s" := Int64K, "u" := UInt64K], map["s" := s, "u" := u];
    var e := Bin("<", sum, Var("u"));
    CastsByLeaves(e, types);
    LeavesOfLess(types);
    SumInLess(s, u, types, vals, m);
    ConvertKeeps(UInt64K, 0);
    ConvertKeeps(UInt64K, 1);
    hide Leaves, WideKind, TreeOf, Convert, ArithNode;
    WideBinValue(e, types, vals, m);
  }

  lemma SumInLess(s: int, u: int, types: Types, vals: map<string, int>, m: Meaning)
    requires -0x8000_0000_0000_0000 <= s < 0x8000_0000_0000_0000 && 0 <= u < 0x1_0000_0000_0000_0000 && IsRing(m)
    requires types == map["s" := Int64K, "u" := UInt64K] && vals == map["s" := s, "u" := u]
    ensures NodeValue(TreeOf(Bin("+", Var("s"), Num(0)), types, UInt64K), vals, m) == s
    ensures NodeValue(TreeOf(Var("u"), types, UInt64K), vals, m) == u
  {
    var sum := Bin("+", Var("s"), Num(0));
    LeavesOfLess(types);
    ConvertKeeps(Int64K, s);
    ConvertKeeps(UInt64K, u);
    hide Convert, Leaves, WideKind;
    WrappedValue(sum, types, UInt64K, vals, m);
    assert Exact(sum, vals, m) == s + 0;
    assert TreeOf(Var("u"), types, UInt64K) == NCast(UInt64K, NVar("u"));
  }

  lemma LeavesOfLess(types: Types)
    requires types == map["s" := Int64K, "u" := UInt64K]
    ensures var sum := Bin("+", Var("s"), Num(0));
            WideKind(sum, types) == Int64K && WideKind(Var("u"), types) == UInt64K && WideKind(Bin("<", sum, Var("u")), types) == UInt64K
  {
    var sum := Bin("+", Var("s"), Num(0));
    assert Leaves(Var("s"), types) == {Int64K} && Leaves(Num(0), types) == {Int32};
    assert Leaves(sum, types) == {Int64K, Int32};
    assert Leaves(Var("u"), types) == {UInt64K};
  }

  lemma WideBinValue(e: Expr, types: Types, vals: map<string, int>, m: Meaning)
    requires e.Bin? && WideKind(e, types) == UInt64K
    ensures NodeValue(TreeOf(e, types, Untyped), vals, m)
            == Convert(UInt64K, m(e.op, NodeValue(TreeOf(e.l, types, UInt64K), vals, m), NodeValue(TreeOf(e.r, types, UInt64K), vals, m)))
  {
  }

  /** `x + y + t` with x and y 32-bit unsigned and t of 64 bits: C wraps the first sum at 32 bits, the tree does
      not. They agree exactly when it needs no wrapping. */
  lemma NarrowSumExactly(x: int, y: int, t: int, m: Meaning)
    requires 0 <= x < 0x1_0000_0000 && 0 <= y < 0x1_0000_0000 && IsRing(m)
    ensures var e := Bin("+", Bin("+", Var("x"), Var("y")), Var("t"));
            var types := map["x" := UInt32, "y" := UInt32, "t" := Int64K];
            NodeValue(ArithNode(e, types), map["x" := x, "y" := y, "t" := t], m) == Convert(Int64K, Convert(UInt32, x + y) + t)
            <==> x + y < 0x1_0000_0000
  {
    NarrowSum(x, y, t, m);
    var low := Convert(UInt32, x + y);
    assert low == if x + y < 0x1_0000_0000 then x + y else x + y - 0x1_0000_0000;
    ConvertIsCongruent(Int64K, low + t);
    ConvertIsCongruent(Int64K, x + y + t);
    hide Convert, ArithNode;
  }

  lemma NarrowSum(x: int, y: int, t: int, m: Meaning)
    requires IsRing(m)
    ensures var e := Bin("+", Bin("+", Var("x"), Var("y")), Var("t"));
            var types := map["x" := UInt32, "y" := UInt32, "t" := Int64K];
            NodeValue(ArithNode(e, types), map["x" := x, "y" := y, "t" := t], m) == Convert(Int64K, x + y + t)
  {
    var inner, types := Bin("+", Var("x"), Var("y")), map["x" := UInt32, "y" := UInt32, "t" := Int64K];
    var e := Bin("+", inner, Var("t"));
    assert Leaves(Var("t"), types) == {Int64K} && Leaves(inner, types) == {UInt32};
    PolynomialExactly(e, types, map["x" := x, "y" := y, "t" := t], m);
    hide Convert, ArithNode;
    assert Exact(inner, map["x" := x, "y" := y, "t" := t], m) == x + y;
  }
}
