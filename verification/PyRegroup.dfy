/** An augmented assignment `x op= rhs` read as the text `x op rhs`: the tree of that text, and when it
    has the value that is stored. */
module PyRegroup {
  import opened Options
  import opened PyText
  import opened PyEval

  /** The parse tree of x, op and rhs written one after the other: an operator of rhs that binds no tighter
      than op takes what op makes of its left operand. */
  function Graft(x: string, op: BinOp, rhs: Expr): Expr {
    if rhs.Bin? && OpLevel(rhs.op) <= OpLevel(op) then Bin(rhs.op, Graft(x, op, rhs.l), rhs.r)
    else Bin(op, Name(x), rhs)
  }

  /** What is stored. */
  function Stored(x: string, op: BinOp, rhs: Expr): Expr { Bin(op, Name(x), rhs) }

  lemma {:induction false} GraftIsATree(x: string, op: BinOp, rhs: Expr)
    requires WellFormed(rhs)
    ensures WellFormed(Graft(x, op, rhs))
    ensures Level(Graft(x, op, rhs)) == if Level(rhs) <= OpLevel(op) then Level(rhs) else OpLevel(op)
    decreases rhs
  {
    if rhs.Bin? && OpLevel(rhs.op) <= OpLevel(op) {
      GraftIsATree(x, op, rhs.l);
    }
  }

  lemma {:induction false} GraftText(x: string, op: BinOp, rhs: Expr)
    ensures Text(Graft(x, op, rhs)) == [Id(x)] + Symbol(op) + Text(rhs)
    decreases rhs
  {
    if rhs.Bin? && OpLevel(rhs.op) <= OpLevel(op) {
      GraftText(x, op, rhs.l);
      Regrouped([Id(x)], Symbol(op), Text(rhs.l), Symbol(rhs.op), Text(rhs.r));
    }
  }

  lemma Regrouped(s: seq<Token>, t: seq<Token>, u: seq<Token>, v: seq<Token>, w: seq<Token>)
    ensures s + t + (u + v + w) == s + t + u + v + w
  {
  }

  // ---------------------------------------------------------------- when the value is the stored one

  /** A product of factors, with no other operator outside brackets. */
  predicate OnlyFactors(e: Expr) {
    Level(e) > 0 && (Level(e) == 1 ==> e.op.Mul? && OnlyFactors(e.l))
  }

  /** op applied to rhs as a whole is op applied to its beginning: rhs binds tighter, or x is added, or x
      is multiplied by factors. */
  predicate Harmless(op: BinOp, rhs: Expr) {
    Level(rhs) > OpLevel(op) || op.Add? || (op.Mul? && OnlyFactors(rhs))
  }

  lemma {:induction false} HarmlessKeepsValue(x: string, op: BinOp, rhs: Expr, st: Store)
    requires WellFormed(rhs) && Harmless(op, rhs)
    ensures Eval(Graft(x, op, rhs), st) == Eval(Stored(x, op, rhs), st)
    decreases rhs
  {
    if rhs.Bin? && OpLevel(rhs.op) <= OpLevel(op) {
      HarmlessKeepsValue(x, op, rhs.l, st);
      var v, a, b := Eval(Name(x), st), Eval(rhs.l, st), Eval(rhs.r, st);
      if v.Some? && a.Some? && b.Some? && v.value.Int? && a.value.Int? && b.value.Int? {
        ProductsAssociate(v.value.n, a.value.n, b.value.n);
      }
    }
  }

  lemma ProductsAssociate(a: int, b: int, c: int)
    ensures a * b * c == a * (b * c)
  {
  }

  /** For a right-hand side of two names the condition is exact, operator by operator. */
  lemma TwoNamesExactly(x: string, op: BinOp, a: string, inner: BinOp, b: string)
    requires x != a && x != b && a != b
    requires !op.Div? && !op.FloorDiv? && !inner.Div? && !inner.FloorDiv?
    ensures var rhs := Bin(inner, Name(a), Name(b));
            (forall st: Store :: Eval(Graft(x, op, rhs), st) == Eval(Stored(x, op, rhs), st)) <==> Harmless(op, rhs)
  {
    var rhs := Bin(inner, Name(a), Name(b));
    if Harmless(op, rhs) {
      forall st: Store ensures Eval(Graft(x, op, rhs), st) == Eval(Stored(x, op, rhs), st) {
        HarmlessKeepsValue(x, op, rhs, st);
      }
    } else {
      var st := Telling(x, op, a, inner, b);
      assert Eval(Graft(x, op, rhs), st) != Eval(Stored(x, op, rhs), st);
    }
  }

  /** A store in which the two groupings differ. */
  lemma Telling(x: string, op: BinOp, a: string, inner: BinOp, b: string) returns (st: Store)
    requires x != a && x != b && a != b
    requires !op.Div? && !op.FloorDiv? && !inner.Div? && !inner.FloorDiv?
    requires !Harmless(op, Bin(inner, Name(a), Name(b)))
    ensures var rhs := Bin(inner, Name(a), Name(b)); Eval(Graft(x, op, rhs), st) != Eval(Stored(x, op, rhs), st)
  {
    assert OpLevel(inner) <= OpLevel(op);
    assert Graft(x, op, Bin(inner, Name(a), Name(b))) == Bin(inner, Bin(op, Name(x), Name(a)), Name(b));
    assert op.Mul? && inner.Mul? ==> OnlyFactors(Bin(inner, Name(a), Name(b)));
    var u, v, w := TellingNumbers(op, inner);
    st := map[x := Int(u), a := Int(v), b := Int(w)];
    assert Eval(Name(x), st) == Some(Int(u)) && Eval(Name(a), st) == Some(Int(v)) && Eval(Name(b), st) == Some(Int(w));
  }

  lemma TellingNumbers(op: BinOp, inner: BinOp) returns (u: int, v: int, w: int)
    requires !op.Div? && !op.FloorDiv? && !inner.Div? && !inner.FloorDiv? && OpLevel(inner) <= OpLevel(op)
    requires !op.Add? && !(op.Mul? && inner.Mul?)
    ensures var l, r := BinValue(op, Int(u), Int(v)), BinValue(inner, Int(v), Int(w));
            l.Some? && r.Some? && BinValue(inner, l.value, Int(w)) != BinValue(op, Int(u), r.value)
  {
    if op.Sub? || (op.Mul? && !inner.Mod?) {
      u, v, w := 0, 0, 1;
    } else if op.Mul? {
      u, v, w := 2, 1, 2;
    } else if inner.Add? {
      u, v, w := 0, 1, 1;
    } else if inner.Sub? {
      u, v, w := 0, 2, 1;
    } else if inner.Mul? {
      u, v, w := 1, 2, 3;
    } else {
      u, v, w := 1, 3, 2;
    }
  }

  /** The first term of a sum. */
  function FirstTerm(e: Expr): Expr {
    if e.Bin? && OpLevel(e.op) == 0 then FirstTerm(e.l) else e
  }

  /** What `x -= sum` and `x *= sum` are checked as, whatever the sum: only the first term is subtracted or
      multiplied, and the rest of the sum is added. */
  lemma {:induction false} SumIsRegrouped(x: string, op: BinOp, rhs: Expr, st: Store, v: int, first: int, sum: int)
    requires WellFormed(rhs) && (op.Sub? || op.Mul?) && Harmless(op, FirstTerm(rhs))
    requires x in st && st[x] == Int(v) && Eval(FirstTerm(rhs), st) == Some(Int(first)) && Eval(rhs, st) == Some(Int(sum))
    ensures Eval(Graft(x, op, rhs), st) == Some(Int((if op.Sub? then v - first else v * first) + (sum - first)))
    decreases rhs
  {
    if rhs.Bin? && OpLevel(rhs.op) == 0 {
      SumIsRegrouped(x, op, rhs.l, st, v, first, Eval(rhs.l, st).value.n);
    } else {
      HarmlessKeepsValue(x, op, rhs, st);
    }
  }

  /** So it is what is stored if and only if the rest of the sum is zero, or a product with one. */
  lemma SumIsRegroupedExactly(x: string, op: BinOp, rhs: Expr, st: Store, v: int, first: int, sum: int)
    requires WellFormed(rhs) && (op.Sub? || op.Mul?) && Harmless(op, FirstTerm(rhs))
    requires x in st && st[x] == Int(v) && Eval(FirstTerm(rhs), st) == Some(Int(first)) && Eval(rhs, st) == Some(Int(sum))
    ensures Eval(Graft(x, op, rhs), st) == Eval(Stored(x, op, rhs), st) <==> sum == first || (op.Mul? && v == 1)
  {
    SumIsRegrouped(x, op, rhs, st, v, first, sum);
    if op.Mul? {
      RestTimes(v, first, sum);
    }
  }

  lemma RestTimes(v: int, first: int, sum: int)
    ensures v * first + (sum - first) == v * sum <==> sum == first || v == 1
  {
    var rest := sum - first;
    assert v * sum == v * first + v * rest;
    assert v * rest - rest == (v - 1) * rest;
    NoZeroProduct(v - 1, rest);
  }

  lemma NoZeroProduct(a: int, b: int)
    ensures a * b == 0 <==> a == 0 || b == 0
  {
  }
}
