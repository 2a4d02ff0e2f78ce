/** Typing of C arithmetic and the casts that keep 64-bit arithmetic apart from plain numbers: in
    JavaScript an operator over a BigInt and a Number throws. */
module CWidth {
  import opened Int64
  import opened Options

  /** The type kinds the frontend tracks; Untyped for chars, pointers and anything unknown. */
  datatype Kind = Untyped | Int32 | UInt32 | Int64K | UInt64K

  datatype Expr =
    | Num(n: nat)
    | Var(x: string)
    | Member(x: string)
    | Cast(to: Kind, e: Expr)
    | Sizeof(of: Kind)
    | Bin(op: string, l: Expr, r: Expr)
    | Not(e: Expr)

  /** The arithmetic tree handed on. */
  datatype Node =
    | NNum(n: int)
    | NVar(x: string)
    | NBin(op: string, l: Node, r: Node)
    | NUn(a: Node)
    | NCast(ty: Kind, a: Node)
    | NSizeof(ty: Kind)

  type Types = map<string, Kind>

  predicate Is64(k: Kind) { k.Int64K? || k.UInt64K? }

  // ---------------------------------------------------------------- the source's functions

  function ExprType(e: Expr, types: Types): Kind {
    match e
    case Num(n) => if Fits(n) && n > 0x7FFF_FFFF then Int64K else Int32
    case Var(x) => if x in types then types[x] else Untyped
    case Member(_) => Untyped
    case Cast(to, _) => to
    case Sizeof(_) => Int64K
    case Bin(_, l, r) => Converted(ExprType(l, types), ExprType(r, types))
    case Not(a) => Converted(ExprType(a, types), Untyped)
  }

  /** The usual arithmetic conversions. */
  function Converted(l: Kind, r: Kind): Kind {
    if Is64(l) || Is64(r) then
      if l.UInt64K? || r.UInt64K? then UInt64K
      else if Is64(l) then l
      else r
    else if l.UInt32? || r.UInt32? then UInt32
    else Int32
  }

  function Ensure64(ty: Kind, n: Node): Node {
    match n
    case NBin(op, l, r) => NCast(ty, NBin(op, Ensure64(ty, l), Ensure64(ty, r)))
    case NUn(a) => NCast(ty, NUn(Ensure64(ty, a)))
    case NCast(_, _) => n
    case _ => NCast(ty, n)
  }

  function ArithNode(e: Expr, types: Types): Node
    decreases e, 1
  {
    var n := ArithNodeInner(e, types);
    var t := ExprType(e, types);
    if Is64(t) then Ensure64(t, n) else n
  }

  function ArithNodeInner(e: Expr, types: Types): Node
    decreases e, 0
  {
    match e
    case Num(n) => NNum(if Fits(n) then n else MAX)
    case Var(x) => NVar(x)
    case Member(x) => NVar(x)
    case Cast(to, a) => if to.Untyped? then ArithNode(a, types) else NCast(to, ArithNode(a, types))
    case Sizeof(of) => NSizeof(of)
    case Bin(op, l, r) => NBin(op, ArithNode(l, types), ArithNode(r, types))
    case Not(a) => NUn(ArithNode(a, types))
  }

  // ---------------------------------------------------------------- what the tree computes with

  datatype Repr = Big | Plain

  /** What a tree's value is at run time, or None if an operator in it meets one of each. */
  function ReprOf(n: Node): Option<Repr> {
    match n
    case NNum(_) | NVar(_) | NSizeof(_) => Some(Plain)
    case NBin(_, l, r) => if ReprOf(l) == ReprOf(r) then ReprOf(l) else None
    case NUn(a) => ReprOf(a)
    case NCast(ty, a) => if ReprOf(a).None? then None else Some(if Is64(ty) then Big else Plain)
  }

  /** The tree without its casts. */
  function Strip(n: Node): Node {
    match n
    case NBin(op, l, r) => NBin(op, Strip(l), Strip(r))
    case NUn(a) => NUn(Strip(a))
    case NCast(_, a) => Strip(a)
    case _ => n
  }

  /** The expression written as a tree, no casts. */
  function Plainly(e: Expr): Node {
    match e
    case Num(n) => NNum(if Fits(n) then n else MAX)
    case Var(x) => NVar(x)
    case Member(x) => NVar(x)
    case Cast(_, a) => Plainly(a)
    case Sizeof(of) => NSizeof(of)
    case Bin(op, l, r) => NBin(op, Plainly(l), Plainly(r))
    case Not(a) => NUn(Plainly(a))
  }

  /** Casts are all the lowering adds: no operand is dropped, added or moved. */
  lemma {:induction false} OnlyCastsAreAdded(e: Expr, types: Types)
    ensures Strip(ArithNode(e, types)) == Plainly(e)
    decreases e
  {
    match e {
      case Bin(_, l, r) => OnlyCastsAreAdded(l, types); OnlyCastsAreAdded(r, types);
      case Not(a) => OnlyCastsAreAdded(a, types);
      case Cast(_, a) => OnlyCastsAreAdded(a, types);
      case _ =>
    }
    EnsureOnlyCasts(ExprType(e, types), ArithNodeInner(e, types));
  }

  lemma {:induction false} EnsureOnlyCasts(ty: Kind, n: Node)
    ensures Strip(Ensure64(ty, n)) == Strip(n)
    decreases n
  {
    match n
    case NBin(_, l, r) => EnsureOnlyCasts(ty, l); EnsureOnlyCasts(ty, r);
    case NUn(a) => EnsureOnlyCasts(ty, a);
    case _ =>
  }

  // ---------------------------------------------------------------- the type of an expression

  function Rank(k: Kind): nat {
    match k
    case Untyped => 0
    case Int32 => 1
    case UInt32 => 2
    case Int64K => 3
    case UInt64K => 4
  }

  /** The types of the operands that decide: a literal's by its value, a variable's by its declaration,
      size_t for a sizeof, a cast's target. */
  function Leaves(e: Expr, types: Types): set<Kind> {
    match e
    case Bin(_, l, r) => Leaves(l, types) + Leaves(r, types)
    case Not(a) => Leaves(a, types)
    case Num(n) => if 0x8000_0000 <= n <= 0x7FFF_FFFF_FFFF_FFFF then {Int64K} else {Int32}
    case Var(x) => if x in types then {types[x]} else {Untyped}
    case Member(_) => {Untyped}
    case Cast(to, _) => {to}
    case Sizeof(_) => {Int64K}
  }

  /** The conversions pick the highest-ranking leaf, and int at least: an operator is 64-bit exactly
      when one of its leaves is, and unsigned 64-bit exactly when one of them is that. */
  lemma {:induction false} TypeIsHighestLeaf(e: Expr, types: Types)
    requires e.Bin? || e.Not?
    ensures var t := ExprType(e, types);
            && (forall k :: k in Leaves(e, types) ==> Rank(k) <= Rank(t))
            && (t in Leaves(e, types) || t == Int32)
    decreases e
  {
    match e
    case Bin(_, l, r) =>
      if l.Bin? || l.Not? { TypeIsHighestLeaf(l, types); }
      if r.Bin? || r.Not? { TypeIsHighestLeaf(r, types); }
    case Not(a) =>
      if a.Bin? || a.Not? { TypeIsHighestLeaf(a, types); }
  }

  /** The 64-bit type that the leaves call for: unsigned if one of them is; Untyped if none has 64 bits. */
  function WideKind(e: Expr, types: Types): Kind {
    if UInt64K in Leaves(e, types) then UInt64K
    else if Int64K in Leaves(e, types) then Int64K
    else Untyped
  }

  lemma {:induction false} TypeByLeaves(e: Expr, types: Types)
    ensures WideKind(e, types) == if Wide(e, types) then ExprType(e, types) else Untyped
    decreases e
  {
    match e
    case Bin(_, l, r) => TypeByLeaves(l, types); TypeByLeaves(r, types);
    case Not(a) => TypeByLeaves(a, types);
    case _ =>
  }

  /** The tree written from the top: every operator and leaf is cast to the 64-bit type its own leaves call
      for, or else to the one of the nearest operator around it that has one (outer), or not at all. An
      explicit cast keeps its type and starts afresh; one without a width is not seen. */
  function TreeOf(e: Expr, types: Types, outer: Kind): Node {
    var k := if WideKind(e, types).Untyped? then outer else WideKind(e, types);
    match e
    case Cast(to, a) => if to.Untyped? then TreeOf(a, types, outer) else NCast(to, TreeOf(a, types, Untyped))
    case Bin(op, l, r) => CastTo(k, NBin(op, TreeOf(l, types, k), TreeOf(r, types, k)))
    case Not(a) => CastTo(k, NUn(TreeOf(a, types, k)))
    case Num(n) => CastTo(k, NNum(if n <= 0x7FFF_FFFF_FFFF_FFFF then n else 0x7FFF_FFFF_FFFF_FFFF))
    case Var(x) => CastTo(k, NVar(x))
    case Member(x) => CastTo(k, NVar(x))
    case Sizeof(of) => CastTo(k, NSizeof(of))
  }

  function CastTo(k: Kind, n: Node): Node {
    if k.Untyped? then n else NCast(k, n)
  }

  /** The lowering, which builds operands first and casts afterwards, builds that tree. */
  lemma CastsByLeaves(e: Expr, types: Types)
    ensures ArithNode(e, types) == TreeOf(e, types, Untyped)
  {
    WrappedByLeaves(Int64K, e, types);
  }

  lemma {:induction false} WrappedByLeaves(ty: Kind, e: Expr, types: Types)
    requires Is64(ty)
    ensures ArithNode(e, types) == TreeOf(e, types, Untyped)
    ensures Ensure64(ty, ArithNode(e, types)) == TreeOf(e, types, ty)
    decreases e
  {
    var k := if Wide(e, types) then ExprType(e, types) else ty;
    match e
    case Bin(_, l, r) =>
      WrappedByLeaves(k, l, types);
      WrappedByLeaves(k, r, types);
      BinByLeaves(ty, e, types);
    case Not(a) =>
      WrappedByLeaves(k, a, types);
      TypeByLeaves(e, types);
      hide Leaves, WideKind, ExprType;
    case Cast(_, a) => WrappedByLeaves(k, a, types);
    case _ =>
  }

  lemma BinByLeaves(ty: Kind, e: Expr, types: Types)
    requires Is64(ty) && e.Bin?
    requires var k := if Wide(e, types) then ExprType(e, types) else ty;
             && Ensure64(k, ArithNode(e.l, types)) == TreeOf(e.l, types, k)
             && Ensure64(k, ArithNode(e.r, types)) == TreeOf(e.r, types, k)
    requires ArithNode(e.l, types) == TreeOf(e.l, types, Untyped) && ArithNode(e.r, types) == TreeOf(e.r, types, Untyped)
    ensures ArithNode(e, types) == TreeOf(e, types, Untyped)
    ensures Ensure64(ty, ArithNode(e, types)) == TreeOf(e, types, ty)
  {
    TypeByLeaves(e, types);
    hide Leaves, WideKind, ExprType;
  }

  // ---------------------------------------------------------------- when nothing mixes

  predicate Wide(e: Expr, types: Types) { Is64(ExprType(e, types)) }

  /** A cast to 32 bits, possibly under casts without a width, which leave the tree as it is. */
  predicate Narrow(e: Expr) {
    e.Cast? && if e.to.Untyped? then Narrow(e.e) else !Is64(e.to)
  }

  /** The expression's tree is a BigInt: its type has 64 bits, or it is a widthless cast of, or an operator
      over, nothing but BigInts. */
  predicate IsBig(e: Expr, types: Types) {
    Wide(e, types)
    || match e
       case Cast(to, a) => to.Untyped? && IsBig(a, types)
       case Bin(_, l, r) => IsBig(l, types) && IsBig(r, types)
       case Not(a) => IsBig(a, types)
       case _ => false
  }

  /** No operator meets both kinds of number. Under a 64-bit operator (wrapped) every number is made a
      BigInt but a 32-bit cast, so such a cast may only stand beside another one; elsewhere the operands
      must be of one kind by themselves. */
  predicate Unmixed(e: Expr, types: Types, wrapped: bool) {
    match e
    case Bin(_, l, r) =>
      if Wide(e, types) then
        !Narrow(l) && !Narrow(r) && Unmixed(l, types, true) && Unmixed(r, types, true)
      else
        && Unmixed(l, types, wrapped) && Unmixed(r, types, wrapped)
        && if wrapped then Narrow(l) <==> Narrow(r) else IsBig(l, types) <==> IsBig(r, types)
    case Not(a) => Unmixed(a, types, wrapped && !Wide(e, types))
    case Cast(to, a) => Unmixed(a, types, wrapped && to.Untyped?)
    case _ => true
  }

  lemma WideIsCast(e: Expr, types: Types)
    requires Wide(e, types)
    ensures ArithNode(e, types).NCast?
  {
  }

  /** Casts without a width are not seen in the tree. */
  lemma WidthlessIsTransparent(a: Expr, types: Types)
    ensures ArithNode(Cast(Untyped, a), types) == ArithNode(a, types)
  {
  }

  lemma {:induction false} NarrowIsCast(e: Expr, types: Types)
    requires Narrow(e)
    ensures ArithNode(e, types).NCast? && !Wide(e, types) && !IsBig(e, types)
    decreases e
  {
    if e.to.Untyped? {
      NarrowIsCast(e.e, types);
      WidthlessIsTransparent(e.e, types);
    }
  }

  /** The exact condition: no operator of the lowered tree meets both a BigInt and a plain number if and
      only if the expression is unmixed, whatever its casts. */
  lemma {:induction false} MixExactly(e: Expr, types: Types)
    ensures ReprOf(ArithNode(e, types))
            == if !Unmixed(e, types, false) then None else Some(if IsBig(e, types) then Big else Plain)
    decreases e, 0
  {
    var t := ExprType(e, types);
    match e
    case Bin(op, l, r) =>
      if Wide(e, types) {
        WrappedMixExactly(t, l, types);
        WrappedMixExactly(t, r, types);
        WideBin(e, Ensure64(t, ArithNode(l, types)), Ensure64(t, ArithNode(r, types)), types);
        assert ArithNode(e, types) == NCast(t, NBin(op, Ensure64(t, ArithNode(l, types)), Ensure64(t, ArithNode(r, types))));
      } else {
        MixExactly(l, types);
        MixExactly(r, types);
        assert ArithNode(e, types) == NBin(op, ArithNode(l, types), ArithNode(r, types));
      }
    case Not(a) =>
      MixExactly(a, types);
      if Wide(e, types) {
        WideIsCast(a, types);
        assert Ensure64(t, ArithNode(a, types)) == ArithNode(a, types);
        assert ArithNode(e, types) == NCast(t, NUn(ArithNode(a, types)));
      } else {
        assert ArithNode(e, types) == NUn(ArithNode(a, types));
      }
    case Cast(to, a) =>
      MixExactly(a, types);
      if to.Untyped? {
        WidthlessIsTransparent(a, types);
      } else {
        assert ArithNode(e, types) == NCast(to, ArithNode(a, types));
      }
    case _ =>
  }

  /** At a 64-bit operator over wrapped operands. */
  lemma WideBin(e: Expr, l: Node, r: Node, types: Types)
    requires e.Bin? && Wide(e, types)
    requires ReprOf(l) == if !Unmixed(e.l, types, true) then None else Some(if Narrow(e.l) then Plain else Big)
    requires ReprOf(r) == if !Unmixed(e.r, types, true) then None else Some(if Narrow(e.r) then Plain else Big)
    ensures ReprOf(NBin(e.op, l, r)) == if Unmixed(e, types, false) then Some(Big) else None
  {
    if Narrow(e.l) && Narrow(e.r) {
      NarrowIsCast(e.l, types);
      NarrowIsCast(e.r, types);
    }
  }

  /** The same for an operand of a 64-bit operator, once wrapped: a BigInt, unless it is a 32-bit cast. */
  lemma {:induction false} WrappedMixExactly(ty: Kind, e: Expr, types: Types)
    requires Is64(ty)
    ensures ReprOf(Ensure64(ty, ArithNode(e, types)))
            == if !Unmixed(e, types, true) then None else Some(if Narrow(e) then Plain else Big)
    decreases e, 1
  {
    if Wide(e, types) {
      WideIsCast(e, types);
      MixExactly(e, types);
      assert Unmixed(e, types, true) == Unmixed(e, types, false);
    } else {
      match e
      case Bin(op, l, r) =>
        WrappedMixExactly(ty, l, types);
        WrappedMixExactly(ty, r, types);
        assert Ensure64(ty, ArithNode(e, types))
            == NCast(ty, NBin(op, Ensure64(ty, ArithNode(l, types)), Ensure64(ty, ArithNode(r, types))));
      case Not(a) =>
        WrappedMixExactly(ty, a, types);
        assert Ensure64(ty, ArithNode(e, types)) == NCast(ty, NUn(Ensure64(ty, ArithNode(a, types))));
      case Cast(to, a) =>
        if to.Untyped? {
          WidthlessIsTransparent(a, types);
          WrappedMixExactly(ty, a, types);
        } else {
          MixExactly(e, types);
        }
      case _ =>
    }
  }

  predicate CastFree(e: Expr) {
    match e
    case Cast(_, _) => false
    case Bin(_, l, r) => CastFree(l) && CastFree(r)
    case Not(a) => CastFree(a)
    case _ => true
  }

  /** A tree of 64-bit casts: the root is one, and so is each operand below. */
  predicate FullyCast(n: Node) {
    && n.NCast? && Is64(n.ty)
    && match n.a
       case NBin(_, l, r) => FullyCast(l) && FullyCast(r)
       case NUn(a) => FullyCast(a)
       case NCast(_, _) => false
       case _ => true
  }

  /** Without explicit casts, an expression of 64-bit type is lowered to 64-bit casts throughout: no
      operator in it ever meets a plain number. */
  lemma {:induction false} CastFreeIsFullyCast(e: Expr, types: Types)
    requires CastFree(e) && Wide(e, types)
    ensures FullyCast(ArithNode(e, types))
    ensures ReprOf(ArithNode(e, types)) == Some(Big)
    decreases e, 1
  {
    WrappedIsFullyCast(ExprType(e, types), e, types);
    FullyCastIsBig(ArithNode(e, types));
  }

  lemma {:induction false} WrappedIsFullyCast(ty: Kind, e: Expr, types: Types)
    requires CastFree(e) && Is64(ty)
    ensures FullyCast(Ensure64(ty, ArithNode(e, types)))
    ensures Wide(e, types) ==> FullyCast(ArithNode(e, types))
    decreases e, 0
  {
    var t := ExprType(e, types);
    var ty' := if Is64(t) then t else ty;
    match e
    case Bin(op, l, r) =>
      WrappedIsFullyCast(ty', l, types);
      WrappedIsFullyCast(ty', r, types);
      var n := NCast(ty', NBin(op, Ensure64(ty', ArithNode(l, types)), Ensure64(ty', ArithNode(r, types))));
      assert FullyCast(n);
      assert Ensure64(ty, ArithNode(e, types)) == n;
    case Not(a) =>
      WrappedIsFullyCast(ty', a, types);
      var n := NCast(ty', NUn(Ensure64(ty', ArithNode(a, types))));
      assert FullyCast(n);
      assert Ensure64(ty, ArithNode(e, types)) == n;
    case _ =>
  }

  lemma {:induction false} FullyCastIsBig(n: Node)
    requires FullyCast(n)
    ensures ReprOf(n) == Some(Big)
    decreases n
  {
    match n.a
    case NBin(_, l, r) => FullyCastIsBig(l); FullyCastIsBig(r);
    case NUn(a) => FullyCastIsBig(a);
    case _ =>
  }

  // ---------------------------------------------------------------- where numbers mix

  /** `(int)a + b` with b a long long: the cast stays a plain number beside a BigInt. */
  lemma NarrowCastMixes()
    ensures var e := Bin("+", Cast(Int32, Var("a")), Var("b"));
            ReprOf(ArithNode(e, map["b" := Int64K])) == None
  {
  }

  /** `(char)b + 1` with b a long long: a cast without width hides that its operand is a BigInt. */
  lemma WidthlessCastMixes()
    ensures var e := Bin("+", Cast(Untyped, Var("b")), Num(1));
            ReprOf(ArithNode(e, map["b" := Int64K])) == None
  {
  }

  /** A widthless cast under an operator that is not 64-bit mixes exactly when one side is a BigInt behind
      such casts and the other is not. */
  lemma WidthlessCastMixesExactly(op: string, a: Expr, r: Expr, types: Types)
    requires Unmixed(a, types, false) && Unmixed(r, types, false) && !Wide(r, types)
    ensures ReprOf(ArithNode(Bin(op, Cast(Untyped, a), r), types)).None? <==> IsBig(a, types) != IsBig(r, types)
  {
    var e := Bin(op, Cast(Untyped, a), r);
    MixExactly(e, types);
    assert !Wide(e.l, types) && !Wide(e, types);
    assert IsBig(e.l, types) == IsBig(a, types);
  }
}
