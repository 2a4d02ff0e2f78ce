/** Parsing undoes printing: a printer that brackets only where precedence or associativity
    demands it, and the proof that the parser returns exactly the tree it printed. */
module ArithRoundTrip {
  import opened Options
  import opened ArithAst
  import opened ArithParser
  import opened ArithGrammar

  // ---------------------------------------------------------------- the printer

  /** The tokens of e where level k is expected: bracketed if e is looser than k. */
  function Print(e: Ast, k: nat): (ts: seq<Token>)
    requires IsTree(e) && k <= PRIMARY
    decreases e, 1
  {
    if Level(e) >= k then Body(e) else [Sym("(")] + Body(e) + [Sym(")")]
  }

  function Body(e: Ast): (ts: seq<Token>)
    requires IsTree(e)
    decreases e, 0
  {
    match e
    case Number(n) => [Num(n)]
    case Var(x) => [Id(x)]
    case Index(x, key) => [Id(x), Sym("[")] + Print(key, TERNARY) + [Sym("]")]
    case Bin(op, l, r) =>
      if op == "**" then Print(l, UNARY) + [Sym(op)] + Print(r, POWER)
      else Print(l, LevelOfOp(op)) + [Sym(op)] + Print(r, LevelOfOp(op) + 1)
    case Un(op, a) => [Sym(op)] + Print(a, UNARY)
    case Cond(t, a, b) => Print(t, 1) + [Sym("?")] + Print(a, TERNARY) + [Sym(":")] + Print(b, TERNARY)
    case IncDec(x, d, prefix) =>
      var op := Sym(if d == 1 then "++" else "--");
      if prefix then [op, Id(x)] else [Id(x), op]
  }

  function PrintTop(e: Ast): seq<Token>
    requires IsTop(e)
  {
    if e.Assign? then [Id(e.x), Sym(e.op)] + PrintTop(e.rhs) else Print(e, TERNARY)
  }

  // ---------------------------------------------------------------- printed texts are texts of the grammar

  lemma {:induction false} LooserDerives(k: nat, j: nat, ts: seq<Token>, e: Ast)
    requires k <= j <= PRIMARY && Derives(j, ts, e)
    ensures Derives(k, ts, e)
    decreases j - k
  {
    if k < j {
      LooserDerives(k + 1, j, ts, e);
      TighterDerives(k, ts, e);
    }
  }

  lemma {:induction false} PrintDerives(e: Ast, k: nat)
    requires IsTree(e) && k <= PRIMARY
    ensures Derives(k, Print(e, k), e)
    decreases e, 1
  {
    hide Derives;
    BodyDerives(e);
    if Level(e) >= k {
      LooserDerives(k, Level(e), Body(e), e);
    } else {
      EnclosedDerives(e, Level(e), Body(e));
      LooserDerives(k, PRIMARY, [Sym("(")] + Body(e) + [Sym(")")], e);
    }
  }

  lemma EnclosedDerives(e: Ast, j: nat, ts: seq<Token>)
    requires j <= PRIMARY && Derives(j, ts, e)
    ensures Derives(PRIMARY, [Sym("(")] + ts + [Sym(")")], e)
  {
    hide Derives;
    var w := [Sym("(")] + ts + [Sym(")")];
    LooserDerives(TERNARY, j, ts, e);
    NotEmpty(TERNARY, ts, e);
    assert w[1..|w| - 1] == ts;
    BracketedIsPrimary(w, e);
  }

  lemma {:induction false} BodyDerives(e: Ast)
    requires IsTree(e)
    ensures Derives(Level(e), Body(e), e)
    decreases e, 0, 1
  {
    hide Derives, Body;
    match e
    case Index(_, _) => IndexDerives(e);
    case Bin(_, _, _) => OperatorDerives(e);
    case Un(_, _) => SignDerives(e);
    case Cond(_, _, _) => ConditionalDerives(e);
    case _ => LeafDerives(e);
  }

  lemma {:induction false} IndexDerives(e: Ast)
    requires IsTree(e) && e.Index?
    ensures Derives(PRIMARY, Body(e), e)
    decreases e, 0, 0
  {
    hide Derives;
    PrintDerives(e.key, TERNARY);
    NotEmpty(TERNARY, Print(e.key, TERNARY), e.key);
    assert Body(e)[2..|Body(e)| - 1] == Print(e.key, TERNARY);
    ElementIsPrimary(Body(e), e);
  }

  lemma {:induction false} OperatorDerives(e: Ast)
    requires IsTree(e) && e.Bin?
    ensures Derives(Level(e), Body(e), e)
    decreases e, 0, 0
  {
    hide Derives, Print;
    var k := Level(e);
    var below := if k == POWER then UNARY else k;
    var above := if k == POWER then POWER else k + 1;
    PrintDerives(e.l, below);
    PrintDerives(e.r, above);
    NotEmpty(below, Print(e.l, below), e.l);
    OperatorSlices(Print(e.l, below), Sym(e.op), Print(e.r, above));
    assert Body(e) == Print(e.l, below) + [Sym(e.op)] + Print(e.r, above);
    hide Body;
    if k == POWER {
      PowerDerives(Body(e), e, |Print(e.l, below)|);
    } else {
      RowIsLevel(k);
      OperationDerives(k, Body(e), e, |Print(e.l, below)|);
    }
  }

  lemma {:induction false} SignDerives(e: Ast)
    requires IsTree(e) && e.Un?
    ensures Derives(UNARY, Body(e), e)
    decreases e, 0, 0
  {
    hide Derives;
    PrintDerives(e.e, UNARY);
    NotEmpty(UNARY, Print(e.e, UNARY), e.e);
    assert Body(e)[1..] == Print(e.e, UNARY);
    SignedDerives(Body(e), e);
  }

  lemma {:induction false} ConditionalDerives(e: Ast)
    requires IsTree(e) && e.Cond?
    ensures Derives(TERNARY, Body(e), e)
    decreases e, 0, 0
  {
    hide Derives, Print;
    PrintDerives(e.test, 1);
    PrintDerives(e.thn, TERNARY);
    PrintDerives(e.els, TERNARY);
    ChoiceSlices(Print(e.test, 1), Print(e.thn, TERNARY), Print(e.els, TERNARY));
    ChoiceDerives(Body(e), e, |Print(e.test, 1)|, |Print(e.test, 1)| + 1 + |Print(e.thn, TERNARY)|);
  }

  lemma LeafDerives(e: Ast)
    requires IsTree(e) && (e.Number? || e.Var? || e.IncDec?)
    ensures Derives(Level(e), Body(e), e)
  {
    if e.IncDec? && e.prefix {
      SignedDerives(Body(e), e);
    } else {
      assert IsPrimary(Body(e), e);
    }
  }

  lemma OperatorSlices(l: seq<Token>, t: Token, r: seq<Token>)
    ensures var s := l + [t] + r; s[..|l|] == l && s[|l|] == t && s[|l| + 1..] == r
  {
  }

  lemma ChoiceSlices(t: seq<Token>, a: seq<Token>, b: seq<Token>)
    ensures var s, i := t + [Sym("?")] + a + [Sym(":")] + b, |t|;
            var j := i + 1 + |a|;
            s[..i] == t && s[i] == Sym("?") && s[i + 1..j] == a && s[j] == Sym(":") && s[j + 1..] == b
  {
  }

  lemma {:induction false} PrintIsText(e: Ast)
    requires IsTop(e)
    ensures IsText(PrintTop(e), e)
    decreases e
  {
    if e.Assign? {
      PrintIsText(e.rhs);
      assert PrintTop(e)[2..] == PrintTop(e.rhs);
      TextNotEmpty(PrintTop(e.rhs), e.rhs);
    } else {
      PrintDerives(e, TERNARY);
    }
  }

  lemma TextNotEmpty(ts: seq<Token>, e: Ast)
    requires IsText(ts, e)
    ensures ts != []
  {
    if !e.Assign? {
      NotEmpty(TERNARY, ts, e);
    }
  }

  /** Parsing the printed text of any tree of the grammar returns exactly that tree. */
  lemma ParseUndoesPrint(e: Ast)
    requires IsTop(e)
    ensures ParseArith(PrintTop(e)) == Some(e)
  {
    PrintIsText(e);
    ParserIsGrammar(PrintTop(e), e);
  }

  // ---------------------------------------------------------------- every text is of such a tree

  lemma {:induction false} DerivedIsTree(k: nat, ts: seq<Token>, e: Ast)
    requires k <= PRIMARY && Derives(k, ts, e)
    ensures IsTree(e)
    decreases |ts|, PRIMARY - k, 1
  {
    if k == PRIMARY {
      if IsBracketed(ts, e) {
        DerivedIsTree(TERNARY, ts[1..|ts| - 1], e);
      } else if e.Index? {
        DerivedIsTree(TERNARY, ts[2..|ts| - 1], e.key);
      }
    } else if Derives(k + 1, ts, e) {
      DerivedIsTree(k + 1, ts, e);
    } else if k == UNARY {
      if e.Un? {
        DerivedIsTree(UNARY, ts[1..], e.e);
      }
    } else if k == TERNARY {
      var i, j := ChoiceAt(ts, e);
      DerivedIsTree(1, ts[..i], e.test);
      DerivedIsTree(TERNARY, ts[i + 1..j], e.thn);
      DerivedIsTree(TERNARY, ts[j + 1..], e.els);
    } else {
      OperationIsTree(k, ts, e);
    }
  }

  lemma {:induction false} OperationIsTree(k: nat, ts: seq<Token>, e: Ast)
    requires 1 <= k <= POWER && Derives(k, ts, e) && !Derives(k + 1, ts, e)
    ensures IsTree(e)
    decreases |ts|, PRIMARY - k, 0
  {
    var i: nat;
    if k == POWER {
      i := PowerAt(ts, e);
    } else {
      i := OperationAt(k, ts, e);
    }
    DerivedIsTree(if k == POWER then UNARY else k, ts[..i], e.l);
    DerivedIsTree(if k == POWER then POWER else k + 1, ts[i + 1..], e.r);
    if k < POWER {
      RowIsLevel(k);
    }
  }

  lemma {:induction false} TextIsTop(ts: seq<Token>, e: Ast)
    requires IsText(ts, e)
    ensures IsTop(e)
    decreases e
  {
    if e.Assign? {
      TextIsTop(ts[2..], e.rhs);
    } else {
      DerivedIsTree(TERNARY, ts, e);
    }
  }

  /** The trees the parser can return are exactly the trees of the grammar, so any accepted
      text has a canonical text that is accepted with the same meaning. */
  lemma ParserRangeIsGrammar(e: Ast)
    ensures IsTop(e) <==> exists ts :: ParseArith(ts) == Some(e)
  {
    if IsTop(e) {
      ParseUndoesPrint(e);
    }
    if exists ts :: ParseArith(ts) == Some(e) {
      var ts :| ParseArith(ts) == Some(e);
      ParserIsGrammar(ts, e);
      TextIsTop(ts, e);
    }
  }

  // ---------------------------------------------------------------- the C frontend's text

  /** The C expressions the frontend renders as arithmetic text; Not is the one-operand `!`. */
  datatype CExpr = CNum(n: nat) | CId(x: string) | CBin(op: string, l: CExpr, r: CExpr) | CNot(e: CExpr)

  /** Operators both sides share, on literals that fit int64. */
  predicate IsShared(e: CExpr) {
    match e
    case CNum(n) => n <= MAX_INT64
    case CId(_) => true
    case CBin(op, l, r) => LevelOfOp(op) > 0 && IsShared(l) && IsShared(r)
    case CNot(a) => IsShared(a)
  }

  /** The fully bracketed text of exprToArithString, `$` dropped. */
  function FullText(e: CExpr): seq<Token> {
    match e
    case CNum(n) => [Num(n)]
    case CId(x) => [Id(x)]
    case CBin(op, l, r) => [Sym("(")] + (FullText(l) + [Sym(op)] + FullText(r)) + [Sym(")")]
    case CNot(a) => [Sym("(")] + ([Sym("!")] + FullText(a)) + [Sym(")")]
  }

  function ToAst(e: CExpr): Ast {
    match e
    case CNum(n) => Number(n)
    case CId(x) => Var(x)
    case CBin(op, l, r) => Bin(op, ToAst(l), ToAst(r))
    case CNot(a) => Un("!", ToAst(a))
  }

  lemma {:induction false} FullTextDerives(e: CExpr)
    requires IsShared(e)
    ensures Derives(PRIMARY, FullText(e), ToAst(e))
    decreases e
  {
    hide Derives;
    match e
    case CBin(op, l, r) =>
      var k := LevelOfOp(op);
      FullTextDerives(l);
      FullTextDerives(r);
      LooserDerives(k, PRIMARY, FullText(l), ToAst(l));
      LooserDerives(k + 1, PRIMARY, FullText(r), ToAst(r));
      NotEmpty(k, FullText(l), ToAst(l));
      RowIsLevel(k);
      OperatorSlices(FullText(l), Sym(op), FullText(r));
      var inner := FullText(l) + [Sym(op)] + FullText(r);
      OperationDerives(k, inner, ToAst(e), |FullText(l)|);
      EnclosedDerives(ToAst(e), k, inner);
    case CNot(a) =>
      FullTextDerives(a);
      LooserDerives(UNARY, PRIMARY, FullText(a), ToAst(a));
      NotEmpty(UNARY, FullText(a), ToAst(a));
      var inner := [Sym("!")] + FullText(a);
      assert inner[1..] == FullText(a);
      SignedDerives(inner, ToAst(e));
      EnclosedDerives(ToAst(e), UNARY, inner);
    case _ => LeafDerives(ToAst(e));
  }

  /** Reading the C frontend's arithmetic text gives back the C expression's tree. */
  lemma FullTextRoundTrip(e: CExpr)
    requires IsShared(e)
    ensures ParseArith(FullText(e)) == Some(ToAst(e))
  {
    FullTextDerives(e);
    LooserDerives(TERNARY, PRIMARY, FullText(e), ToAst(e));
    ParserIsGrammar(FullText(e), ToAst(e));
  }
}
