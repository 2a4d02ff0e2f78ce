/** Soundness of the textual evaluator: cutting the text of a parse tree at the rightmost
    operator cuts the tree into two trees whose values combine to the same value. */
module PyEvalProof {
  import opened Int64
  import opened Intervals
  import opened Options
  import opened PyText
  import opened PyEval

  datatype Cut = NoCut | CutAt(l: Expr, op: BinOp, r: Expr)

  /** The rightmost operator of e's own level drawn from ops; what follows it is regrouped. */
  function RightmostCut(e: Expr, ops: set<char>): Cut {
    if !e.Bin? then NoCut
    else if Symbol(e.op)[0].c in ops then CutAt(e.l, e.op, e.r)
    else if !e.l.Bin? || OpLevel(e.l.op) != OpLevel(e.op) then NoCut
    else
      var c := RightmostCut(e.l, ops);
      if c.NoCut? then NoCut else CutAt(c.l, c.op, Bin(e.op, c.r, e.r))
  }

  /** ops are operators of level k only. */
  predicate OfLevel(ops: set<char>, k: nat) {
    if k == 0 then ops <= {'+', '-'} else ops <= {'*', '%', '/'}
  }

  lemma {:induction false} HigherLevelHasNoSplit(e: Expr, ops: set<char>, k: nat)
    requires WellFormed(e) && k <= 1 && OfLevel(ops, k) && Level(e) > k
    ensures NoSplit(e, ops) && RightmostCut(e, ops).NoCut?
  {
    if e.Bin? {
      HigherLevelHasNoSplit(e.l, ops, k);
      HigherLevelHasNoSplit(e.r, ops, k);
    }
  }

  /** A cut keeps the grammar and the sign conditions. */
  lemma {:induction false} CutIsATree(e: Expr, ops: set<char>, env: Env)
    requires WellFormed(e) && RightmostCut(e, ops).CutAt?
    ensures var c := RightmostCut(e, ops);
            && WellFormed(c.l) && WellFormed(c.r) && OpLevel(c.op) == Level(e)
            && Symbol(c.op)[0].c in ops && Level(c.l) >= Level(e) && Level(c.r) >= Level(e)
            && (SignsAreSafe(e, env) ==> SignsAreSafe(c.l, env) && SignsAreSafe(c.r, env))
  {
    hide Text;
    if Symbol(e.op)[0].c !in ops {
      CutIsATree(e.l, ops, env);
    }
  }

  /** A cut keeps the tokens. */
  lemma {:induction false} CutKeepsText(e: Expr, ops: set<char>)
    requires RightmostCut(e, ops).CutAt?
    ensures var c := RightmostCut(e, ops);
            Text(e) == Text(c.l) + Symbol(c.op) + Text(c.r)
  {
    if Symbol(e.op)[0].c !in ops {
      CutKeepsText(e.l, ops);
      var c := RightmostCut(e.l, ops);
      assert Text(e) == Text(c.l) + Symbol(c.op) + (Text(c.r) + Symbol(e.op) + Text(e.r));
    }
  }

  /** Scanning a parse tree's text finds exactly the rightmost cut. */
  lemma {:induction false} ScanFindsCut(e: Expr, k: nat, ops: set<char>, star: bool)
    requires WellFormed(e) && k <= 1 && OfLevel(ops, k) && Level(e) >= k
    ensures var c := RightmostCut(e, ops);
            Scan(Text(e), star, ops, 0) == if c.NoCut? then None else Some(|Text(c.l)|)
    decreases e, 1
  {
    hide Scan;
    if Level(e) > k {
      HigherLevelHasNoSplit(e, ops, k);
      ScanOver([], e, star, ops, 0);
      assert [] + Text(e) == Text(e);
      ScanNothing(false, ops, 0);
    } else {
      ScanFindsCutInBin(e, k, ops, star);
    }
  }

  lemma {:induction false} ScanFindsCutInBin(e: Expr, k: nat, ops: set<char>, star: bool)
    requires WellFormed(e) && k <= 1 && OfLevel(ops, k) && Level(e) == k
    ensures var c := RightmostCut(e, ops);
            Scan(Text(e), star, ops, 0) == if c.NoCut? then None else Some(|Text(c.l)|)
    decreases e, 0
  {
    hide Scan;
    var p, t := Text(e.l), Symbol(e.op);
    HigherLevelHasNoSplit(e.r, ops, k);
    ScanOver(p + t, e.r, star, ops, 0);
    ScanOperator(e.l, e.op, ops);
    if t[0].c !in ops {
      ScanFindsCut(e.l, k, ops, t[0] == Op('*'));
      if !e.l.Bin? || OpLevel(e.l.op) != OpLevel(e.op) {
        HigherLevelHasNoSplit(e.l, ops, k);
      }
    }
  }

  /** An operator after an operand is a split exactly when it is one of ops. */
  lemma ScanOperator(l: Expr, op: BinOp, ops: set<char>)
    ensures Scan(Text(l) + Symbol(op), false, ops, 0)
            == if Symbol(op)[0].c in ops then Some(|Text(l)|) else Scan(Text(l), op.Mul?, ops, 0)
  {
    hide Scan, Text;
    var p := Text(l);
    TextEnds(l);
    if op.FloorDiv? {
      assert p + Symbol(op) == p + [Op('/')] + [Op('/')];
      ScanStep(p + [Op('/')], Op('/'), false, ops, 0);
      ScanStep(p, Op('/'), false, ops, 0);
    } else {
      ScanStep(p, Symbol(op)[0], false, ops, 0);
    }
  }

  // ---------------------------------------------------------------- brackets and commas

  function Unparen(e: Expr): Expr {
    if e.Paren? then Unparen(e.e) else e
  }

  lemma HeadAndTail(e: Expr) returns (head: Expr, tail: seq<Token>)
    requires !e.Paren? && Text(e)[0].Open?
    ensures head < e && tail != [] && Text(e) == Text(head) + tail && Text(head)[0].Open?
  {
    head := if e.Bin? then e.l else e.base;
    tail := if e.Bin? then Symbol(e.op) + Text(e.r) else [Op('*'), Op('*')] + Text(e.exponent);
    assert Text(e) == Text(head) + tail;
  }

  /** A text that starts with a bracket closes it before the end unless it is one bracketed expression. */
  lemma {:induction false} LeadingBracketCloses(e: Expr) returns (a: Expr, rest: seq<Token>)
    requires !e.Paren? && Text(e)[0].Open?
    ensures rest != [] && Text(e) == [Open] + Text(a) + [Close] + rest
  {
    var head, tail := HeadAndTail(e);
    if head.Paren? {
      a, rest := head.e, tail;
      assert Text(head) == [Open] + Text(a) + [Close];
    } else {
      a, rest := LeadingBracketCloses(head);
      rest := rest + tail;
    }
  }

  lemma BracketedIsWrapped(a: Expr)
    ensures Wrapped([Open] + Text(a) + [Close])
    ensures ([Open] + Text(a) + [Close])[1..|Text(a)| + 1] == Text(a)
  {
    hide Text;
    TextIsBalanced(a, 0);
    assert ([Open] + Text(a) + [Close])[1..|Text(a)| + 1] == Text(a);
  }

  /** A bracketed expression followed by more text is not one bracketed text. */
  lemma TrailedIsNotWrapped(a: Expr, rest: seq<Token>)
    requires rest != []
    ensures !Wrapped([Open] + Text(a) + [Close] + rest)
  {
    hide Text;
    var s := [Open] + Text(a) + [Close] + rest;
    var r := rest[..|rest| - 1];
    assert s[1..|s| - 1] == Text(a) + ([Close] + r);
    TextIsBalanced(a, 0);
    DepthConcat(Text(a), [Close] + r, 0);
  }

  /** Stripping outer brackets from a text strips the tree's outer parentheses, and no more. */
  lemma {:induction false} StripText(e: Expr)
    ensures Strip(Text(e)) == Text(Unparen(e))
  {
    if e.Paren? {
      BracketedIsWrapped(e.e);
      StripText(e.e);
    } else if Text(e)[0].Open? {
      var a, rest := LeadingBracketCloses(e);
      TrailedIsNotWrapped(a, rest);
    }
  }
}
