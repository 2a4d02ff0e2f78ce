/** The grammar of shell arithmetic, written from the token text, and the proof that the parser accepts
    exactly its texts and gives each the one tree it has. */
module ArithGrammar {
  import opened Options
  import opened ArithAst
  import opened ArithParser

  // ---------------------------------------------------------------- the grammar

  /** The operators of each row, loosest first: 6.5.14 of C11 (logical or) to 6.5.5 (products). */
  function Row(k: nat): set<string>
    requires 1 <= k <= 10
  {
    if k == 1 then {"||"}
    else if k == 2 then {"&&"}
    else if k == 3 then {"|"}
    else if k == 4 then {"^"}
    else if k == 5 then {"&"}
    else if k == 6 then {"==", "!="}
    else if k == 7 then {"<", "<=", ">", ">="}
    else if k == 8 then {"<<", ">>"}
    else if k == 9 then {"+", "-"}
    else {"*", "/", "%"}
  }

  /** ts is a text of e with nothing looser than level k outside its brackets: level 0 is `?:`, 1 to 10 are
      the rows, 11 is `**`, 12 the signs, 13 the primaries. */
  ghost predicate Derives(k: nat, ts: seq<Token>, e: Ast)
    requires k <= 13
    decreases |ts|, 13 - k, 2
  {
    if k == 13 then IsPrimary(ts, e)
    else
      || Derives(k + 1, ts, e)
      || (k == 12 && IsSigned(ts, e))
      || (k == 11 && exists i :: IsPower(ts, e, i))
      || (1 <= k <= 10 && exists i :: IsOperation(k, ts, e, i))
      || (k == 0 && exists i, j :: IsChoice(ts, e, i, j))
  }

  /** A number, a name, a name with `++` or `--` behind it, an element, or any text in brackets. */
  ghost predicate IsPrimary(ts: seq<Token>, e: Ast)
    decreases |ts|, 0, 1
  {
    match e
    case Number(n) => (0 <= n < 0x8000_0000_0000_0000 && ts == [Num(n)]) || IsBracketed(ts, e)
    case Var(x) => ts == [Id(x)] || IsBracketed(ts, e)
    case IncDec(x, d, prefix) =>
      || (!prefix && d == 1 && ts == [Id(x), Sym("++")])
      || (!prefix && d == -1 && ts == [Id(x), Sym("--")])
      || IsBracketed(ts, e)
    case Index(x, key) =>
      || (|ts| > 3 && ts[0] == Id(x) && ts[1] == Sym("[") && ts[|ts| - 1] == Sym("]") && Derives(0, ts[2..|ts| - 1], key))
      || IsBracketed(ts, e)
    case _ => IsBracketed(ts, e)
  }

  ghost predicate IsBracketed(ts: seq<Token>, e: Ast)
    decreases |ts|, 0, 0
  {
    |ts| > 2 && ts[0] == Sym("(") && ts[|ts| - 1] == Sym(")") && Derives(0, ts[1..|ts| - 1], e)
  }

  /** A sign before a text of level 12, or `++` or `--` before a name. */
  ghost predicate IsSigned(ts: seq<Token>, e: Ast)
    decreases |ts|, 1, 0
  {
    match e
    case IncDec(x, d, prefix) =>
      prefix && ((d == 1 && ts == [Sym("++"), Id(x)]) || (d == -1 && ts == [Sym("--"), Id(x)]))
    case Un(op, a) => op in {"-", "+", "!", "~"} && |ts| > 1 && ts[0] == Sym(op) && Derives(12, ts[1..], a)
    case _ => false
  }

  /** `**` groups to the right. */
  ghost predicate IsPower(ts: seq<Token>, e: Ast, i: nat)
    decreases |ts|, 2, 0
  {
    && e.Bin? && e.op == "**" && 0 < i < |ts| - 1 && ts[i] == Sym("**")
    && Derives(12, ts[..i], e.l) && Derives(11, ts[i + 1..], e.r)
  }

  /** The operators of a row group to the left. */
  ghost predicate IsOperation(k: nat, ts: seq<Token>, e: Ast, i: nat)
    requires 1 <= k <= 10
    decreases |ts|, 13 - k, 0
  {
    && e.Bin? && e.op in Row(k) && 0 < i < |ts| - 1 && ts[i] == Sym(e.op)
    && Derives(k, ts[..i], e.l) && Derives(k + 1, ts[i + 1..], e.r)
  }

  ghost predicate IsChoice(ts: seq<Token>, e: Ast, i: nat, j: nat)
    decreases |ts|, 13, 0
  {
    && e.Cond? && 0 < i && i + 1 < j < |ts| - 1 && ts[i] == Sym("?") && ts[j] == Sym(":")
    && Derives(1, ts[..i], e.test) && Derives(0, ts[i + 1..j], e.thn) && Derives(0, ts[j + 1..], e.els)
  }

  /** A whole text: assignments to names, chained to the right, and one expression. */
  ghost predicate IsText(ts: seq<Token>, e: Ast)
    decreases |ts|
  {
    if e.Assign? then
      e.op in {"=", "+=", "-=", "*="} && |ts| > 2 && ts[0] == Id(e.x) && ts[1] == Sym(e.op) && IsText(ts[2..], e.rhs)
    else Derives(0, ts, e)
  }

  lemma RowIsLevel(k: nat)
    requires 1 <= k <= 10
    ensures Row(k) == OpsOf(k)
    ensures forall op :: op in Row(k) <==> LevelOfOp(op) == k
  {
  }

  // ---------------------------------------------------------------- the parser reads every text

  function ParseAt(k: nat, ts: seq<Token>): Parse
    requires k <= PRIMARY
  {
    if k == TERNARY then Ternary(ts)
    else if k <= 10 then Binary(k, ts)
    else if k == POWER then Pow(ts)
    else if k == UNARY then Unary(ts)
    else Primary(ts)
  }

  /** The token after an expression read at level k does not prolong it. */
  predicate Stops(k: nat, rest: seq<Token>) {
    var h := Head(rest);
    && h !in {"++", "--", "["}
    && (k <= POWER ==> h != "**")
    && (k <= 10 ==> LevelOfOp(h) == 0 || LevelOfOp(h) < k)
    && (k == TERNARY ==> h != "?")
  }

  lemma MoreStops(k: nat, e: Ast, rest: seq<Token>)
    requires 1 <= k <= 10 && Stops(k, rest)
    ensures More(k, e, rest) == Done(e, rest)
  {
  }

  lemma MoreGoesOn(k: nat, op: string, lhs: Ast, tail: seq<Token>, r: Ast, rest: seq<Token>)
    requires 1 <= k <= 10 && op in OpsOf(k) && ParseAt(k + 1, tail) == Done(r, rest)
    ensures More(k, lhs, [Sym(op)] + tail) == More(k, Bin(op, lhs, r), rest)
  {
  }

  lemma BinaryReads(k: nat, ts: seq<Token>, e: Ast, rest: seq<Token>)
    requires 1 <= k <= 10 && ParseAt(k + 1, ts) == Done(e, rest)
    ensures Binary(k, ts) == More(k, e, rest)
  {
  }

  lemma OperationAt(k: nat, ts: seq<Token>, e: Ast) returns (i: nat)
    requires 1 <= k <= 10 && Derives(k, ts, e) && !Derives(k + 1, ts, e)
    ensures e.Bin? && e.op in Row(k) && 0 < i < |ts| - 1 && ts[i] == Sym(e.op)
    ensures Derives(k, ts[..i], e.l) && Derives(k + 1, ts[i + 1..], e.r)
  {
    i :| IsOperation(k, ts, e, i);
  }

  lemma PowerAt(ts: seq<Token>, e: Ast) returns (i: nat)
    requires Derives(POWER, ts, e) && !Derives(UNARY, ts, e)
    ensures e.Bin? && e.op == "**" && 0 < i < |ts| - 1 && ts[i] == Sym("**")
    ensures Derives(UNARY, ts[..i], e.l) && Derives(POWER, ts[i + 1..], e.r)
  {
    i :| IsPower(ts, e, i);
  }

  lemma ChoiceAt(ts: seq<Token>, e: Ast) returns (i: nat, j: nat)
    requires Derives(TERNARY, ts, e) && !Derives(1, ts, e)
    ensures e.Cond? && 0 < i && i + 1 < j < |ts| - 1 && ts[i] == Sym("?") && ts[j] == Sym(":")
    ensures Derives(1, ts[..i], e.test) && Derives(0, ts[i + 1..j], e.thn) && Derives(0, ts[j + 1..], e.els)
  {
    i, j :| IsChoice(ts, e, i, j);
  }

  lemma {:induction false} DerivedIsRead(k: nat, ts: seq<Token>, e: Ast, rest: seq<Token>)
    requires k <= PRIMARY && Derives(k, ts, e) && Stops(k, rest)
    ensures ParseAt(k, ts + rest) == Done(e, rest)
    decreases |ts|, PRIMARY - k, 1
  {
    if 1 <= k <= 10 {
      OperationIsRead(k, ts, e, rest);
      MoreStops(k, e, rest);
    } else if k == TERNARY {
      ChoiceIsRead(ts, e, rest);
    } else if k == POWER {
      PowerIsRead(ts, e, rest);
    } else if k == UNARY {
      SignedIsRead(ts, e, rest);
    } else {
      PrimaryIsRead(ts, e, rest);
    }
  }

  /** What a left-associative level has read after a text is its tree as left operand, even if the next
      token is an operator of the same level. */
  lemma {:induction false} OperationIsRead(k: nat, ts: seq<Token>, e: Ast, rest: seq<Token>)
    requires 1 <= k <= 10 && Derives(k, ts, e) && Stops(k + 1, rest)
    ensures Binary(k, ts + rest) == More(k, e, rest)
    decreases |ts|, PRIMARY - k, 0
  {
    hide Binary, More, Next, ParseAt, Derives;
    if Derives(k + 1, ts, e) {
      DerivedIsRead(k + 1, ts, e, rest);
      BinaryReads(k, ts + rest, e, rest);
    } else {
      var i := OperationAt(k, ts, e);
      var tail := ts[i + 1..] + rest;
      RowIsLevel(k);
      OperationIsRead(k, ts[..i], e.l, [Sym(e.op)] + tail);
      assert ts + rest == ts[..i] + ([Sym(e.op)] + tail);
      DerivedIsRead(k + 1, ts[i + 1..], e.r, rest);
      MoreGoesOn(k, e.op, e.l, tail, e.r, rest);
    }
  }

  lemma {:induction false} ChoiceIsRead(ts: seq<Token>, e: Ast, rest: seq<Token>)
    requires Derives(TERNARY, ts, e) && Stops(TERNARY, rest)
    ensures Ternary(ts + rest) == Done(e, rest)
    decreases |ts|, PRIMARY, 0
  {
    hide Derives;
    if Derives(1, ts, e) {
      DerivedIsRead(1, ts, e, rest);
    } else {
      var i, j := ChoiceAt(ts, e);
      var els := ts[j + 1..] + rest;
      var thn := ts[i + 1..j] + ([Sym(":")] + els);
      assert ts + rest == ts[..i] + ([Sym("?")] + thn);
      DerivedIsRead(1, ts[..i], e.test, [Sym("?")] + thn);
      DerivedIsRead(TERNARY, ts[i + 1..j], e.thn, [Sym(":")] + els);
      DerivedIsRead(TERNARY, ts[j + 1..], e.els, rest);
      assert ([Sym("?")] + thn)[1..] == thn && ([Sym(":")] + els)[1..] == els;
    }
  }

  lemma {:induction false} PowerIsRead(ts: seq<Token>, e: Ast, rest: seq<Token>)
    requires Derives(POWER, ts, e) && Stops(POWER, rest)
    ensures Pow(ts + rest) == Done(e, rest)
    decreases |ts|, PRIMARY - POWER, 0
  {
    hide Derives;
    if Derives(UNARY, ts, e) {
      DerivedIsRead(UNARY, ts, e, rest);
    } else {
      var i := PowerAt(ts, e);
      var tail := ts[i + 1..] + rest;
      assert ts + rest == ts[..i] + ([Sym("**")] + tail);
      DerivedIsRead(UNARY, ts[..i], e.l, [Sym("**")] + tail);
      DerivedIsRead(POWER, ts[i + 1..], e.r, rest);
      assert ([Sym("**")] + tail)[1..] == tail;
    }
  }

  lemma {:induction false} SignedIsRead(ts: seq<Token>, e: Ast, rest: seq<Token>)
    requires Derives(UNARY, ts, e) && Stops(UNARY, rest)
    ensures Unary(ts + rest) == Done(e, rest)
    decreases |ts|, PRIMARY - UNARY, 0
  {
    var all := ts + rest;
    if IsSigned(ts, e) {
      if e.Un? {
        DerivedIsRead(UNARY, ts[1..], e.e, rest);
        hide Primary;
        assert all[0] == ts[0] && all[1..] == ts[1..] + rest;
      } else {
        assert all[0] == ts[0] && all[1] == ts[1] && all[2..] == rest;
      }
    } else {
      DerivedIsRead(PRIMARY, ts, e, rest);
      assert ts[0] == all[0];
    }
  }

  lemma {:induction false} PrimaryIsRead(ts: seq<Token>, e: Ast, rest: seq<Token>)
    requires IsPrimary(ts, e) && Stops(PRIMARY, rest)
    ensures Primary(ts + rest) == Done(e, rest)
    decreases |ts|, 0, 0
  {
    hide Derives, Primary;
    if IsBracketed(ts, e) {
      var inner := ts[1..|ts| - 1];
      assert ts == [Sym("(")] + inner + [Sym(")")];
      DerivedIsRead(TERNARY, inner, e, [Sym(")")] + rest);
      BracketedParse(e, inner, rest);
    } else if e.Index? {
      var inner := ts[2..|ts| - 1];
      assert ts == [Id(e.x), Sym("[")] + inner + [Sym("]")];
      DerivedIsRead(TERNARY, inner, e.key, [Sym("]")] + rest);
      IndexParse(e.x, e.key, inner, rest);
    } else {
      LeafParse(ts, e, rest);
    }
  }

  lemma BracketedParse(e: Ast, ts: seq<Token>, rest: seq<Token>)
    requires Ternary(ts + ([Sym(")")] + rest)) == Done(e, [Sym(")")] + rest)
    ensures Primary([Sym("(")] + ts + [Sym(")")] + rest) == Done(e, rest)
  {
    hide Ternary;
    assert ([Sym("(")] + ts + [Sym(")")] + rest)[1..] == ts + ([Sym(")")] + rest);
    assert ([Sym(")")] + rest)[1..] == rest;
  }

  lemma IndexParse(x: string, key: Ast, ts: seq<Token>, rest: seq<Token>)
    requires Ternary(ts + ([Sym("]")] + rest)) == Done(key, [Sym("]")] + rest)
    ensures Primary([Id(x), Sym("[")] + ts + [Sym("]")] + rest) == Done(Index(x, key), rest)
  {
    hide Ternary;
    var all := [Id(x), Sym("[")] + ts + [Sym("]")] + rest;
    assert all[1..][1..] == ts + ([Sym("]")] + rest);
    assert ([Sym("]")] + rest)[1..] == rest;
  }

  lemma LeafParse(ts: seq<Token>, e: Ast, rest: seq<Token>)
    requires IsPrimary(ts, e) && !IsBracketed(ts, e) && !e.Index? && Stops(PRIMARY, rest)
    ensures Primary(ts + rest) == Done(e, rest)
  {
    hide Ternary;
    var all := ts + rest;
    assert all[0] == ts[0];
    if |ts| == 1 {
      assert all[1..] == rest;
    } else {
      assert all[1..][0] == ts[1] && all[1..][1..] == rest;
    }
  }

  // ---------------------------------------------------------------- and reads nothing else

  /** p has read a text of its tree off the front of ts. */
  ghost predicate Reads(k: nat, ts: seq<Token>, p: Parse)
    requires k <= PRIMARY
  {
    p.Done? ==>
      && IsSuffix(p.rest, ts)
      && Derives(k, ts[..|ts| - |p.rest|], p.e)
  }

  lemma {:induction false} ReadIsDerived(k: nat, ts: seq<Token>)
    requires k <= PRIMARY
    ensures Reads(k, ts, ParseAt(k, ts))
    decreases |ts|, PRIMARY - k, 1
  {
    if k == TERNARY {
      ReadChoice(ts);
    } else if k <= 10 {
      ReadBinary(k, ts);
    } else if k == POWER {
      ReadPower(ts);
    } else if k == UNARY {
      ReadSigned(ts);
    } else {
      ReadPrimary(ts);
    }
  }

  predicate IsSuffix(rest: seq<Token>, ts: seq<Token>) {
    |rest| <= |ts| && rest == ts[|ts| - |rest|..]
  }

  /** What lies between two suffixes, the later one read behind the first token of the earlier. */
  lemma Between(ts: seq<Token>, mid: seq<Token>, rest: seq<Token>) returns (i: nat, n: nat)
    requires IsSuffix(mid, ts) && mid != [] && IsSuffix(rest, mid[1..])
    ensures i == |ts| - |mid| && n == |ts| - |rest| && i < n
    ensures ts[..n][i] == mid[0] && ts[..n][..i] == ts[..i] && IsSuffix(rest, ts)
    ensures mid[1..][..|mid[1..]| - |rest|] == ts[..n][i + 1..]
  {
    i, n := |ts| - |mid|, |ts| - |rest|;
  }

  lemma {:induction false} ReadBinary(k: nat, ts: seq<Token>)
    requires 1 <= k <= 10
    ensures Reads(k, ts, Binary(k, ts))
    decreases |ts|, PRIMARY - k, 0
  {
    hide More, Derives;
    ReadIsDerived(k + 1, ts);
    var lhs := Next(k, ts);
    assert lhs == ParseAt(k + 1, ts);
    if lhs.Done? {
      TighterDerives(k, ts[..|ts| - |lhs.rest|], lhs.e);
      ReadMore(k, ts, lhs.e, lhs.rest);
    }
  }

  lemma TighterDerives(k: nat, ts: seq<Token>, e: Ast)
    requires k < PRIMARY && Derives(k + 1, ts, e)
    ensures Derives(k, ts, e)
  {
  }

  /** The loop of a level, where a text of the left operand has been read off the front of ts. */
  lemma {:induction false} ReadMore(k: nat, ts: seq<Token>, lhs: Ast, rest: seq<Token>)
    requires 1 <= k <= 10 && IsSuffix(rest, ts) && |rest| < |ts| && Derives(k, ts[..|ts| - |rest|], lhs)
    ensures Reads(k, ts, More(k, lhs, rest))
    decreases |rest|, PRIMARY - k, 2
  {
    hide Derives, Next, Head;
    if Head(rest) in OpsOf(k) {
      HeadIsFirst(k, rest);
      ReadIsDerived(k + 1, rest[1..]);
      NextIsParseAt(k, rest[1..]);
      var rhs := Next(k, rest[1..]);
      if rhs.Done? {
        LongerOperation(k, ts, lhs, rest, rhs.e, rhs.rest);
        ReadMore(k, ts, Bin(Head(rest), lhs, rhs.e), rhs.rest);
      }
    }
  }

  lemma HeadIsFirst(k: nat, rest: seq<Token>)
    requires 1 <= k <= 10 && Head(rest) in OpsOf(k)
    ensures rest != [] && rest[0] == Sym(Head(rest))
  {
  }

  lemma LongerOperation(k: nat, ts: seq<Token>, lhs: Ast, rest: seq<Token>, rhs: Ast, after: seq<Token>)
    requires 1 <= k <= 10 && IsSuffix(rest, ts) && 0 < |rest| < |ts| && rest[0] == Sym(Head(rest)) && Head(rest) in OpsOf(k)
    requires Derives(k, ts[..|ts| - |rest|], lhs)
    requires IsSuffix(after, rest[1..]) && Derives(k + 1, rest[1..][..|rest[1..]| - |after|], rhs)
    ensures IsSuffix(after, ts) && |after| < |rest| && Derives(k, ts[..|ts| - |after|], Bin(Head(rest), lhs, rhs))
  {
    hide Derives, Head;
    var i, n := Between(ts, rest, after);
    RowIsLevel(k);
    OperationDerives(k, ts[..n], Bin(Head(rest), lhs, rhs), i);
  }

  lemma NextIsParseAt(k: nat, ts: seq<Token>)
    requires 1 <= k <= 10
    ensures Next(k, ts) == ParseAt(k + 1, ts)
  {
  }

  lemma OperationDerives(k: nat, ts: seq<Token>, e: Ast, i: nat)
    requires 1 <= k <= 10 && e.Bin? && e.op in Row(k) && 0 < i < |ts| && ts[i] == Sym(e.op)
    requires Derives(k, ts[..i], e.l) && Derives(k + 1, ts[i + 1..], e.r)
    ensures Derives(k, ts, e)
  {
    NotEmpty(k + 1, ts[i + 1..], e.r);
    assert IsOperation(k, ts, e, i);
  }

  lemma {:induction false} NotEmpty(k: nat, ts: seq<Token>, e: Ast)
    requires k <= PRIMARY && Derives(k, ts, e)
    ensures ts != []
    decreases PRIMARY - k
  {
    if k < PRIMARY && Derives(k + 1, ts, e) {
      NotEmpty(k + 1, ts, e);
    } else if k == PRIMARY {
      PrimaryNotEmpty(ts, e);
    } else if k == UNARY {
      assert IsSigned(ts, e);
    } else if k == POWER {
      assert exists i :: IsPower(ts, e, i);
    } else if k == TERNARY {
      assert exists i, j :: IsChoice(ts, e, i, j);
    } else {
      assert exists i :: IsOperation(k, ts, e, i);
    }
  }

  lemma PrimaryNotEmpty(ts: seq<Token>, e: Ast)
    requires IsPrimary(ts, e)
    ensures ts != []
  {
  }

  lemma {:induction false} ReadChoice(ts: seq<Token>)
    ensures Reads(TERNARY, ts, Ternary(ts))
    decreases |ts|, PRIMARY, 0
  {
    hide Derives, Binary;
    ReadIsDerived(1, ts);
    var test := Binary(1, ts);
    if test.Done? {
      TighterDerives(0, ts[..|ts| - |test.rest|], test.e);
      if Starts(test.rest, "?") {
        ReadBranches(ts, test.e, test.rest);
      }
    }
  }

  lemma {:induction false} ReadBranches(ts: seq<Token>, test: Ast, rest: seq<Token>)
    requires IsSuffix(rest, ts) && |rest| < |ts| && Starts(rest, "?") && Derives(1, ts[..|ts| - |rest|], test)
    ensures var thn := Ternary(rest[1..]);
            thn.Done? && Starts(thn.rest, ":") ==>
              var els := Ternary(thn.rest[1..]);
              els.Done? ==> Reads(TERNARY, ts, Done(Cond(test, thn.e, els.e), els.rest))
    decreases |rest|, PRIMARY, 0
  {
    hide Derives, Ternary;
    ReadIsDerived(TERNARY, rest[1..]);
    TernaryIsParseAt(rest[1..]);
    var thn := Ternary(rest[1..]);
    if thn.Done? && Starts(thn.rest, ":") {
      ReadIsDerived(TERNARY, thn.rest[1..]);
      TernaryIsParseAt(thn.rest[1..]);
      var els := Ternary(thn.rest[1..]);
      if els.Done? {
        LongerChoice(ts, test, rest, thn.e, thn.rest, els.e, els.rest);
      }
    }
  }

  lemma LongerChoice(ts: seq<Token>, test: Ast, rest: seq<Token>, thn: Ast, mid: seq<Token>, els: Ast, after: seq<Token>)
    requires IsSuffix(rest, ts) && |rest| < |ts| && Starts(rest, "?") && Derives(1, ts[..|ts| - |rest|], test)
    requires IsSuffix(mid, rest[1..]) && Starts(mid, ":") && Derives(0, rest[1..][..|rest[1..]| - |mid|], thn)
    requires IsSuffix(after, mid[1..]) && Derives(0, mid[1..][..|mid[1..]| - |after|], els)
    ensures IsSuffix(after, ts) && Derives(0, ts[..|ts| - |after|], Cond(test, thn, els))
  {
    hide Derives;
    var i, j := Between(ts, rest, mid);
    var j', n := Between(ts, mid, after);
    var all := ts[..n];
    assert ts[..j][i + 1..] == all[i + 1..j] && all[..i] == ts[..i] && all[i] == rest[0];
    ChoiceDerives(all, Cond(test, thn, els), i, j);
  }

  lemma TernaryIsParseAt(ts: seq<Token>)
    ensures ParseAt(TERNARY, ts) == Ternary(ts)
  {
  }

  lemma ChoiceDerives(ts: seq<Token>, e: Ast, i: nat, j: nat)
    requires e.Cond? && i < j < |ts| && ts[i] == Sym("?") && ts[j] == Sym(":")
    requires Derives(1, ts[..i], e.test) && Derives(0, ts[i + 1..j], e.thn) && Derives(0, ts[j + 1..], e.els)
    ensures Derives(0, ts, e)
  {
    NotEmpty(1, ts[..i], e.test);
    NotEmpty(0, ts[i + 1..j], e.thn);
    NotEmpty(0, ts[j + 1..], e.els);
    assert IsChoice(ts, e, i, j);
  }

  lemma {:induction false} ReadPower(ts: seq<Token>)
    ensures Reads(POWER, ts, Pow(ts))
    decreases |ts|, PRIMARY - POWER, 0
  {
    hide Derives, Unary;
    ReadIsDerived(UNARY, ts);
    var base := Unary(ts);
    if base.Done? {
      TighterDerives(POWER, ts[..|ts| - |base.rest|], base.e);
      if Starts(base.rest, "**") {
        ReadIsDerived(POWER, base.rest[1..]);
        var exp := Pow(base.rest[1..]);
        if exp.Done? {
          var i, n := Between(ts, base.rest, exp.rest);
          PowerDerives(ts[..n], Bin("**", base.e, exp.e), i);
        }
      }
    }
  }

  lemma PowerDerives(ts: seq<Token>, e: Ast, i: nat)
    requires e.Bin? && e.op == "**" && i < |ts| && ts[i] == Sym("**")
    requires Derives(UNARY, ts[..i], e.l) && Derives(POWER, ts[i + 1..], e.r)
    ensures Derives(POWER, ts, e)
  {
    NotEmpty(UNARY, ts[..i], e.l);
    NotEmpty(POWER, ts[i + 1..], e.r);
    assert IsPower(ts, e, i);
  }

  lemma {:induction false} ReadSigned(ts: seq<Token>)
    ensures Reads(UNARY, ts, Unary(ts))
    decreases |ts|, PRIMARY - UNARY, 0
  {
    hide Derives, Primary;
    if Starts(ts, "++") || Starts(ts, "--") {
      if |ts| > 1 && ts[1].Id? {
        assert ts[..2] == [ts[0], ts[1]];
        SignedDerives(ts[..2], Unary(ts).e);
      }
    } else if Head(ts) in UNARY_OPS {
      ReadIsDerived(UNARY, ts[1..]);
      var a := Unary(ts[1..]);
      if a.Done? {
        var w := ts[..|ts| - |a.rest|];
        assert w[1..] == ts[1..][..|ts[1..]| - |a.rest|];
        NotEmpty(UNARY, w[1..], a.e);
        SignedDerives(w, Un(Head(ts), a.e));
      }
    } else {
      ReadIsDerived(PRIMARY, ts);
      if Primary(ts).Done? {
        TighterDerives(UNARY, ts[..|ts| - |Primary(ts).rest|], Primary(ts).e);
      }
    }
  }

  lemma SignedDerives(ts: seq<Token>, e: Ast)
    requires |ts| > 1 && (e.Un? || e.IncDec?)
    requires e.Un? ==> e.op in UNARY_OPS && ts[0] == Sym(e.op) && Derives(UNARY, ts[1..], e.e)
    requires e.IncDec? ==> e.prefix && (e.delta == 1 || e.delta == -1) && ts == [Sym(if e.delta == 1 then "++" else "--"), Id(e.x)]
    ensures Derives(UNARY, ts, e)
  {
    assert IsSigned(ts, e);
  }

  lemma {:induction false} ReadPrimary(ts: seq<Token>)
    ensures Reads(PRIMARY, ts, Primary(ts))
    decreases |ts|, 0, 0
  {
    hide Derives, Ternary;
    if Starts(ts, "(") {
      ReadIsDerived(TERNARY, ts[1..]);
      TernaryIsParseAt(ts[1..]);
      var q := Ternary(ts[1..]);
      if q.Done? && Starts(q.rest, ")") {
        BracketsDerive(ts, q.e, q.rest);
      }
    } else if ts != [] && ts[0].Id? && Starts(ts[1..], "[") {
      var key := ts[1..][1..];
      ReadIsDerived(TERNARY, key);
      TernaryIsParseAt(key);
      var q := Ternary(key);
      if q.Done? && Starts(q.rest, "]") {
        assert key == ts[2..] && ts[1] == ts[1..][0];
        ElementDerives(ts, ts[0].x, q.e, q.rest);
      }
    } else if Primary(ts).Done? {
      ReadLeaf(ts);
    }
  }

  lemma BracketsDerive(ts: seq<Token>, e: Ast, rest: seq<Token>)
    requires Starts(ts, "(") && IsSuffix(rest, ts[1..]) && Starts(rest, ")")
    requires Derives(0, ts[1..][..|ts[1..]| - |rest|], e)
    ensures Reads(PRIMARY, ts, Done(e, rest[1..]))
  {
    hide Derives;
    var w := ts[..|ts| - |rest| + 1];
    NotEmpty(0, ts[1..][..|ts[1..]| - |rest|], e);
    assert w[1..|w| - 1] == ts[1..][..|ts[1..]| - |rest|];
    assert w[|w| - 1] == rest[0];
    BracketedIsPrimary(w, e);
  }

  lemma BracketedIsPrimary(ts: seq<Token>, e: Ast)
    requires |ts| > 2 && ts[0] == Sym("(") && ts[|ts| - 1] == Sym(")") && Derives(0, ts[1..|ts| - 1], e)
    ensures Derives(PRIMARY, ts, e)
  {
    assert IsBracketed(ts, e);
    assert IsPrimary(ts, e);
  }

  lemma ElementDerives(ts: seq<Token>, x: string, key: Ast, rest: seq<Token>)
    requires |ts| > 1 && ts[0] == Id(x) && ts[1] == Sym("[") && IsSuffix(rest, ts[2..]) && Starts(rest, "]")
    requires Derives(0, ts[2..][..|ts[2..]| - |rest|], key)
    ensures Reads(PRIMARY, ts, Done(Index(x, key), rest[1..]))
  {
    hide Derives;
    var w := ts[..|ts| - |rest| + 1];
    NotEmpty(0, ts[2..][..|ts[2..]| - |rest|], key);
    assert w[2..|w| - 1] == ts[2..][..|ts[2..]| - |rest|];
    assert w[|w| - 1] == rest[0];
    ElementIsPrimary(w, Index(x, key));
  }

  lemma ElementIsPrimary(ts: seq<Token>, e: Ast)
    requires e.Index? && |ts| > 3 && ts[0] == Id(e.x) && ts[1] == Sym("[") && ts[|ts| - 1] == Sym("]")
    requires Derives(0, ts[2..|ts| - 1], e.key)
    ensures Derives(PRIMARY, ts, e)
  {
    assert IsPrimary(ts, e);
  }

  lemma ReadLeaf(ts: seq<Token>)
    requires Primary(ts).Done? && !Starts(ts, "(") && !(ts[0].Id? && Starts(ts[1..], "["))
    ensures Reads(PRIMARY, ts, Primary(ts))
  {
    hide Ternary;
    var p := Primary(ts);
    if ts[0].Id? && (Starts(ts[1..], "++") || Starts(ts[1..], "--")) {
      assert ts[..2] == [ts[0], ts[1]] && p.rest == ts[2..];
      assert IsPrimary(ts[..2], p.e);
    } else {
      assert ts[..1] == [ts[0]] && p.rest == ts[1..];
      assert IsPrimary(ts[..1], p.e);
    }
  }

  // ---------------------------------------------------------------- the whole text

  /** No expression has an assignment operator in it. */
  lemma {:induction false} NoAssignmentInside(k: nat, ts: seq<Token>, e: Ast, i: nat)
    requires k <= PRIMARY && Derives(k, ts, e) && i < |ts|
    ensures ts[i].Sym? ==> ts[i].s !in ASSIGN_OPS
    decreases |ts|, PRIMARY - k
  {
    if k == PRIMARY {
      if IsBracketed(ts, e) {
        if 0 < i < |ts| - 1 {
          NoAssignmentInside(0, ts[1..|ts| - 1], e, i - 1);
        }
      } else if e.Index? && 1 < i < |ts| - 1 {
        NoAssignmentInside(0, ts[2..|ts| - 1], e.key, i - 2);
      }
    } else if Derives(k + 1, ts, e) {
      NoAssignmentInside(k + 1, ts, e, i);
    } else if k == UNARY {
      if e.Un? && i > 0 {
        NoAssignmentInside(UNARY, ts[1..], e.e, i - 1);
      }
    } else if k == TERNARY {
      var m, n := ChoiceAt(ts, e);
      if i < m {
        NoAssignmentInside(1, ts[..m], e.test, i);
      } else if m < i < n {
        NoAssignmentInside(0, ts[m + 1..n], e.thn, i - m - 1);
      } else if i > n {
        NoAssignmentInside(0, ts[n + 1..], e.els, i - n - 1);
      }
    } else {
      NoAssignmentInOperation(k, ts, e, i);
    }
  }

  lemma {:induction false} NoAssignmentInOperation(k: nat, ts: seq<Token>, e: Ast, i: nat)
    requires 1 <= k <= POWER && Derives(k, ts, e) && !Derives(k + 1, ts, e) && i < |ts|
    ensures ts[i].Sym? ==> ts[i].s !in ASSIGN_OPS
    decreases |ts|, PRIMARY - k, 0
  {
    var m: nat;
    if k == POWER {
      m := PowerAt(ts, e);
    } else {
      m := OperationAt(k, ts, e);
    }
    if i < m {
      NoAssignmentInside(if k == POWER then UNARY else k, ts[..m], e.l, i);
    } else if i > m {
      NoAssignmentInside(if k == POWER then POWER else k + 1, ts[m + 1..], e.r, i - m - 1);
    }
  }

  lemma {:induction false} TextIsRead(ts: seq<Token>, e: Ast)
    requires IsText(ts, e)
    ensures Assignment(ts) == Done(e, [])
    decreases |ts|
  {
    if e.Assign? {
      TextIsRead(ts[2..], e.rhs);
    } else {
      DerivedIsRead(TERNARY, ts, e, []);
      assert ts + [] == ts;
      if |ts| > 1 {
        NoAssignmentInside(TERNARY, ts, e, 1);
      }
    }
  }

  lemma {:induction false} ReadIsText(ts: seq<Token>)
    requires Assignment(ts).Done? && Assignment(ts).rest == []
    ensures IsText(ts, Assignment(ts).e)
    decreases |ts|
  {
    if |ts| > 1 && ts[0].Id? && Head(ts[1..]) in ASSIGN_OPS {
      ReadIsText(ts[2..]);
    } else {
      ReadIsDerived(TERNARY, ts);
      assert ts[..|ts|] == ts;
      NeverAssigns(TERNARY, ts, Ternary(ts).e);
    }
  }

  lemma {:induction false} NeverAssigns(k: nat, ts: seq<Token>, e: Ast)
    requires k <= PRIMARY && Derives(k, ts, e)
    ensures !e.Assign?
    decreases |ts|, PRIMARY - k
  {
    if k == PRIMARY {
      if IsBracketed(ts, e) {
        NeverAssigns(0, ts[1..|ts| - 1], e);
      }
    } else if Derives(k + 1, ts, e) {
      NeverAssigns(k + 1, ts, e);
    }
  }

  /** The parser accepts exactly the texts of the grammar, redundant brackets and all, and gives each its tree. */
  lemma ParserIsGrammar(ts: seq<Token>, e: Ast)
    ensures ParseArith(ts) == Some(e) <==> IsText(ts, e)
  {
    if ParseArith(ts) == Some(e) {
      ReadIsText(ts);
    }
    if IsText(ts, e) {
      TextIsRead(ts, e);
    }
  }
}
