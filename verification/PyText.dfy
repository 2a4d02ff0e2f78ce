/** Python arithmetic as the parse tree's text: the tokens of an expression, and the
    text scanners (operator splitting, bracket stripping) the range evaluator is built on. */
module PyText {
  import opened Options

  datatype Token = Num(n: nat) | Id(x: string) | Op(c: char) | Open | Close | Comma | Left | Right

  datatype BinOp = Add | Sub | Mul | Mod | Div | FloorDiv

  /** What is open after the token t; None if it closes a bracket of another kind, or none. */
  function Next(t: Token, st: seq<Token>): Option<seq<Token>> {
    if t.Open? || t.Left? then Some(st + [t])
    else if t.Close? then if st == [] || !st[|st| - 1].Open? then None else Some(st[..|st| - 1])
    else if t.Right? then if st == [] || !st[|st| - 1].Left? then None else Some(st[..|st| - 1])
    else Some(st)
  }

  /** What is open after s, where st was open before it. */
  function Unwind(s: seq<Token>, st: seq<Token>): Option<seq<Token>> {
    if s == [] then Some(st)
    else
      match Next(s[0], st)
      case None => None
      case Some(st') => Unwind(s[1..], st')
  }

  /** Every bracket is matched by one of its own kind. */
  predicate Bracketed(s: seq<Token>) {
    Unwind(s, []) == Some([])
  }

  /** `int(x)`, `abs(x)`, `min(x, y)` or `max(x, y)`: a call of a known function with its number of arguments. */
  predicate IsKnownCall(s: seq<Token>) {
    && |s| >= 3 && s[0].Id? && s[1].Open? && s[|s| - 1].Close? && Bracketed(s[2..|s| - 1])
    && var args := s[2..|s| - 1];
       var comma := CommaAt(args, 0);
       if s[0].x in {"int", "abs"} then args != [] && comma.None?
       else s[0].x in {"min", "max"} && comma.Some? && CommaAt(args[comma.value + 1..], 0).None?
  }

  /** The text of a call of any other function, with any arguments, of a subscript, a list or a dictionary: its
      brackets match, no operator or comma stands outside them, and it does not begin with a round one. */
  predicate IsAtom(s: seq<Token>) {
    && |s| >= 2 && !s[0].Open? && Bracketed(s) && !IsKnownCall(s)
    && forall i :: 0 <= i < |s| && Bracketed(s[..i]) ==> !s[i].Op? && !s[i].Comma?
  }

  type AtomText = s: seq<Token> | IsAtom(s) witness EmptyList()

  /** `[]`. */
  function EmptyList(): (s: seq<Token>)
    ensures IsAtom(s)
  {
    EmptyListIsAtom();
    [Left, Right]
  }

  lemma EmptyListIsAtom()
    ensures IsAtom([Left, Right])
  {
    var s := [Left, Right];
    assert s[1..] == [Right] && s[..1] == [Left] && [] + [Left] == [Left] && [Left][..0] == [];
    assert Unwind([Right], [Left]) == Some([]);
    assert Unwind([Left], []) == Some([Left]);
  }

  /** Python's arithmetic expressions, with the parentheses the programmer wrote. */
  datatype Expr =
    | Lit(n: nat)
    | Name(x: string)
    | Bin(op: BinOp, l: Expr, r: Expr)
    | Neg(e: Expr)
    | Pos(e: Expr)
    | Pow(base: Expr, exponent: Expr)
    | Paren(e: Expr)
    | Call1(f: string, e: Expr)
    | Call2(f: string, a: Expr, b: Expr)
    | Atom(s: AtomText)

  /** Section 6.17 of the Python reference: 0 sums, 1 products, 2 signs, 3 powers, 4 atoms. */
  function OpLevel(op: BinOp): nat {
    if op.Add? || op.Sub? then 0 else 1
  }

  function Level(e: Expr): nat {
    match e
    case Bin(op, _, _) => OpLevel(op)
    case Neg(_) | Pos(_) => 2
    case Pow(_, _) => 3
    case _ => 4
  }

  /** e is a parse tree: operators associate to the left, powers to the right. */
  predicate WellFormed(e: Expr) {
    match e
    case Lit(_) | Name(_) | Atom(_) => true
    case Bin(op, l, r) =>
      WellFormed(l) && WellFormed(r) && Level(l) >= OpLevel(op) && Level(r) > OpLevel(op)
    case Neg(a) => WellFormed(a) && Level(a) >= 2
    case Pos(a) => WellFormed(a) && Level(a) >= 2
    case Pow(b, x) => WellFormed(b) && WellFormed(x) && Level(b) == 4 && Level(x) >= 2
    case Paren(a) => WellFormed(a)
    case Call1(_, a) => WellFormed(a)
    case Call2(_, a, b) => WellFormed(a) && WellFormed(b)
  }

  function Symbol(op: BinOp): seq<Token> {
    match op
    case Add => [Op('+')]
    case Sub => [Op('-')]
    case Mul => [Op('*')]
    case Mod => [Op('%')]
    case Div => [Op('/')]
    case FloorDiv => [Op('/'), Op('/')]
  }

  function Text(e: Expr): (s: seq<Token>)
    ensures s != []
  {
    match e
    case Lit(n) => [Num(n)]
    case Name(x) => [Id(x)]
    case Bin(op, l, r) => Text(l) + Symbol(op) + Text(r)
    case Neg(a) => [Op('-')] + Text(a)
    case Pos(a) => [Op('+')] + Text(a)
    case Pow(b, x) => Text(b) + [Op('*'), Op('*')] + Text(x)
    case Paren(a) => [Open] + Text(a) + [Close]
    case Call1(f, a) => [Id(f), Open] + Text(a) + [Close]
    case Call2(f, a, b) => [Id(f), Open] + Text(a) + [Comma] + Text(b) + [Close]
    case Atom(t) => t
  }

  lemma Regroup(a: seq<Token>, b: seq<Token>, c: seq<Token>, k: seq<Token>)
    ensures a + b + c + k == a + (b + (c + k)) == a + (b + c + k)
  {
  }

  // ---------------------------------------------------------------- operator splitting

  /** Brackets of every kind are counted: round ones, and square or curly ones (Left and Right). */
  predicate Opens(t: Token) { t.Open? || t.Left? }

  predicate Closes(t: Token) { t.Close? || t.Right? }

  /** Whether token t, following p and followed by a `*` or not, is an operator to split at:
      not the first token, not after another operator, not the left half of `**`. */
  predicate SplitsHere(p: seq<Token>, t: Token, star: bool, ops: set<char>) {
    t.Op? && t.c in ops && p != [] && !p[|p| - 1].Op? && !(t.c == '*' && star)
  }

  /** The rightmost split position of s, scanning leftwards from its end at a bracket depth. */
  function Scan(s: seq<Token>, star: bool, ops: set<char>, depth: int): (r: Option<nat>)
    ensures r.Some? ==> 0 < r.value < |s| && s[r.value].Op? && s[r.value].c in ops && !s[r.value - 1].Op?
  {
    if s == [] then None
    else
      var p, t := s[..|s| - 1], s[|s| - 1];
      if Closes(t) then Scan(p, false, ops, depth + 1)
      else if Opens(t) then Scan(p, false, ops, depth - 1)
      else if depth == 0 && SplitsHere(p, t, star, ops) then Some(|p|)
      else Scan(p, t == Op('*'), ops, depth)
  }

  function SplitAt(s: seq<Token>, ops: set<char>): (r: Option<nat>)
    ensures r.Some? ==> 0 < r.value < |s| && s[r.value].Op? && s[r.value].c in ops && !s[r.value - 1].Op?
  {
    Scan(s, false, ops, 0)
  }

  lemma ScanStep(p: seq<Token>, t: Token, star: bool, ops: set<char>, d: int)
    ensures Scan(p + [t], star, ops, d) ==
            if Closes(t) then Scan(p, false, ops, d + 1)
            else if Opens(t) then Scan(p, false, ops, d - 1)
            else if d == 0 && SplitsHere(p, t, star, ops) then Some(|p|)
            else Scan(p, t == Op('*'), ops, d)
  {
  }

  lemma ScanNothing(star: bool, ops: set<char>, d: int)
    ensures Scan([], star, ops, d) == None
  {
  }

  /** The source's scanning loop. */
  method SplitTop(s: seq<Token>, ops: set<char>) returns (r: Option<nat>)
    ensures r == SplitAt(s, ops)
  {
    hide Scan;
    var depth := 0;
    var i := |s| - 1;
    assert s[..i + 1] == s;
    while i >= 0
      invariant -1 <= i < |s|
      invariant SplitAt(s, ops) == Scan(s[..i + 1], i + 1 < |s| && s[i + 1] == Op('*'), ops, depth)
      decreases i
    {
      assert s[..i + 1] == s[..i] + [s[i]];
      ScanStep(s[..i], s[i], i + 1 < |s| && s[i + 1] == Op('*'), ops, depth);
      if Closes(s[i]) {
        depth := depth + 1;
      } else if Opens(s[i]) {
        depth := depth - 1;
      } else if depth == 0 && s[i].Op? && s[i].c in ops && i > 0 && !s[i - 1].Op?
             && !(s[i].c == '*' && i + 1 < |s| && s[i + 1] == Op('*')) {
        return Some(i);
      }
      i := i - 1;
    }
    assert s[..0] == [];
    ScanNothing(i + 1 < |s| && s[i + 1] == Op('*'), ops, depth);
    return None;
  }

  /** Position of the first comma outside brackets, scanning rightwards from a bracket depth. */
  function CommaAt(s: seq<Token>, depth: int): (r: Option<nat>)
    ensures r.Some? ==> r.value < |s| && s[r.value].Comma?
  {
    if s == [] then None
    else if s[0].Comma? && depth == 0 then Some(0)
    else
      var rest := CommaAt(s[1..], if Opens(s[0]) then depth + 1 else if Closes(s[0]) then depth - 1 else depth);
      Later(1, rest)
  }

  function Later(n: nat, r: Option<nat>): Option<nat> {
    if r.None? then None else Some(n + r.value)
  }

  lemma CommaFrom(s: seq<Token>, i: nat, d: int)
    requires i < |s|
    ensures CommaAt(s[i..], d)
            == if s[i].Comma? && d == 0 then Some(0)
               else Later(1, CommaAt(s[i + 1..], if Opens(s[i]) then d + 1 else if Closes(s[i]) then d - 1 else d))
  {
  }

  lemma CommaNone(s: seq<Token>, d: int)
    requires s == []
    ensures CommaAt(s, d) == None
  {
  }

  method SplitTopComma(s: seq<Token>) returns (r: Option<nat>)
    ensures r == CommaAt(s, 0)
  {
    hide CommaAt;
    var depth := 0;
    assert s[0..] == s;
    for i := 0 to |s|
      invariant CommaAt(s, 0) == Later(i, CommaAt(s[i..], depth))
    {
      CommaFrom(s, i, depth);
      if Opens(s[i]) {
        depth := depth + 1;
      } else if Closes(s[i]) {
        depth := depth - 1;
      } else if s[i].Comma? && depth == 0 {
        return Some(i);
      }
    }
    CommaNone(s[|s|..], depth);
    return None;
  }

  // ---------------------------------------------------------------- brackets

  /** Bracket depth reached from d, or None once it falls below zero. */
  function Depth(s: seq<Token>, d: nat): Option<nat> {
    if s == [] then Some(d)
    else if s[0].Open? then Depth(s[1..], d + 1)
    else if s[0].Close? then (if d == 0 then None else Depth(s[1..], d - 1))
    else Depth(s[1..], d)
  }

  predicate IsBalanced(s: seq<Token>) {
    Depth(s, 0) == Some(0)
  }

  method Balanced(s: seq<Token>) returns (b: bool)
    ensures b == IsBalanced(s)
  {
    var depth := 0;
    for i := 0 to |s|
      invariant depth >= 0
      invariant Depth(s, 0) == Depth(s[i..], depth)
    {
      if s[i].Open? {
        depth := depth + 1;
      } else if s[i].Close? {
        depth := depth - 1;
        if depth < 0 {
          return false;
        }
      }
    }
    return depth == 0;
  }

  predicate Wrapped(s: seq<Token>) {
    |s| >= 2 && s[0].Open? && s[|s| - 1].Close? && IsBalanced(s[1..|s| - 1])
  }

  function Strip(s: seq<Token>): (r: seq<Token>)
    ensures |r| <= |s| && !Wrapped(r)
  {
    if Wrapped(s) then Strip(s[1..|s| - 1]) else s
  }

  method StripOuterParens(s: seq<Token>) returns (r: seq<Token>)
    ensures r == Strip(s)
  {
    r := s;
    while |r| >= 2 && r[0].Open? && r[|r| - 1].Close?
      invariant Strip(r) == Strip(s)
      decreases |r|
    {
      var b := Balanced(r[1..|r| - 1]);
      if !b {
        break;
      }
      r := r[1..|r| - 1];
    }
  }

  // ---------------------------------------------------------------- scanning a tree's text

  lemma DepthConcat(s: seq<Token>, k: seq<Token>, d: nat)
    ensures Depth(s + k, d) == match Depth(s, d) case None => None case Some(d') => Depth(k, d')
  {
    if s == [] {
      assert s + k == k;
    } else {
      assert (s + k)[1..] == s[1..] + k;
    }
  }

  lemma DepthBrackets(s: seq<Token>, d: nat)
    requires Depth(s, d + 1) == Some(d + 1)
    ensures Depth([Open] + s + [Close], d) == Some(d)
  {
    DepthConcat(s, [Close], d + 1);
    assert ([Open] + s + [Close])[1..] == s + [Close];
  }

  /** An expression's text leaves the bracket depth where it was. */
  lemma {:induction false} TextIsBalanced(e: Expr, d: nat)
    ensures Depth(Text(e), d) == Some(d)
  {
    hide Depth;
    match e
    case Lit(n) => TokenDepth(Num(n), d);
    case Name(x) => TokenDepth(Id(x), d);
    case Bin(op, l, r) =>
      TextIsBalanced(l, d); TextIsBalanced(r, d);
      SymbolDepth(op, d);
      DepthConcat(Text(l), Symbol(op), d);
      DepthConcat(Text(l) + Symbol(op), Text(r), d);
    case Neg(a) =>
      TextIsBalanced(a, d);
      TokenDepth(Op('-'), d);
      DepthConcat([Op('-')], Text(a), d);
    case Pos(a) =>
      TextIsBalanced(a, d);
      TokenDepth(Op('+'), d);
      DepthConcat([Op('+')], Text(a), d);
    case Pow(b, x) =>
      TextIsBalanced(b, d); TextIsBalanced(x, d);
      PowDepth(Text(b), Text(x), d);
    case Paren(a) =>
      TextIsBalanced(a, d + 1);
      DepthBrackets(Text(a), d);
    case Call1(f, a) =>
      TextIsBalanced(a, d + 1);
      CallDepth(f, Text(a), d);
    case Call2(f, a, b) =>
      TextIsBalanced(a, d + 1); TextIsBalanced(b, d + 1);
      Call2Depth(f, Text(a), Text(b), d);
    case Atom(t) => UnwindDepth(t, [], d);
  }

  /** How many of the open brackets are round. */
  function Rounds(st: seq<Token>): nat {
    if st == [] then 0 else (if st[|st| - 1].Open? then 1 else 0) + Rounds(st[..|st| - 1])
  }

  lemma NextDepth(t: Token, st: seq<Token>, k: seq<Token>, d: nat)
    requires Next(t, st).Some?
    ensures Depth([t] + k, Rounds(st) + d) == Depth(k, Rounds(Next(t, st).value) + d)
  {
    assert ([t] + k)[1..] == k;
    if Opens(t) {
      assert (st + [t])[..|st|] == st;
    }
  }

  lemma {:induction false} UnwindDepth(s: seq<Token>, st: seq<Token>, d: nat)
    requires Unwind(s, st).Some?
    ensures Depth(s, Rounds(st) + d) == Some(Rounds(Unwind(s, st).value) + d)
    decreases |s|
  {
    if s != [] {
      NextDepth(s[0], st, s[1..], d);
      assert s == [s[0]] + s[1..];
      hide Depth, Rounds, Next;
      UnwindDepth(s[1..], Next(s[0], st).value, d);
    }
  }

  lemma {:induction false} UnwindConcat(s: seq<Token>, k: seq<Token>, st: seq<Token>)
    ensures Unwind(s + k, st) == match Unwind(s, st) case None => None case Some(st') => Unwind(k, st')
    decreases |s|
  {
    if s == [] {
      assert s + k == k;
    } else {
      assert (s + k)[1..] == s[1..] + k;
      if Next(s[0], st).Some? {
        UnwindConcat(s[1..], k, Next(s[0], st).value);
      }
    }
  }

  lemma UnwindOne(t: Token, st: seq<Token>)
    ensures Unwind([t], st) == Next(t, st)
  {
  }

  /** What was open before stays open. */
  lemma {:induction false} UnwindOver(s: seq<Token>, below: seq<Token>, st: seq<Token>)
    requires Unwind(s, st).Some?
    ensures Unwind(s, below + st) == Some(below + Unwind(s, st).value)
    decreases |s|
  {
    if s != [] {
      var st' := Next(s[0], st).value;
      assert Next(s[0], below + st) == Some(below + st') by {
        if Opens(s[0]) {
          assert below + st + [s[0]] == below + st';
        } else if Closes(s[0]) {
          assert (below + st)[..|below + st| - 1] == below + st';
        }
      }
      UnwindOver(s[1..], below, st');
    }
  }

  /** The tokens of an atom that stand outside brackets are neither operators nor commas. */
  lemma AtomStep(t: AtomText, i: nat)
    requires i < |t|
    ensures Unwind(t[..i], []).Some? && Unwind(t[..i + 1], []).Some?
    ensures Next(t[i], Unwind(t[..i], []).value) == Unwind(t[..i + 1], [])
    ensures Unwind(t[..i], []).value == [] ==> !t[i].Op? && !t[i].Comma?
  {
    assert t[..i + 1] == t[..i] + [t[i]] && t == t[..i + 1] + t[i + 1..];
    UnwindConcat(t[..i], [t[i]], []);
    UnwindConcat(t[..i + 1], t[i + 1..], []);
    UnwindOne(t[i], if Unwind(t[..i], []).Some? then Unwind(t[..i], []).value else []);
    if Unwind(t[..i], []) == Some([]) {
      assert Bracketed(t[..i]);
    }
  }

  /** An expression's brackets match. */
  lemma {:induction false} TextIsBracketed(e: Expr, st: seq<Token>)
    ensures Unwind(Text(e), st) == Some(st)
    decreases e
  {
    hide Unwind;
    match e
    case Lit(n) => UnwindOne(Num(n), st);
    case Name(x) => UnwindOne(Id(x), st);
    case Bin(op, l, r) =>
      TextIsBracketed(l, st); TextIsBracketed(r, st);
      SymbolUnwinds(op, st);
      UnwindConcat(Text(l), Symbol(op), st);
      UnwindConcat(Text(l) + Symbol(op), Text(r), st);
    case Neg(a) => TextIsBracketed(a, st); UnwindOne(Op('-'), st); UnwindConcat([Op('-')], Text(a), st);
    case Pos(a) => TextIsBracketed(a, st); UnwindOne(Op('+'), st); UnwindConcat([Op('+')], Text(a), st);
    case Pow(b, x) =>
      TextIsBracketed(b, st); TextIsBracketed(x, st);
      TwiceUnwinds('*', st);
      UnwindConcat(Text(b), [Op('*'), Op('*')], st);
      UnwindConcat(Text(b) + [Op('*'), Op('*')], Text(x), st);
    case Paren(a) =>
      TextIsBracketed(a, st + [Open]);
      UnwindBrackets(Text(a), st);
    case Call1(f, a) =>
      TextIsBracketed(a, st + [Open]);
      UnwindBrackets(Text(a), st);
      UnwindCall(f, Text(a), st);
    case Call2(f, a, b) =>
      TextIsBracketed(a, st + [Open]); TextIsBracketed(b, st + [Open]);
      UnwindPair(Text(a), Text(b), st + [Open]);
      var args := Text(a) + [Comma] + Text(b);
      UnwindBrackets(args, st);
      UnwindCall(f, args, st);
      assert Text(e) == [Id(f), Open] + args + [Close];
    case Atom(t) =>
      UnwindOver(t, st, []);
      assert st + [] == st;
  }

  lemma SymbolUnwinds(op: BinOp, st: seq<Token>)
    ensures Unwind(Symbol(op), st) == Some(st)
  {
    UnwindOne(Op(Symbol(op)[0].c), st);
    if op.FloorDiv? {
      TwiceUnwinds('/', st);
    }
  }

  lemma TwiceUnwinds(c: char, st: seq<Token>)
    ensures Unwind([Op(c), Op(c)], st) == Some(st)
  {
    UnwindOne(Op(c), st);
    UnwindConcat([Op(c)], [Op(c)], st);
    assert [Op(c)] + [Op(c)] == [Op(c), Op(c)];
  }

  lemma UnwindBrackets(s: seq<Token>, st: seq<Token>)
    requires Unwind(s, st + [Open]) == Some(st + [Open])
    ensures Unwind([Open] + s + [Close], st) == Some(st)
  {
    UnwindConcat(s, [Close], st + [Open]);
    UnwindOne(Close, st + [Open]);
    assert ([Open] + s + [Close])[1..] == s + [Close];
  }

  lemma UnwindCall(f: string, s: seq<Token>, st: seq<Token>)
    requires Unwind([Open] + s + [Close], st) == Some(st)
    ensures Unwind([Id(f), Open] + s + [Close], st) == Some(st)
  {
    hide Unwind;
    UnwindOne(Id(f), st);
    UnwindConcat([Id(f)], [Open] + s + [Close], st);
    assert [Id(f), Open] + s + [Close] == [Id(f)] + ([Open] + s + [Close]);
  }

  lemma UnwindPair(a: seq<Token>, b: seq<Token>, st: seq<Token>)
    requires Unwind(a, st) == Some(st) && Unwind(b, st) == Some(st)
    ensures Unwind(a + [Comma] + b, st) == Some(st)
  {
    UnwindOne(Comma, st);
    UnwindConcat(a, [Comma], st);
    UnwindConcat(a + [Comma], b, st);
  }

  lemma Call2Depth(f: string, a: seq<Token>, b: seq<Token>, d: nat)
    requires Depth(a, d + 1) == Some(d + 1) && Depth(b, d + 1) == Some(d + 1)
    ensures Depth([Id(f), Open] + a + [Comma] + b + [Close], d) == Some(d)
  {
    hide Depth;
    TokenDepth(Comma, d + 1);
    DepthConcat(a, [Comma], d + 1);
    DepthConcat(a + [Comma], b, d + 1);
    CallDepth(f, a + [Comma] + b, d);
    assert [Id(f), Open] + a + [Comma] + b + [Close] == [Id(f), Open] + (a + [Comma] + b) + [Close];
  }

  lemma PowDepth(b: seq<Token>, x: seq<Token>, d: nat)
    requires Depth(b, d) == Some(d) && Depth(x, d) == Some(d)
    ensures Depth(b + [Op('*'), Op('*')] + x, d) == Some(d)
  {
    TokenDepth(Op('*'), d);
    DepthConcat([Op('*')], [Op('*')], d);
    assert [Op('*'), Op('*')] == [Op('*')] + [Op('*')];
    DepthConcat(b, [Op('*'), Op('*')], d);
    DepthConcat(b + [Op('*'), Op('*')], x, d);
  }

  lemma CallDepth(f: string, s: seq<Token>, d: nat)
    requires Depth(s, d + 1) == Some(d + 1)
    ensures Depth([Id(f), Open] + s + [Close], d) == Some(d)
  {
    DepthBrackets(s, d);
    assert ([Id(f), Open] + s + [Close])[1..] == [Open] + s + [Close];
  }

  lemma TokenDepth(t: Token, d: nat)
    requires !t.Open? && !t.Close?
    ensures Depth([t], d) == Some(d)
  {
  }

  lemma SymbolDepth(op: BinOp, d: nat)
    ensures Depth(Symbol(op), d) == Some(d)
    decreases op.FloorDiv?
  {
    if op.FloorDiv? {
      SymbolDepth(Div, d);
      DepthConcat([Op('/')], [Op('/')], d);
      assert Symbol(op) == [Op('/')] + [Op('/')];
    }
  }

  /** No text begins with `*`, `/` or `%`, or ends with any operator. */
  lemma TextEnds(e: Expr)
    ensures !Text(e)[|Text(e)| - 1].Op?
    ensures Text(e)[0].Op? ==> Text(e)[0].c in {'+', '-'}
  {
    if e.Atom? {
      AtomEnds(e.s);
    }
  }

  lemma AtomEnds(t: AtomText)
    ensures !t[0].Op? && !t[|t| - 1].Op? && !t[0].Close?
  {
    AtomStep(t, 0);
    AtomStep(t, |t| - 1);
    assert t[..0] == [] && t[..|t|] == t;
  }

  /** e offers no split for ops outside its brackets. */
  predicate NoSplit(e: Expr, ops: set<char>) {
    match e
    case Bin(op, l, r) => Symbol(op)[0].c !in ops && NoSplit(l, ops) && NoSplit(r, ops)
    case _ => true
  }

  /** What must hold left of an expression for the scan to pass over all of it: it is inside
      brackets, or it offers no split and stands at the start or after an operator. */
  predicate Passes(p: seq<Token>, e: Expr, ops: set<char>, d: int) {
    d > 0 || (d == 0 && NoSplit(e, ops) && (p == [] || p[|p| - 1].Op?))
  }

  lemma {:induction false} ScanOver(p: seq<Token>, e: Expr, star: bool, ops: set<char>, d: int)
    requires WellFormed(e) && Passes(p, e, ops, d)
    ensures Scan(p + Text(e), star, ops, d) == Scan(p, false, ops, d)
    decreases e, 2
  {
    hide Scan;
    match e
    case Lit(n) => ScanStep(p, Num(n), star, ops, d);
    case Name(x) => ScanStep(p, Id(x), star, ops, d);
    case Bin(op, l, r) => ScanOverBin(p, op, l, r, star, ops, d);
    case Neg(b) => ScanOverSign(p, Op('-'), b, star, ops, d);
    case Pos(b) => ScanOverSign(p, Op('+'), b, star, ops, d);
    case Pow(b, x) => ScanOverPow(p, b, x, star, ops, d);
    case Paren(b) =>
      ScanOverBrackets(p, b, star, ops, d);
      assert p + ([Open] + Text(b) + [Close]) == p + [Open] + Text(b) + [Close];
    case Call1(f, b) => ScanOverCall(p, f, b, star, ops, d);
    case Call2(f, b, c) => ScanOverPair(p, f, b, c, star, ops, d);
    case Atom(t) =>
      assert t[..|t|] == t;
      ScanOverAtom(p, t, |t|, star, ops, d);
  }

  /** Scanning leftwards from the i-th token of an atom, whatever is open there. */
  lemma {:induction false} ScanOverAtom(p: seq<Token>, t: AtomText, i: nat, star: bool, ops: set<char>, d: int)
    requires 0 < i <= |t| && d >= 0 && Unwind(t[..i], []).Some?
    ensures Scan(p + t[..i], star, ops, d + |Unwind(t[..i], []).value|) == Scan(p, false, ops, d)
    decreases i
  {
    hide Scan, Unwind;
    var w, c := t[..i - 1], t[i - 1];
    assert p + t[..i] == p + w + [c];
    AtomStep(t, i - 1);
    ScanStep(p + w, c, star, ops, d + |Unwind(t[..i], []).value|);
    if i == 1 {
      assert w == [] && p + w == p;
      UnwindNothing();
    } else {
      ScanOverAtom(p, t, i - 1, if Opens(c) || Closes(c) then false else c == Op('*'), ops, d);
    }
  }

  lemma UnwindNothing()
    ensures Unwind([], []) == Some([])
  {
  }

  lemma {:induction false} ScanOverPair(p: seq<Token>, f: string, b: Expr, c: Expr, star: bool, ops: set<char>, d: int)
    requires WellFormed(b) && WellFormed(c) && d >= 0
    ensures Scan(p + Text(Call2(f, b, c)), star, ops, d) == Scan(p, false, ops, d)
    decreases Call2(f, b, c), 1
  {
    hide Scan;
    PairAfter(p, f, b, c);
    hide Text;
    var q := p + [Id(f)] + [Open] + Text(b) + [Comma];
    ScanStep(q + Text(c), Close, star, ops, d);
    ScanOver(q, c, false, ops, d + 1);
    ScanStep(p + [Id(f)] + [Open] + Text(b), Comma, false, ops, d + 1);
    ScanOver(p + [Id(f)] + [Open], b, false, ops, d + 1);
    ScanStep(p + [Id(f)], Open, false, ops, d + 1);
    ScanStep(p, Id(f), false, ops, d);
  }

  lemma PairAfter(p: seq<Token>, f: string, b: Expr, c: Expr)
    ensures p + Text(Call2(f, b, c)) == p + [Id(f)] + [Open] + Text(b) + [Comma] + Text(c) + [Close]
  {
    var s, t := Text(b), Text(c);
    assert Text(Call2(f, b, c)) == [Id(f), Open] + s + [Comma] + t + [Close];
    hide Text;
    assert [Id(f), Open] == [Id(f)] + [Open];
  }

  lemma {:induction false} ScanOverBrackets(p: seq<Token>, b: Expr, star: bool, ops: set<char>, d: int)
    requires WellFormed(b) && d >= 0
    ensures Scan(p + [Open] + Text(b) + [Close], star, ops, d) == Scan(p, false, ops, d)
    decreases b, 3
  {
    hide Scan;
    ScanStep(p + [Open] + Text(b), Close, star, ops, d);
    ScanOver(p + [Open], b, false, ops, d + 1);
    ScanStep(p, Open, false, ops, d + 1);
  }

  lemma {:induction false} ScanOverCall(p: seq<Token>, f: string, b: Expr, star: bool, ops: set<char>, d: int)
    requires WellFormed(b) && d >= 0
    ensures Scan(p + Text(Call1(f, b)), star, ops, d) == Scan(p, false, ops, d)
    decreases b, 4
  {
    hide Scan;
    ScanOverBrackets(p + [Id(f)], b, star, ops, d);
    ScanStep(p, Id(f), false, ops, d);
    assert p + ([Id(f), Open] + Text(b) + [Close]) == p + [Id(f)] + [Open] + Text(b) + [Close];
  }

  lemma {:induction false} ScanOverSign(p: seq<Token>, sign: Token, b: Expr, star: bool, ops: set<char>, d: int)
    requires WellFormed(b) && Level(b) >= 2 && sign in {Op('-'), Op('+')}
    requires d > 0 || (d == 0 && (p == [] || p[|p| - 1].Op?))
    ensures Scan(p + ([sign] + Text(b)), star, ops, d) == Scan(p, false, ops, d)
    decreases b, 3
  {
    hide Scan;
    assert p + ([sign] + Text(b)) == p + [sign] + Text(b);
    ScanOver(p + [sign], b, star, ops, d);
    ScanStep(p, sign, false, ops, d);
  }

  lemma {:induction false} ScanOverPow(p: seq<Token>, b: Expr, x: Expr, star: bool, ops: set<char>, d: int)
    requires WellFormed(b) && WellFormed(x) && Level(b) == 4 && Level(x) >= 2
    requires d > 0 || (d == 0 && (p == [] || p[|p| - 1].Op?))
    ensures Scan(p + Text(Pow(b, x)), star, ops, d) == Scan(p, false, ops, d)
    decreases Pow(b, x), 1
  {
    hide Scan, Text;
    var q := p + Text(b);
    PowAfter(p, b, x);
    ScanOver(q + [Op('*')] + [Op('*')], x, star, ops, d);
    ScanStep(q + [Op('*')], Op('*'), false, ops, d);
    ScanStep(q, Op('*'), true, ops, d);
    ScanOver(p, b, true, ops, d);
  }

  lemma PowAfter(p: seq<Token>, b: Expr, x: Expr)
    ensures p + Text(Pow(b, x)) == p + Text(b) + [Op('*')] + [Op('*')] + Text(x)
  {
    var s, t := Text(b), Text(x);
    assert Text(Pow(b, x)) == s + [Op('*'), Op('*')] + t;
    hide Text;
    assert p + (s + [Op('*'), Op('*')] + t) == p + s + [Op('*')] + [Op('*')] + t;
  }

  lemma {:induction false} ScanOverBin(p: seq<Token>, op: BinOp, l: Expr, r: Expr, star: bool, ops: set<char>, d: int)
    requires WellFormed(Bin(op, l, r)) && Passes(p, Bin(op, l, r), ops, d)
    ensures Scan(p + Text(Bin(op, l, r)), star, ops, d) == Scan(p, false, ops, d)
    decreases Bin(op, l, r), 1
  {
    hide Scan;
    var q := p + Text(l);
    ScanOver(p, l, op.Mul?, ops, d);
    Regroup(p, Text(l), Symbol(op), Text(r));
    assert p + Text(Bin(op, l, r)) == q + Symbol(op) + Text(r);
    ScanOver(q + Symbol(op), r, star, ops, d);
    if op.FloorDiv? {
      assert q + Symbol(op) == q + [Op('/')] + [Op('/')];
      ScanStep(q + [Op('/')], Op('/'), false, ops, d);
      ScanStep(q, Op('/'), false, ops, d);
    } else {
      ScanStep(q, Symbol(op)[0], false, ops, d);
    }
  }

  // ---------------------------------------------------------------- commas

  predicate Plain(w: seq<Token>) {
    forall t :: t in w ==> t.Num? || t.Id? || t.Op?
  }

  lemma CommaStep(t: Token, k: seq<Token>, d: nat)
    requires !(t.Comma? && d == 0) && !(Closes(t) && d == 0)
    ensures CommaAt([t] + k, d)
            == Later(1, CommaAt(k, if Opens(t) then d + 1 else if Closes(t) then d - 1 else d))
  {
  }

  lemma {:induction false} CommaPlain(w: seq<Token>, k: seq<Token>, d: nat)
    requires Plain(w)
    ensures CommaAt(w + k, d) == Later(|w|, CommaAt(k, d))
  {
    hide CommaAt;
    if w == [] {
      assert w + k == k;
    } else {
      assert w + k == [w[0]] + (w[1..] + k);
      assert w[0] in w;
      CommaStep(w[0], w[1..] + k, d);
      CommaPlain(w[1..], k, d);
    }
  }

  function TreeSize(e: Expr): (n: nat)
    ensures n > 0
  {
    match e
    case Lit(_) | Name(_) | Atom(_) => 1
    case Bin(_, l, r) => 1 + TreeSize(l) + TreeSize(r)
    case Pow(l, r) => 1 + TreeSize(l) + TreeSize(r)
    case Call2(_, l, r) => 1 + TreeSize(l) + TreeSize(r)
    case Neg(a) => 1 + TreeSize(a)
    case Pos(a) => 1 + TreeSize(a)
    case Paren(a) => 1 + TreeSize(a)
    case Call1(_, a) => 1 + TreeSize(a)
  }

  /** Scanning rightwards over an expression's text meets no comma outside brackets. */
  lemma {:induction false} CommaOver(e: Expr, k: seq<Token>, d: nat)
    ensures CommaAt(Text(e) + k, d) == Later(|Text(e)|, CommaAt(k, d))
    decreases TreeSize(e), 0
  {
    hide CommaAt, Later;
    match e
    case Lit(n) => CommaPlain([Num(n)], k, d);
    case Name(x) => CommaPlain([Id(x)], k, d);
    case Bin(op, l, r) => CommaOverInfix(l, Symbol(op), r, k, d);
    case Pow(b, x) => CommaOverInfix(b, [Op('*'), Op('*')], x, k, d);
    case Neg(a) => CommaOverPrefixed([Op('-')], a, k, d);
    case Pos(a) => CommaOverPrefixed([Op('+')], a, k, d);
    case Paren(a) => CommaOverBrackets(a, k, d);
    case Call1(f, a) => CommaOverCall(f, a, k, d);
    case Call2(f, a, b) => CommaOverPair(f, a, b, k, d);
    case Atom(t) =>
      assert t[..0] == [] && t[0..] == t;
      CommaOverAtom(t, 0, k, d);
  }

  lemma {:induction false} CommaOverAtom(t: AtomText, i: nat, k: seq<Token>, d: nat)
    requires i <= |t| && Unwind(t[..i], []).Some?
    ensures CommaAt(t[i..] + k, d + |Unwind(t[..i], []).value|) == Later(|t| - i, CommaAt(k, d))
    decreases |t| - i
  {
    hide CommaAt, Unwind;
    if i == |t| {
      assert t[i..] + k == k && t[..i] == t;
    } else {
      var c, st := t[i], Unwind(t[..i], []).value;
      assert t[i..] + k == [c] + (t[i + 1..] + k);
      AtomStep(t, i);
      CommaStep(c, t[i + 1..] + k, d + |st|);
      CommaOverAtom(t, i + 1, k, d);
    }
  }

  lemma {:induction false} CommaOverInfix(l: Expr, w: seq<Token>, r: Expr, k: seq<Token>, d: nat)
    requires Plain(w)
    ensures CommaAt(Text(l) + w + Text(r) + k, d) == Later(|Text(l) + w + Text(r)|, CommaAt(k, d))
    decreases TreeSize(l) + TreeSize(r), 1
  {
    hide CommaAt, Text;
    CommaOver(r, k, d);
    CommaPlain(w, Text(r) + k, d);
    CommaOver(l, w + (Text(r) + k), d);
    Regroup(Text(l), w, Text(r), k);
  }

  lemma {:induction false} CommaOverPrefixed(w: seq<Token>, a: Expr, k: seq<Token>, d: nat)
    requires Plain(w)
    ensures CommaAt(w + Text(a) + k, d) == Later(|w + Text(a)|, CommaAt(k, d))
    decreases TreeSize(a), 1
  {
    hide CommaAt;
    CommaOver(a, k, d);
    CommaPlain(w, Text(a) + k, d);
    assert w + Text(a) + k == w + (Text(a) + k);
  }

  lemma {:induction false} CommaOverBrackets(a: Expr, k: seq<Token>, d: nat)
    ensures CommaAt([Open] + Text(a) + [Close] + k, d) == Later(|[Open] + Text(a) + [Close]|, CommaAt(k, d))
    decreases TreeSize(a), 1
  {
    hide CommaAt, Text;
    CommaStep(Close, k, d + 1);
    CommaOver(a, [Close] + k, d + 1);
    CommaStep(Open, Text(a) + ([Close] + k), d);
    assert [Open] + Text(a) + [Close] + k == [Open] + (Text(a) + ([Close] + k));
  }

  lemma {:induction false} CommaOverCall(f: string, a: Expr, k: seq<Token>, d: nat)
    ensures CommaAt([Id(f), Open] + Text(a) + [Close] + k, d) == Later(|[Id(f), Open] + Text(a) + [Close]|, CommaAt(k, d))
    decreases TreeSize(a), 2
  {
    hide CommaAt, Text;
    CommaOverBrackets(a, k, d);
    CommaStep(Id(f), [Open] + Text(a) + [Close] + k, d);
    assert [Id(f), Open] + Text(a) + [Close] + k == [Id(f)] + ([Open] + Text(a) + [Close] + k);
  }

  lemma {:induction false} CommaOverPair(f: string, a: Expr, b: Expr, k: seq<Token>, d: nat)
    ensures CommaAt([Id(f), Open] + Text(a) + [Comma] + Text(b) + [Close] + k, d)
            == Later(|[Id(f), Open] + Text(a) + [Comma] + Text(b) + [Close]|, CommaAt(k, d))
    decreases TreeSize(a) + TreeSize(b), 2
  {
    hide CommaAt, Text, TreeSize;
    var args := Text(a) + ([Comma] + (Text(b) + ([Close] + k)));
    CommaOverArguments(a, b, k, d);
    CommaStep(Open, args, d);
    CommaStep(Id(f), [Open] + args, d);
    PairText(f, Text(a), Text(b), k);
  }

  lemma {:induction false} CommaOverArguments(a: Expr, b: Expr, k: seq<Token>, d: nat)
    ensures CommaAt(Text(a) + ([Comma] + (Text(b) + ([Close] + k))), d + 1)
            == Later(|Text(a)| + |Text(b)| + 2, CommaAt(k, d))
    decreases TreeSize(a) + TreeSize(b), 1
  {
    hide CommaAt, Text;
    CommaStep(Close, k, d + 1);
    CommaOver(b, [Close] + k, d + 1);
    CommaStep(Comma, Text(b) + ([Close] + k), d + 1);
    CommaOver(a, [Comma] + (Text(b) + ([Close] + k)), d + 1);
  }

  /** What stands after l is scanned where l leaves off. */
  lemma {:induction false} CommaConcat(l: seq<Token>, r: seq<Token>, st: seq<Token>)
    requires Unwind(l, st).Some?
    ensures CommaAt(l + r, |st|)
            == if CommaAt(l, |st|).Some? then CommaAt(l, |st|) else Later(|l|, CommaAt(r, |Unwind(l, st).value|))
    decreases |l|
  {
    hide CommaAt;
    if l == [] {
      assert l + r == r;
      CommaNone(l, |st|);
    } else {
      var st' := Next(l[0], st).value;
      assert l + r == [l[0]] + (l[1..] + r) && l == [l[0]] + l[1..];
      CommaConcat(l[1..], r, st');
      CommaAfter(l[0], l[1..] + r, st, st');
      CommaAfter(l[0], l[1..], st, st');
    }
  }

  lemma CommaAfter(t: Token, k: seq<Token>, st: seq<Token>, st': seq<Token>)
    requires Next(t, st) == Some(st')
    ensures CommaAt([t] + k, |st|) == if t.Comma? && st == [] then Some(0) else Later(1, CommaAt(k, |st'|))
  {
    if t.Comma? && st == [] {
      CommaFirst(t, k);
    } else {
      hide CommaAt;
      CommaStep(t, k, |st|);
    }
  }

  lemma CommaFirst(t: Token, k: seq<Token>)
    requires t.Comma?
    ensures CommaAt([t] + k, 0) == Some(0)
  {
  }

  /** The comma that is found stands outside brackets. */
  lemma {:induction false} CommaStands(s: seq<Token>, st: seq<Token>)
    requires Unwind(s, st).Some? && CommaAt(s, |st|).Some?
    ensures Unwind(s[..CommaAt(s, |st|).value], st) == Some([])
    decreases |s|
  {
    if !(s[0].Comma? && st == []) {
      var st' := Next(s[0], st).value;
      CommaStands(s[1..], st');
      var i := CommaAt(s[1..], |st'|).value;
      assert s[..i + 1][0] == s[0] && s[..i + 1][1..] == s[1..][..i];
    }
  }

  /** And so does the operator at which a text is split. */
  lemma {:induction false} ScanStands(s: seq<Token>, star: bool, ops: set<char>)
    requires Unwind(s, []).Some? && Scan(s, star, ops, |Unwind(s, []).value|).Some?
    ensures Bracketed(s[..Scan(s, star, ops, |Unwind(s, []).value|).value])
    decreases |s|
  {
    var p, t := s[..|s| - 1], s[|s| - 1];
    assert s == p + [t];
    UnwindConcat(p, [t], []);
    var st := Unwind(p, []).value;
    UnwindOne(t, st);
    if Opens(t) || Closes(t) {
      ScanStands(p, false, ops);
      assert forall i: nat :: i <= |p| ==> p[..i] == s[..i];
    } else if !(st == [] && SplitsHere(p, t, star, ops)) {
      ScanStands(p, t == Op('*'), ops);
      assert forall i: nat :: i <= |p| ==> p[..i] == s[..i];
    }
  }

  lemma PairText(f: string, a: seq<Token>, b: seq<Token>, k: seq<Token>)
    ensures [Id(f), Open] + a + [Comma] + b + [Close] + k
            == [Id(f)] + ([Open] + (a + ([Comma] + (b + ([Close] + k)))))
  {
  }
}
