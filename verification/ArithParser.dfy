/** The recursive-descent parser of shell arithmetic: an object with a position that every
    level moves, proved against a specification that consumes a prefix of the tokens. */
module ArithParser {
  import opened Options
  import opened ArithAst

  /** A parse of a prefix: the tree and what is left. */
  datatype Parse = Fail | Done(e: Ast, rest: seq<Token>)

  predicate Starts(ts: seq<Token>, s: string) {
    ts != [] && ts[0] == Sym(s)
  }

  /** The text of the punctuator in front, "" if there is none. */
  function Head(ts: seq<Token>): string {
    if ts != [] && ts[0].Sym? then ts[0].s else ""
  }

  // ---------------------------------------------------------------- specification

  function Primary(ts: seq<Token>): (p: Parse)
    ensures p.Done? ==> |p.rest| < |ts|
    decreases |ts|, 0
  {
    if ts == [] then Fail
    else if Starts(ts, "(") then
      var p := Ternary(ts[1..]);
      if p.Done? && Starts(p.rest, ")") then Done(p.e, p.rest[1..]) else Fail
    else if ts[0].Num? then
      if ts[0].n <= MAX_INT64 then Done(Number(ts[0].n), ts[1..]) else Fail
    else if ts[0].Id? then
      var x, k := ts[0].x, ts[1..];
      if Starts(k, "[") then
        var p := Ternary(k[1..]);
        if p.Done? && Starts(p.rest, "]") then Done(Index(x, p.e), p.rest[1..]) else Fail
      else if Starts(k, "++") then Done(IncDec(x, 1, false), k[1..])
      else if Starts(k, "--") then Done(IncDec(x, -1, false), k[1..])
      else Done(Var(x), k)
    else Fail
  }

  function Unary(ts: seq<Token>): (p: Parse)
    ensures p.Done? ==> |p.rest| < |ts|
    decreases |ts|, 1
  {
    if Starts(ts, "++") || Starts(ts, "--") then
      if |ts| > 1 && ts[1].Id? then Done(IncDec(ts[1].x, if Starts(ts, "++") then 1 else -1, true), ts[2..]) else Fail
    else if Head(ts) in UNARY_OPS then
      var p := Unary(ts[1..]);
      if p.Done? then Done(Un(Head(ts), p.e), p.rest) else Fail
    else Primary(ts)
  }

  function Pow(ts: seq<Token>): (p: Parse)
    ensures p.Done? ==> |p.rest| < |ts|
    decreases |ts|, 2
  {
    var base := Unary(ts);
    if base.Done? && Starts(base.rest, "**") then
      var exp := Pow(base.rest[1..]);
      if exp.Done? then Done(Bin("**", base.e, exp.e), exp.rest) else Fail
    else base
  }

  /** The operand level below binary level k. */
  function Next(k: nat, ts: seq<Token>): (p: Parse)
    requires 1 <= k <= 10
    ensures p.Done? ==> |p.rest| < |ts|
    decreases |ts|, 13 - k, 0
  {
    if k == 10 then Pow(ts) else Binary(k + 1, ts)
  }

  function Binary(k: nat, ts: seq<Token>): (p: Parse)
    requires 1 <= k <= 10
    ensures p.Done? ==> |p.rest| < |ts|
    decreases |ts|, 13 - k, 1
  {
    var lhs := Next(k, ts);
    if lhs.Done? then More(k, lhs.e, lhs.rest) else Fail
  }

  /** The loop of a left-associative level, with the left operand read so far. */
  function More(k: nat, lhs: Ast, ts: seq<Token>): (p: Parse)
    requires 1 <= k <= 10
    ensures p.Done? ==> |p.rest| <= |ts|
    decreases |ts|, 13 - k, 2
  {
    if Head(ts) in OpsOf(k) then
      var rhs := Next(k, ts[1..]);
      if rhs.Done? then More(k, Bin(Head(ts), lhs, rhs.e), rhs.rest) else Fail
    else Done(lhs, ts)
  }

  function Ternary(ts: seq<Token>): (p: Parse)
    ensures p.Done? ==> |p.rest| < |ts|
    decreases |ts|, 20
  {
    var test := Binary(1, ts);
    if test.Done? && Starts(test.rest, "?") then
      var thn := Ternary(test.rest[1..]);
      if thn.Done? && Starts(thn.rest, ":") then
        var els := Ternary(thn.rest[1..]);
        if els.Done? then Done(Cond(test.e, thn.e, els.e), els.rest) else Fail
      else Fail
    else test
  }

  function Assignment(ts: seq<Token>): (p: Parse)
    ensures p.Done? ==> |p.rest| < |ts|
    decreases |ts|, 21
  {
    if |ts| > 1 && ts[0].Id? && Head(ts[1..]) in ASSIGN_OPS then
      var rhs := Assignment(ts[2..]);
      if rhs.Done? then Done(Assign(ts[0].x, Head(ts[1..]), rhs.e), rhs.rest) else Fail
    else Ternary(ts)
  }

  /** The whole text must be one expression. */
  function ParseArith(ts: seq<Token>): Option<Ast> {
    var p := Assignment(ts);
    if p.Done? && p.rest == [] then Some(p.e) else None
  }

  // ---------------------------------------------------------------- the parser object

  /** The outcome of a parsing method and the tokens it left are those of a parse. */
  predicate Agrees(p: Parse, ast: Option<Ast>, rest: seq<Token>) {
    if p.Fail? then ast.None? else ast == Some(p.e) && rest == p.rest
  }

  class Parser {
    const src: seq<Token>
    var pos: nat

    constructor (src: seq<Token>)
      ensures this.src == src && pos == 0
    {
      this.src := src;
      pos := 0;
    }

    predicate Valid()
      reads this
    {
      pos <= |src|
    }

    function Rest(): seq<Token>
      requires Valid()
      reads this
    {
      src[pos..]
    }

    /** Moves past the punctuator if it is next. */
    method Eat(s: string) returns (eaten: bool)
      requires Valid()
      modifies this`pos
      ensures Valid()
      ensures eaten == Starts(old(Rest()), s)
      ensures Rest() == if eaten then old(Rest())[1..] else old(Rest())
    {
      eaten := pos < |src| && src[pos] == Sym(s);
      if eaten {
        pos := pos + 1;
      }
    }

    method ParsePrimary() returns (ast: Option<Ast>)
      requires Valid()
      modifies this`pos
      ensures Valid() && Agrees(Primary(old(Rest())), ast, Rest())
      decreases |src| - pos, 0
    {
      if pos == |src| {
        return None;
      }
      var paren := Eat("(");
      if paren {
        ast := ParseTernary();
        var closed := Eat(")");
        return if closed then ast else None;
      }
      var t := src[pos];
      pos := pos + 1;
      if t.Num? {
        return if t.n <= MAX_INT64 then Some(Number(t.n)) else None;
      }
      if !t.Id? {
        return None;
      }
      var bracket := Eat("[");
      if bracket {
        var key := ParseTernary();
        var closed := Eat("]");
        return if closed && key.Some? then Some(Index(t.x, key.value)) else None;
      }
      var inc := Eat("++");
      if inc {
        return Some(IncDec(t.x, 1, false));
      }
      var dec := Eat("--");
      return Some(if dec then IncDec(t.x, -1, false) else Var(t.x));
    }

    method ParseUnary() returns (ast: Option<Ast>)
      requires Valid()
      modifies this`pos
      ensures Valid() && Agrees(Unary(old(Rest())), ast, Rest())
      decreases |src| - pos, 1
    {
      if pos < |src| && (src[pos] == Sym("++") || src[pos] == Sym("--")) {
        var delta := if src[pos] == Sym("++") then 1 else -1;
        pos := pos + 1;
        if pos == |src| || !src[pos].Id? {
          return None;
        }
        pos := pos + 1;
        return Some(IncDec(src[pos - 1].x, delta, true));
      }
      if pos < |src| && src[pos].Sym? && src[pos].s in UNARY_OPS {
        var op := src[pos].s;
        pos := pos + 1;
        ast := ParseUnary();
        return if ast.Some? then Some(Un(op, ast.value)) else None;
      }
      ast := ParsePrimary();
    }

    method ParsePow() returns (ast: Option<Ast>)
      requires Valid()
      modifies this`pos
      ensures Valid() && Agrees(Pow(old(Rest())), ast, Rest())
      decreases |src| - pos, 2
    {
      ast := ParseUnary();
      if ast.Some? {
        var power := Eat("**");
        if power {
          var exp := ParsePow();
          return if exp.Some? then Some(Bin("**", ast.value, exp.value)) else None;
        }
      }
    }

    method ParseNext(k: nat) returns (ast: Option<Ast>)
      requires Valid() && 1 <= k <= 10
      modifies this`pos
      ensures Valid() && Agrees(Next(k, old(Rest())), ast, Rest())
      decreases |src| - pos, 13 - k, 0
    {
      if k == 10 {
        ast := ParsePow();
      } else {
        ast := ParseBinary(k + 1);
      }
    }

    /** One left-associative level; the ten levels of the source differ only in their operators. */
    method ParseBinary(k: nat) returns (ast: Option<Ast>)
      requires Valid() && 1 <= k <= 10
      modifies this`pos
      ensures Valid() && Agrees(Binary(k, old(Rest())), ast, Rest())
      decreases |src| - pos, 13 - k, 1
    {
      ast := ParseNext(k);
      if ast.None? {
        return;
      }
      while pos < |src| && src[pos].Sym? && src[pos].s in OpsOf(k)
        invariant Valid() && old(pos) < pos && ast.Some?
        invariant Binary(k, old(Rest())) == More(k, ast.value, Rest())
        decreases |src| - pos
      {
        var op := src[pos].s;
        pos := pos + 1;
        var rhs := ParseNext(k);
        if rhs.None? {
          return None;
        }
        ast := Some(Bin(op, ast.value, rhs.value));
      }
    }

    method ParseTernary() returns (ast: Option<Ast>)
      requires Valid()
      modifies this`pos
      ensures Valid() && Agrees(Ternary(old(Rest())), ast, Rest())
      decreases |src| - pos, 20
    {
      ast := ParseBinary(1);
      if ast.Some? {
        var question := Eat("?");
        if question {
          var thn := ParseTernary();
          var colon := Eat(":");
          if thn.None? || !colon {
            return None;
          }
          var els := ParseTernary();
          return if els.Some? then Some(Cond(ast.value, thn.value, els.value)) else None;
        }
      }
    }

    /** Looks past a leading identifier for an assignment operator, and backs up if there is none. */
    method ParseAssignment() returns (ast: Option<Ast>)
      requires Valid()
      modifies this`pos
      ensures Valid() && Agrees(Assignment(old(Rest())), ast, Rest())
      decreases |src| - pos, 21
    {
      hide Ternary;
      ghost var ts := Rest();
      if pos < |src| && src[pos].Id? {
        var save := pos;
        var x := src[pos].x;
        pos := pos + 1;
        assert Rest() == ts[1..];
        if pos < |src| && src[pos].Sym? && src[pos].s in ASSIGN_OPS {
          var op := src[pos].s;
          pos := pos + 1;
          assert Rest() == ts[2..];
          var rhs := ParseAssignment();
          return if rhs.Some? then Some(Assign(x, op, rhs.value)) else None;
        }
        pos := save;
      }
      ast := ParseTernary();
    }
  }

  /** The source's entry point. */
  method ParseText(src: seq<Token>) returns (ast: Option<Ast>)
    ensures ast == ParseArith(src)
  {
    var p := new Parser(src);
    ast := p.ParseAssignment();
    if p.pos != |src| {
      ast := None;
    }
  }
}
