/** The recursive-descent parser: a function of the remaining tokens, the class that
    computes it with a cursor, and its equivalence with the expression grammar. */
module KconfigParser {
  import opened Option
  import opened KconfigExpr
  import opened KconfigLexer

  type Tokens = seq<Token>

  datatype Parsed = Fail | Done(e: Expr, rest: Tokens)

  predicate StartsWith(ts: Tokens, t: Token) { ts != [] && ts[0] == t }

  predicate StartsWithRel(ts: Tokens) { ts != [] && ts[0].Rel? }

  // ---- What the parser computes ----

  function ParseOr(ts: Tokens): (p: Parsed)
    ensures p.Done? ==> |p.rest| < |ts|
    decreases |ts|, 3
  {
    match ParseAnd(ts)
    case Fail => Fail
    case Done(e, rest) => OrTail(e, rest)
  }

  function OrTail(e: Expr, ts: Tokens): (p: Parsed)
    ensures p.Done? ==> |p.rest| <= |ts|
    decreases |ts|, 2
  {
    if StartsWith(ts, OrTok) then
      match ParseAnd(ts[1..])
      case Fail => Fail
      case Done(r, rest) => OrTail(Or(e, r), rest)
    else Done(e, ts)
  }

  function ParseAnd(ts: Tokens): (p: Parsed)
    ensures p.Done? ==> |p.rest| < |ts|
    decreases |ts|, 2
  {
    match ParseUnary(ts)
    case Fail => Fail
    case Done(e, rest) => AndTail(e, rest)
  }

  function AndTail(e: Expr, ts: Tokens): (p: Parsed)
    ensures p.Done? ==> |p.rest| <= |ts|
    decreases |ts|, 1
  {
    if StartsWith(ts, AndTok) then
      match ParseUnary(ts[1..])
      case Fail => Fail
      case Done(r, rest) => AndTail(And(e, r), rest)
    else Done(e, ts)
  }

  function ParseUnary(ts: Tokens): (p: Parsed)
    ensures p.Done? ==> |p.rest| < |ts|
    decreases |ts|, 0
  {
    if ts == [] then Fail
    else match ts[0]
      case NotTok => (match ParseUnary(ts[1..]) case Fail => Fail case Done(e, rest) => Done(Not(e), rest))
      case LPar =>
        (match ParseOr(ts[1..])
         case Fail => Fail
         case Done(e, rest) => if StartsWith(rest, RPar) then Done(e, rest[1..]) else Fail)
      case Atom(x) =>
        if !StartsWithRel(ts[1..]) then Done(Sym(x), ts[1..])
        else if |ts| < 3 then Fail
        else Done(Cmp(ts[1].op, x, ts[2]), ts[3..])
      case _ => Fail
  }

  /** The tree of a whole token list, or None where the original raises ValueError. */
  function Parse(ts: Tokens): Option<Expr> {
    match ParseOr(ts)
    case Fail => None
    case Done(e, rest) => if rest == [] then Some(e) else None
  }

  function ParseText(s: string): Option<Expr> {
    match Lex(s) case None => None case Some(ts) => Parse(ts)
  }

  // ---- The grammar ----
  //   or    ::= and   | or "||" and
  //   and   ::= unary | and "&&" unary
  //   unary ::= "!" unary | "(" or ")" | atom rel token | atom

  ghost predicate IsOr(e: Expr, ts: Tokens)
    decreases |ts|, 2
  {
    || IsAnd(e, ts)
    || (e.Or? && exists k :: 0 <= k < |ts| && ts[k] == OrTok && IsOr(e.l, ts[..k]) && IsAnd(e.r, ts[k + 1..]))
  }

  ghost predicate IsAnd(e: Expr, ts: Tokens)
    decreases |ts|, 1
  {
    || IsUnary(e, ts)
    || (e.And? && exists k :: 0 <= k < |ts| && ts[k] == AndTok && IsAnd(e.l, ts[..k]) && IsUnary(e.r, ts[k + 1..]))
  }

  ghost predicate IsUnary(e: Expr, ts: Tokens)
    decreases |ts|, 0
  {
    && ts != []
    && match ts[0]
       case NotTok => e.Not? && IsUnary(e.arg, ts[1..])
       case LPar => |ts| > 1 && ts[|ts| - 1] == RPar && IsOr(e, ts[1..|ts| - 1])
       case Atom(x) => (|ts| == 1 && e == Sym(x)) || (|ts| == 3 && ts[1].Rel? && e == Cmp(ts[1].op, x, ts[2]))
       case _ => false
  }

  lemma OrIntro(l: Expr, u: Tokens, r: Expr, v: Tokens)
    requires IsOr(l, u) && IsAnd(r, v)
    ensures IsOr(Or(l, r), u + [OrTok] + v)
  {
    var ts := u + [OrTok] + v;
    assert ts[..|u|] == u && ts[|u|] == OrTok && ts[|u| + 1..] == v;
  }

  lemma AndIntro(l: Expr, u: Tokens, r: Expr, v: Tokens)
    requires IsAnd(l, u) && IsUnary(r, v)
    ensures IsAnd(And(l, r), u + [AndTok] + v)
  {
    var ts := u + [AndTok] + v;
    assert ts[..|u|] == u && ts[|u|] == AndTok && ts[|u| + 1..] == v;
  }

  lemma ParenIntro(e: Expr, u: Tokens)
    requires IsOr(e, u)
    ensures IsUnary(e, [LPar] + u + [RPar])
  {
    var ts := [LPar] + u + [RPar];
    assert ts[1..|ts| - 1] == u;
  }

  lemma Assoc(a: Tokens, b: Tokens, c: Tokens)
    ensures a + b + c == a + (b + c)
  {
  }

  /** ts is the operator, u and mid; mid is v and rest. */
  lemma TailStep(done: Tokens, ts: Tokens, u: Tokens, mid: Tokens, v: Tokens, rest: Tokens)
    requires ts != [] && ts[1..] == u + mid && mid == v + rest
    ensures ts == [ts[0]] + u + v + rest
    ensures done + ([ts[0]] + u + v) == done + [ts[0]] + u + v
  {
    assert ts == [ts[0]] + ts[1..];
    Assoc(u, v, rest);
  }

  lemma ParenStep(ts: Tokens, u: Tokens, rest: Tokens)
    requires ts == [LPar] + u + [RPar] + rest || (StartsWith(ts, LPar) && ts[1..] == u + ([RPar] + rest))
    ensures ts == [LPar] + u + [RPar] + rest && StartsWith(ts, LPar)
    ensures ts[1..] == u + ([RPar] + rest) && ([RPar] + rest)[1..] == rest
  {
  }

  /** u splits at its operator k, with r after it. */
  lemma SplitStep(u: Tokens, k: nat, r: Tokens)
    requires k < |u|
    ensures u + r == u[..k] + ([u[k]] + (u[k + 1..] + r))
    ensures ([u[k]] + (u[k + 1..] + r))[1..] == u[k + 1..] + r
  {
    assert u == u[..k] + [u[k]] + u[k + 1..];
  }

  // ---- Soundness: the tokens consumed derive the tree ----

  lemma {:induction false} OrSound(ts: Tokens) returns (used: Tokens)
    requires ParseOr(ts).Done?
    ensures ts == used + ParseOr(ts).rest && IsOr(ParseOr(ts).e, used)
    decreases |ts|, 3
  {
    var u := AndSound(ts);
    var p := ParseAnd(ts);
    var v := OrTailSound(p.e, u, p.rest);
    used := u + v;
    Assoc(u, v, ParseOr(ts).rest);
  }

  lemma {:induction false} OrTailSound(e: Expr, done: Tokens, ts: Tokens) returns (used: Tokens)
    requires OrTail(e, ts).Done? && IsOr(e, done)
    ensures ts == used + OrTail(e, ts).rest && IsOr(OrTail(e, ts).e, done + used)
    decreases |ts|, 2
  {
    if StartsWith(ts, OrTok) {
      var u := AndSound(ts[1..]);
      var p := ParseAnd(ts[1..]);
      OrIntro(e, done, p.e, u);
      var v := OrTailSound(Or(e, p.e), done + [OrTok] + u, p.rest);
      used := [OrTok] + u + v;
      TailStep(done, ts, u, p.rest, v, OrTail(e, ts).rest);
    } else {
      used := [];
      assert done + used == done;
    }
  }

  lemma {:induction false} AndSound(ts: Tokens) returns (used: Tokens)
    requires ParseAnd(ts).Done?
    ensures ts == used + ParseAnd(ts).rest && IsAnd(ParseAnd(ts).e, used)
    decreases |ts|, 2
  {
    var u := UnarySound(ts);
    var p := ParseUnary(ts);
    var v := AndTailSound(p.e, u, p.rest);
    used := u + v;
    Assoc(u, v, ParseAnd(ts).rest);
  }

  lemma {:induction false} AndTailSound(e: Expr, done: Tokens, ts: Tokens) returns (used: Tokens)
    requires AndTail(e, ts).Done? && IsAnd(e, done)
    ensures ts == used + AndTail(e, ts).rest && IsAnd(AndTail(e, ts).e, done + used)
    decreases |ts|, 1
  {
    if StartsWith(ts, AndTok) {
      var u := UnarySound(ts[1..]);
      var p := ParseUnary(ts[1..]);
      AndIntro(e, done, p.e, u);
      var v := AndTailSound(And(e, p.e), done + [AndTok] + u, p.rest);
      used := [AndTok] + u + v;
      TailStep(done, ts, u, p.rest, v, AndTail(e, ts).rest);
    } else {
      used := [];
      assert done + used == done;
    }
  }

  lemma {:induction false} UnarySound(ts: Tokens) returns (used: Tokens)
    requires ParseUnary(ts).Done?
    ensures ts == used + ParseUnary(ts).rest && IsUnary(ParseUnary(ts).e, used)
    decreases |ts|, 0
  {
    var q := ParseUnary(ts);
    assert ts == [ts[0]] + ts[1..];
    match ts[0]
    case NotTok =>
      var u := UnarySound(ts[1..]);
      used := [NotTok] + u;
      assert used[1..] == u;
    case LPar =>
      var u := OrSound(ts[1..]);
      ParenIntro(q.e, u);
      used := [LPar] + u + [RPar];
      var p := ParseOr(ts[1..]);
      assert p.rest == [RPar] + q.rest;
      ParenStep(ts, u, q.rest);
    case Atom(x) =>
      used := ts[..|ts| - |q.rest|];
  }

  // ---- Completeness: the parser finds every derivation, whatever harmless tokens follow ----

  lemma {:induction false} OrComplete(e: Expr, u: Tokens, r: Tokens)
    requires IsOr(e, u) && !StartsWithRel(r) && !StartsWith(r, AndTok)
    ensures ParseOr(u + r) == OrTail(e, r)
    decreases |u|, 2
  {
    if IsAnd(e, u) {
      AndComplete(e, u, r);
    } else {
      var k :| 0 <= k < |u| && u[k] == OrTok && IsOr(e.l, u[..k]) && IsAnd(e.r, u[k + 1..]);
      OrCompleteSplit(e, u, k, r);
    }
  }

  lemma {:induction false} OrCompleteSplit(e: Expr, u: Tokens, k: nat, r: Tokens)
    requires e.Or? && k < |u| && u[k] == OrTok && IsOr(e.l, u[..k]) && IsAnd(e.r, u[k + 1..])
    requires !StartsWithRel(r) && !StartsWith(r, AndTok)
    ensures ParseOr(u + r) == OrTail(e, r)
    decreases |u|, 1
  {
    SplitStep(u, k, r);
    OrComplete(e.l, u[..k], [OrTok] + (u[k + 1..] + r));
    AndComplete(e.r, u[k + 1..], r);
  }

  lemma {:induction false} AndComplete(e: Expr, u: Tokens, r: Tokens)
    requires IsAnd(e, u) && !StartsWithRel(r)
    ensures ParseAnd(u + r) == AndTail(e, r)
    decreases |u|, 1
  {
    if IsUnary(e, u) {
      UnaryComplete(e, u, r);
    } else {
      var k :| 0 <= k < |u| && u[k] == AndTok && IsAnd(e.l, u[..k]) && IsUnary(e.r, u[k + 1..]);
      AndCompleteSplit(e, u, k, r);
    }
  }

  lemma {:induction false} AndCompleteSplit(e: Expr, u: Tokens, k: nat, r: Tokens)
    requires e.And? && k < |u| && u[k] == AndTok && IsAnd(e.l, u[..k]) && IsUnary(e.r, u[k + 1..])
    requires !StartsWithRel(r)
    ensures ParseAnd(u + r) == AndTail(e, r)
    decreases |u|, 0
  {
    SplitStep(u, k, r);
    AndComplete(e.l, u[..k], [AndTok] + (u[k + 1..] + r));
    UnaryComplete(e.r, u[k + 1..], r);
  }

  lemma {:induction false} UnaryComplete(e: Expr, u: Tokens, r: Tokens)
    requires IsUnary(e, u) && !StartsWithRel(r)
    ensures ParseUnary(u + r) == Done(e, r)
    decreases |u|, 0
  {
    match u[0]
    case NotTok =>
      UnaryComplete(e.arg, u[1..], r);
      assert (u + r)[1..] == u[1..] + r;
    case LPar =>
      var v := u[1..|u| - 1];
      OrComplete(e, v, [RPar] + r);
      assert u + r == [LPar] + v + [RPar] + r;
      ParenStep(u + r, v, r);
    case Atom(x) =>
      assert (u + r)[1..] == u[1..] + r;
  }

  /** The parser accepts exactly the sentences of the grammar and returns their tree. */
  lemma ParseIffDerives(e: Expr, ts: Tokens)
    ensures Parse(ts) == Some(e) <==> IsOr(e, ts)
  {
    if Parse(ts) == Some(e) {
      var u := OrSound(ts);
      assert u + [] == u;
    }
    if IsOr(e, ts) {
      OrComplete(e, ts, []);
      assert ts + [] == ts;
    }
  }

  /** So the grammar derives at most one tree, and None means there is none. */
  lemma GrammarUnambiguous(a: Expr, b: Expr, ts: Tokens)
    requires IsOr(a, ts) && IsOr(b, ts)
    ensures a == b
  {
    ParseIffDerives(a, ts);
    ParseIffDerives(b, ts);
  }

  // ---- The parser itself ----

  /** A cursor over a token list.  None stands for the ValueError the original raises. */
  class ExprParser {
    const tokens: Tokens
    var i: nat

    ghost predicate Valid()
      reads this
    {
      i <= |tokens|
    }

    ghost function Ahead(): Tokens
      reads this
      requires Valid()
    {
      tokens[i..]
    }

    constructor (ts: Tokens)
      ensures tokens == ts && i == 0
    {
      tokens := ts;
      i := 0;
    }

    function Peek(): Option<Token>
      reads this
    {
      if i < |tokens| then Some(tokens[i]) else None
    }

    method Take() returns (t: Option<Token>)
      requires Valid()
      modifies this
      ensures Valid()
      ensures old(Ahead()) == [] ==> t.None? && i == old(i)
      ensures old(Ahead()) != [] ==> t == Some(old(Ahead()[0])) && i == old(i) + 1
    {
      if i >= |tokens| {
        return None;
      }
      i := i + 1;
      return Some(tokens[i - 1]);
    }

    ghost predicate Answers(r: Option<Expr>, p: Parsed)
      reads this
      requires Valid()
    {
      match p
      case Fail => r.None?
      case Done(e, rest) => r == Some(e) && Ahead() == rest
    }

    method ParseOrLevel() returns (r: Option<Expr>)
      requires Valid()
      modifies this
      ensures Valid() && Answers(r, ParseOr(old(Ahead())))
      decreases |tokens| - i, 3
    {
      ghost var start := Ahead();
      r := ParseAndLevel();
      if r.None? {
        return;
      }
      while Peek() == Some(OrTok)
        invariant Valid() && |Ahead()| < |start|
        invariant r.Some? && ParseOr(start) == OrTail(r.value, Ahead())
        decreases |tokens| - i
      {
        ghost var here := Ahead();
        var _ := Take();
        assert Ahead() == here[1..];
        var right := ParseAndLevel();
        if right.None? {
          return None;
        }
        r := Some(Or(r.value, right.value));
      }
    }

    method ParseAndLevel() returns (r: Option<Expr>)
      requires Valid()
      modifies this
      ensures Valid() && Answers(r, ParseAnd(old(Ahead())))
      decreases |tokens| - i, 2
    {
      ghost var start := Ahead();
      r := ParseUnaryLevel();
      if r.None? {
        return;
      }
      while Peek() == Some(AndTok)
        invariant Valid() && |Ahead()| < |start|
        invariant r.Some? && ParseAnd(start) == AndTail(r.value, Ahead())
        decreases |tokens| - i
      {
        ghost var here := Ahead();
        var _ := Take();
        assert Ahead() == here[1..];
        var right := ParseUnaryLevel();
        if right.None? {
          return None;
        }
        r := Some(And(r.value, right.value));
      }
    }

    method ParseUnaryLevel() returns (r: Option<Expr>)
      requires Valid()
      modifies this
      ensures Valid() && Answers(r, ParseUnary(old(Ahead())))
      decreases |tokens| - i, 1
    {
      ghost var start := Ahead();
      var tok := Take();
      if tok.None? {
        return None;
      }
      assert Ahead() == start[1..];
      match tok.value
      case NotTok =>
        r := ParseUnaryLevel();
        if r.Some? { r := Some(Not(r.value)); }
      case LPar =>
        r := ParseOrLevel();
        if r.Some? {
          ghost var inner := Ahead();
          var close := Take();
          if close != Some(RPar) { return None; }
          assert Ahead() == inner[1..];
        }
      case Atom(x) =>
        var next := Peek();
        if next.Some? && next.value.Rel? {
          var op := Take();
          var right := Take();
          if right.None? { return None; }
          assert Ahead() == start[3..];
          r := Some(Cmp(op.value.op, x, right.value));
        } else {
          r := Some(Sym(x));
        }
      case _ =>
        r := None;
    }
  }

  /** `_parse_kconfig_expr`: tokenize, parse, and reject trailing tokens. */
  method ParseKconfigExpr(text: string) returns (r: Option<Expr>)
    ensures r == ParseText(text)
  {
    var tokens := Tokenize(text);
    if tokens.None? {
      return None;
    }
    var parser := new ExprParser(tokens.value);
    assert parser.Ahead() == tokens.value;
    r := parser.ParseOrLevel();
    if r.Some? && parser.i != |parser.tokens| {
      r := None;
    }
  }
}
