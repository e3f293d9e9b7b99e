/** What the tokenizer yields, said of the text alone: the tokens spelled one after the other,
    blanks between them, and no two that touch could be read as a longer one. */
module KconfigSpelling {
  import opened Option
  import opened Chars
  import opened KconfigExpr
  import opened KconfigLexer
  import opened KconfigParser

  /** Letters, digits and the four signs of a name. */
  predicate IsName(x: string) {
    x != "" && forall c :: c in x ==> 'A' <= c <= 'Z' || 'a' <= c <= 'z' || '0' <= c <= '9' || c in "_$.-"
  }

  /** The text between two quotes: no quote and no backslash, except that a backslash takes any
      character but a line break with it. */
  predicate IsQuotedBody(b: string) {
    b == "" ||
    (b[0] != '"' && b[0] != '\\' && IsQuotedBody(b[1..])) ||
    (b[0] == '\\' && |b| > 1 && b[1] != '\n' && IsQuotedBody(b[2..]))
  }

  predicate IsQuotedText(x: string) {
    |x| > 1 && x[0] == '"' && x[|x| - 1] == '"' && IsQuotedBody(x[1..|x| - 1])
  }

  /** x is a text for the token t. */
  predicate Spells(x: string, t: Token) {
    match t
    case AndTok => x == "&&"
    case OrTok => x == "||"
    case NotTok => x == "!"
    case LPar => x == "("
    case RPar => x == ")"
    case Rel(Eq) => x == "="
    case Rel(Ne) => x == "!="
    case Rel(Lt) => x == "<"
    case Rel(Le) => x == "<="
    case Rel(Gt) => x == ">"
    case Rel(Ge) => x == ">="
    case Atom(name) => x == name && (IsName(x) || IsQuotedText(x))
  }

  /** Written without a blank between them, t and u would be read as something else: two names as
      one, and "!", "<" or ">" before "=" as one operator. */
  predicate Merge(t: Token, u: Token) {
    || (t.Atom? && u.Atom? && IsName(t.text) && IsName(u.text))
    || (u == Rel(Eq) && (t == NotTok || t == Rel(Lt) || t == Rel(Gt)))
  }

  predicate StartsBlank(r: string) { r == "" || IsSpace(r[0]) }

  /** Blanks b, a text x for the first token, and r, which must start with a blank when the
      first two tokens would merge. */
  ghost predicate IsCut(s: string, ts: seq<Token>, b: string, x: string, r: string)
    requires ts != []
  {
    s == b + (x + r) && AllSpace(b) && Spells(x, ts[0]) && (|ts| > 1 && Merge(ts[0], ts[1]) ==> StartsBlank(r))
  }

  ghost predicate Spelled(s: string, ts: seq<Token>)
    decreases |ts|
  {
    if ts == [] then AllSpace(s) else exists b, x, r :: IsCut(s, ts, b, x, r) && Spelled(r, ts[1..])
  }

  // ---- From the text to the token ----

  lemma {:induction false} QuoteLenBody(s: string)
    requires QuoteLen(s) > 0
    ensures IsQuotedBody(s[..QuoteLen(s) - 1])
  {
    var n := QuoteLen(s);
    if s[0] == '"' {
    } else if s[0] == '\\' {
      QuoteLenBody(s[2..]);
      assert s[..n - 1][2..] == s[2..][..n - 3];
    } else {
      QuoteLenBody(s[1..]);
      assert s[..n - 1][1..] == s[1..][..n - 2];
    }
  }

  lemma {:induction false} BodyQuoteLen(b: string, r: string)
    requires IsQuotedBody(b)
    ensures QuoteLen(b + ("\"" + r)) == |b| + 1
  {
    var s := b + ("\"" + r);
    if b == "" {
      assert s == "\"" + r;
    } else if b[0] == '\\' {
      assert s[2..] == b[2..] + ("\"" + r);
      BodyQuoteLen(b[2..], r);
    } else {
      assert s[1..] == b[1..] + ("\"" + r);
      BodyQuoteLen(b[1..], r);
    }
  }

  lemma NameLen(x: string, r: string)
    requires IsName(x) && (r == "" || !IsName([r[0]]))
    ensures AtomLen(x + r) == |x|
  {
    var s := x + r;
    assert forall k :: 0 <= k < |x| ==> s[k] == x[k] && x[k] in x;
    if r != "" {
      assert s[|x|] == r[0];
      assert forall c :: c in [r[0]] ==> c == r[0];
    }
  }

  /** The token found is spelled by the text it is taken from. */
  lemma TakenIsSpelled(s: string)
    requires s != "" && NextToken(s).Some?
    ensures Spells(s[..NextToken(s).value.1], NextToken(s).value.0)
  {
    var (t, n) := NextToken(s).value;
    if s[0] == '"' {
      QuoteLenBody(s[1..]);
      assert s[..n][1..n - 1] == s[1..][..n - 2];
    } else if t.Atom? {
      assert forall c :: c in s[..n] ==> IsAtomChar(c);
    } else {
      assert s[..1] == [s[0]];
      assert n == 2 ==> s[..2] == [s[0], s[1]];
    }
  }

  /** What t cannot be followed by: a character that continues its text. */
  predicate Ends(t: Token, r: string) {
    r == "" ||
    ((t.Atom? && IsName(t.text) ==> !IsName([r[0]])) &&
     (t == NotTok || t == Rel(Lt) || t == Rel(Gt) ==> r[0] != '='))
  }

  lemma NameIsTaken(x: string, r: string)
    requires IsName(x) && (r == "" || !IsName([r[0]]))
    ensures NextToken(x + r) == Some((Atom(x), |x|)) && !IsSpace(x[0])
  {
    assert x[0] in x;
    NameLen(x, r);
    assert (x + r)[..|x|] == x;
  }

  lemma QuotedIsTaken(x: string, r: string)
    requires IsQuotedText(x)
    ensures NextToken(x + r) == Some((Atom(x), |x|))
  {
    var body := x[1..|x| - 1];
    assert (x + r)[1..] == body + ("\"" + r);
    BodyQuoteLen(body, r);
    assert (x + r)[..|x|] == x;
  }

  /** A text for t is taken whole, where nothing continues it. */
  lemma SpelledIsTaken(x: string, t: Token, r: string)
    requires Spells(x, t) && Ends(t, r)
    ensures x != "" && !IsSpace(x[0]) && NextToken(x + r) == Some((t, |x|))
  {
    var s := x + r;
    if t.Atom? && IsName(x) {
      NameIsTaken(x, r);
    } else if t.Atom? {
      QuotedIsTaken(x, r);
    } else {
      assert |x| <= 2 && s[0] == x[0] && (|x| == 2 ==> s[1] == x[1]);
      assert |x| == 1 && r != "" ==> s[1] == r[0];
    }
  }

  /** And it is not continued by what follows it. */
  lemma TakenEnds(s: string)
    requires s != "" && NextToken(s).Some?
    ensures Ends(NextToken(s).value.0, s[NextToken(s).value.1..])
  {
    var (t, n) := NextToken(s).value;
    var r := s[n..];
    if r != "" {
      assert r[0] == s[n];
      assert r[0] in [r[0]] && forall c :: c in [r[0]] ==> c == r[0];
      if t.Atom? && s[0] == '"' { assert t.text[0] in t.text; }
    }
  }

  // ---- Between tokens ----

  lemma SpelledStart(s: string, ts: seq<Token>)
    requires Spelled(s, ts) && !StartsBlank(s)
    ensures ts != [] && exists x, r :: s == x + r && Spells(x, ts[0])
  {
    if ts != [] {
      var b, x, r :| IsCut(s, ts, b, x, r);
      assert b == "" by { assert forall k :: 0 <= k < |b| ==> b[k] == s[k]; }
      assert b + (x + r) == x + r;
    }
  }

  /** The first character of u continues t exactly when the two would merge. */
  lemma MergeIsContinued(t: Token, u: Token, y: string, r: string)
    requires Spells(y, u)
    requires t.Atom? ==> IsName(t.text) || IsQuotedText(t.text)
    ensures Ends(t, y + r) <==> !Merge(t, u)
  {
    var s := y + r;
    assert s[0] == y[0];
    if u.Atom? && IsName(y) { assert y[0] in y; }
    assert forall c :: c in [s[0]] ==> c == s[0];
    assert s[0] in [s[0]];
  }

  lemma BlankEnds(t: Token, r: string)
    requires StartsBlank(r)
    ensures Ends(t, r)
  {
    if r != "" { assert r[0] in [r[0]]; }
  }

  lemma EndsHere(t: Token, r: string, rest: seq<Token>)
    requires Spelled(r, rest) && (t.Atom? ==> IsName(t.text) || IsQuotedText(t.text))
    ensures Ends(t, r) <==> (rest != [] && Merge(t, rest[0]) ==> StartsBlank(r))
  {
    if StartsBlank(r) {
      BlankEnds(t, r);
    } else {
      SpelledStart(r, rest);
      var y, q :| r == y + q && Spells(y, rest[0]);
      MergeIsContinued(t, rest[0], y, q);
    }
  }

  // ---- The tokenizer ----

  lemma SpelledIntro(s: string, t: Token, rest: seq<Token>, b: string, x: string, r: string)
    requires s == b + (x + r) && AllSpace(b) && Spells(x, t) && Spelled(r, rest)
    requires rest != [] && Merge(t, rest[0]) ==> StartsBlank(r)
    ensures Spelled(s, [t] + rest)
  {
    var ts := [t] + rest;
    assert ts[1..] == rest;
    assert IsCut(s, ts, b, x, r);
  }

  lemma SpelledAfterBlank(c: char, s: string, ts: seq<Token>)
    requires IsSpace(c) && Spelled(s, ts)
    ensures Spelled([c] + s, ts)
  {
    if ts != [] {
      var b, x, r :| IsCut(s, ts, b, x, r) && Spelled(r, ts[1..]);
      assert [c] + s == ([c] + b) + (x + r);
      assert IsCut([c] + s, ts, [c] + b, x, r);
    }
  }

  /** The token at the front of s and what it may be followed by. */
  lemma TakenFacts(s: string, t: Token, n: nat, rest: seq<Token>)
    requires s != "" && NextToken(s) == Some((t, n)) && Spelled(s[n..], rest)
    ensures Spells(s[..n], t) && (rest != [] && Merge(t, rest[0]) ==> StartsBlank(s[n..]))
  {
    TakenIsSpelled(s);
    TakenEnds(s);
    EndsHere(t, s[n..], rest);
  }

  lemma SpelledFront(s: string, t: Token, n: nat, rest: seq<Token>)
    requires n <= |s| && Spelled(s[n..], rest) && Spells(s[..n], t)
    requires rest != [] && Merge(t, rest[0]) ==> StartsBlank(s[n..])
    ensures Spelled(s, [t] + rest)
  {
    assert s == "" + (s[..n] + s[n..]);
    SpelledIntro(s, t, rest, "", s[..n], s[n..]);
  }

  lemma {:induction false} LexedIsSpelled(s: string)
    requires Lex(s).Some?
    ensures Spelled(s, Lex(s).value)
  {
    if s == "" {
    } else if IsSpace(s[0]) {
      LexedIsSpelled(s[1..]);
      assert s == [s[0]] + s[1..];
      SpelledAfterBlank(s[0], s[1..], Lex(s).value);
    } else {
      var (t, n) := NextToken(s).value;
      LexedIsSpelled(s[n..]);
      TakenFacts(s, t, n, Lex(s[n..]).value);
      SpelledFront(s, t, n, Lex(s[n..]).value);
    }
  }

  /** After blanks, a text for t is taken. */
  lemma LexFirst(b: string, x: string, t: Token, r: string, rest: seq<Token>)
    requires AllSpace(b) && Spells(x, t) && Ends(t, r) && Lex(r) == Some(rest)
    ensures Lex(b + (x + r)) == Some([t] + rest)
  {
    var s := b + (x + r);
    assert s[..|b|] == b && s[|b|..] == x + r;
    LexSkipsSpaces(s, |b|);
    SpelledIsTaken(x, t, r);
    assert (x + r)[|x|..] == r;
  }

  lemma {:induction false} SpelledIsLexed(s: string, ts: seq<Token>)
    requires Spelled(s, ts)
    ensures Lex(s) == Some(ts)
    decreases |ts|
  {
    if ts == [] {
      assert s[..|s|] == s && s[|s|..] == "";
      LexSkipsSpaces(s, |s|);
    } else {
      var b, x, r :| IsCut(s, ts, b, x, r) && Spelled(r, ts[1..]);
      EndsHere(ts[0], r, ts[1..]);
      SpelledIsLexed(r, ts[1..]);
      LexFirst(b, x, ts[0], r, ts[1..]);
      assert ts == [ts[0]] + ts[1..];
    }
  }

  /** The tokenizer returns ts exactly when the text spells ts; so it fails exactly on the texts
      that spell no tokens, and no text spells two lists. */
  lemma LexExactly(s: string, ts: seq<Token>)
    ensures Lex(s) == Some(ts) <==> Spelled(s, ts)
  {
    if Lex(s).Some? { LexedIsSpelled(s); }
    if Spelled(s, ts) { SpelledIsLexed(s, ts); }
  }

  /** So a text parses to e exactly when it spells a sentence of the grammar with the tree e. */
  lemma ParseTextExactly(s: string, e: Expr)
    ensures ParseText(s) == Some(e) <==> exists ts :: Spelled(s, ts) && IsOr(e, ts)
  {
    if Lex(s).Some? {
      LexExactly(s, Lex(s).value);
      ParseIffDerives(e, Lex(s).value);
    }
    forall ts | Spelled(s, ts) && IsOr(e, ts) ensures ParseText(s) == Some(e) {
      LexExactly(s, ts);
      ParseIffDerives(e, ts);
    }
  }

  lemma CmpDerives(op: CmpOp, x: string, y: string)
    ensures IsOr(Cmp(op, x, Atom(y)), [Atom(x), Rel(op), Atom(y)])
  {
    assert IsUnary(Cmp(op, x, Atom(y)), [Atom(x), Rel(op), Atom(y)]);
  }

  lemma SignsEndNames(c: char)
    requires IsSpace(c) || c == '=' || c == '!' || c == '<' || c == '>'
    ensures !IsName([c])
  {
    assert c in [c];
  }

  lemma LastName(c: string, y: string)
    requires IsName(y) && AllSpace(c)
    ensures Lex(c + y) == Some([Atom(y)]) && c + y != "" && (c + y)[0] != '='
  {
    assert y[0] in y && (c + y)[0] == if c == "" then y[0] else c[0];
    assert y + "" == y && [Atom(y)] + [] == [Atom(y)];
    LexFirst(c, y, Atom(y), "", []);
  }

  lemma OperatorThen(b: string, o: string, op: CmpOp, r: string, rest: seq<Token>)
    requires AllSpace(b) && Spells(o, Rel(op)) && Lex(r) == Some(rest) && r != "" && r[0] != '='
    ensures Lex(b + (o + r)) == Some([Rel(op)] + rest)
    ensures b + (o + r) != "" && !IsName([(b + (o + r))[0]])
  {
    LexFirst(b, o, Rel(op), r, rest);
    assert (b + (o + r))[0] == if b == "" then o[0] else b[0];
    SignsEndNames((b + (o + r))[0]);
  }

  lemma NameThen(x: string, r: string, rest: seq<Token>)
    requires IsName(x) && Lex(r) == Some(rest) && r != "" && !IsName([r[0]])
    ensures Lex(x + r) == Some([Atom(x)] + rest)
  {
    assert x[0] in x && x[0] != '"';
    assert "" + (x + r) == x + r;
    LexFirst("", x, Atom(x), r, rest);
  }

  lemma CmpLexes(x: string, b: string, o: string, op: CmpOp, c: string, y: string)
    requires IsName(x) && IsName(y) && AllSpace(b) && AllSpace(c) && Spells(o, Rel(op))
    ensures Lex(x + (b + (o + (c + y)))) == Some([Atom(x), Rel(op), Atom(y)])
  {
    LastName(c, y);
    OperatorThen(b, o, op, c + y, [Atom(y)]);
    NameThen(x, b + (o + (c + y)), [Rel(op)] + [Atom(y)]);
    assert [Atom(x)] + ([Rel(op)] + [Atom(y)]) == [Atom(x), Rel(op), Atom(y)];
  }

  /** Two names and an operator between them, with or without blanks, read as the comparison the
      operator stands for. */
  lemma ComparisonReads(x: string, b: string, o: string, op: CmpOp, c: string, y: string)
    requires IsName(x) && IsName(y) && AllSpace(b) && AllSpace(c) && Spells(o, Rel(op))
    ensures ParseText(x + (b + (o + (c + y)))) == Some(Cmp(op, x, Atom(y)))
  {
    CmpLexes(x, b, o, op, c, y);
    CmpDerives(op, x, y);
    ParseIffDerives(Cmp(op, x, Atom(y)), [Atom(x), Rel(op), Atom(y)]);
  }

  lemma EquationInstance()
    ensures ParseText("A=n") == Some(Cmp(Eq, "A", Atom("n")))
  {
    ComparisonReads("A", "", "=", Eq, "", "n");
    assert "A" + ("" + ("=" + ("" + "n"))) == "A=n";
  }
}
