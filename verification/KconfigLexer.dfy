/** The tokenizer of Kconfig expressions: the function it computes, the loop that
    computes it, and how tokenizing distributes over concatenation. */
module KconfigLexer {
  import opened Option
  import opened Chars
  import opened KconfigExpr

  predicate IsAtomChar(c: char) {
    IsUpper(c) || IsLower(c) || IsDigit(c) || c == '_' || c == '$' || c == '.' || c == '-'
  }

  /** Length of a quoted literal's body and closing quote, or 0 when the quote never
      closes.  A backslash escapes any character but a newline. */
  function QuoteLen(s: string): (n: nat)
    ensures n <= |s|
    ensures n > 0 ==> s[n - 1] == '"'
  {
    if s == "" then 0
    else if s[0] == '"' then 1
    else if s[0] == '\\' then
      if |s| < 2 || s[1] == '\n' || QuoteLen(s[2..]) == 0 then 0 else QuoteLen(s[2..]) + 2
    else if QuoteLen(s[1..]) == 0 then 0 else QuoteLen(s[1..]) + 1
  }

  /** Length of the longest run of atom characters at the start of s. */
  function AtomLen(s: string): (n: nat)
    ensures n <= |s|
    ensures forall k :: 0 <= k < n ==> IsAtomChar(s[k])
    ensures n < |s| ==> !IsAtomChar(s[n])
  {
    if s == "" || !IsAtomChar(s[0]) then 0 else AtomLen(s[1..]) + 1
  }

  /** The operator that starts with c when `next` follows it; longer operators win. */
  function Operator(c: char, next: char): (r: Option<(Token, nat)>)
    ensures r.Some? ==> 1 <= r.value.1 <= 2 && (r.value.1 == 2 ==> next in "&|=")
  {
    if c == '&' then if next == '&' then Some((AndTok, 2)) else None
    else if c == '|' then if next == '|' then Some((OrTok, 2)) else None
    else if c == '!' then if next == '=' then Some((Rel(Ne), 2)) else Some((NotTok, 1))
    else if c == '<' then if next == '=' then Some((Rel(Le), 2)) else Some((Rel(Lt), 1))
    else if c == '>' then if next == '=' then Some((Rel(Ge), 2)) else Some((Rel(Gt), 1))
    else if c == '(' then Some((LPar, 1))
    else if c == ')' then Some((RPar, 1))
    else if c == '=' then Some((Rel(Eq), 1))
    else None
  }

  /** What follows the first character; a blank stands for the end of the text. */
  function Second(s: string): char { if |s| > 1 then s[1] else ' ' }

  /** The token at the start of s with its length. */
  function NextToken(s: string): (r: Option<(Token, nat)>)
    requires s != ""
    ensures r.Some? ==> 0 < r.value.1 <= |s|
  {
    if s[0] == '"' then
      var n := QuoteLen(s[1..]);
      if n == 0 then None else Some((Atom(s[..n + 1]), n + 1))
    else if IsAtomChar(s[0]) then Some((Atom(s[..AtomLen(s)]), AtomLen(s)))
    else Operator(s[0], Second(s))
  }

  /** All tokens of s, or None where the original raises ValueError. */
  function Lex(s: string): Option<seq<Token>> {
    if s == "" then Some([])
    else if IsSpace(s[0]) then Lex(s[1..])
    else match NextToken(s)
      case None => None
      case Some((tok, n)) => Prepend(tok, Lex(s[n..]))
  }

  function Prepend(tok: Token, rest: Option<seq<Token>>): Option<seq<Token>> {
    match rest case None => None case Some(ts) => Some([tok] + ts)
  }

  /** Concatenation of two token lists, failing when either does. */
  function Joined(a: Option<seq<Token>>, b: Option<seq<Token>>): Option<seq<Token>> {
    if a.Some? && b.Some? then Some(a.value + b.value) else None
  }

  lemma JoinedLaws(a: seq<Token>, tok: Token, b: Option<seq<Token>>)
    ensures Joined(Some([]), b) == b
    ensures Joined(Some(a), Some([])) == Some(a)
    ensures Joined(Some([tok] + a), b) == Prepend(tok, Joined(Some(a), b))
    ensures Joined(Some(a + [tok]), b) == Joined(Some(a), Prepend(tok, b))
  {
    assert a + [] == a;
    if b.Some? {
      assert [] + b.value == b.value;
      assert [tok] + a + b.value == [tok] + (a + b.value);
      assert a + [tok] + b.value == a + ([tok] + b.value);
    }
  }

  predicate AllSpace(s: string) { forall k :: 0 <= k < |s| ==> IsSpace(s[k]) }

  function SpaceLen(s: string): (n: nat)
    ensures n <= |s| && AllSpace(s[..n])
    ensures n < |s| ==> !IsSpace(s[n])
  {
    if s == "" || !IsSpace(s[0]) then 0 else SpaceLen(s[1..]) + 1
  }

  lemma {:induction false} LexSkipsSpaces(s: string, n: nat)
    requires n <= |s| && AllSpace(s[..n])
    ensures Lex(s) == Lex(s[n..])
  {
    if n > 0 {
      assert IsSpace(s[..n][0]);
      assert s[1..][..n - 1] == s[..n][1..];
      LexSkipsSpaces(s[1..], n - 1);
      assert s[1..][n - 1..] == s[n..];
    } else {
      assert s[0..] == s;
    }
  }

  /** One round of the loop below: blanks, then one token. */
  lemma LexRound(s: string)
    ensures SpaceLen(s) == |s| ==> Lex(s) == Some([])
    ensures SpaceLen(s) < |s| ==>
      var t := s[SpaceLen(s)..];
      Lex(s) == if NextToken(t).None? then None else Prepend(NextToken(t).value.0, Lex(t[NextToken(t).value.1..]))
  {
    LexSkipsSpaces(s, SpaceLen(s));
  }

  /** The tokenizing loop. */
  method Tokenize(text: string) returns (tokens: Option<seq<Token>>)
    ensures tokens == Lex(text)
  {
    var found: seq<Token> := [];
    var pos := 0;
    assert text[0..] == text;
    JoinedLaws([], AndTok, Lex(text));
    while pos < |text|
      invariant 0 <= pos <= |text|
      invariant Lex(text) == Joined(Some(found), Lex(text[pos..]))
    {
      var rest := text[pos..];
      LexRound(rest);
      JoinedLaws(found, AndTok, None);
      var skip := SpaceLen(rest);
      if skip == |rest| {
        return Some(found);
      }
      var m := NextToken(rest[skip..]);
      if m.None? {
        return None;
      }
      var next := pos + skip + m.value.1;
      assert rest[skip..][m.value.1..] == text[next..];
      JoinedLaws(found, m.value.0, Lex(text[next..]));
      found := found + [m.value.0];
      pos := next;
    }
    JoinedLaws(found, AndTok, None);
    return Some(found);
  }

  // ---- Texts of tokens ----

  predicate ValidAtom(x: string) {
    || (|x| > 0 && AtomLen(x) == |x|)
    || (|x| > 1 && x[0] == '"' && QuoteLen(x[1..]) == |x| - 1)
  }

  predicate ValidToken(t: Token) { t.Atom? ==> ValidAtom(t.text) }

  function OpText(op: CmpOp): string {
    match op
    case Eq => "=" case Ne => "!=" case Lt => "<" case Le => "<=" case Gt => ">" case Ge => ">="
  }

  function TokenText(t: Token): string {
    match t
    case AndTok => "&&"
    case OrTok => "||"
    case NotTok => "!"
    case LPar => "("
    case RPar => ")"
    case Rel(op) => OpText(op)
    case Atom(x) => x
  }

  lemma {:induction false} QuotePrefix(s: string)
    requires QuoteLen(s) > 0
    ensures QuoteLen(s[..QuoteLen(s)]) == QuoteLen(s)
  {
    var n := QuoteLen(s);
    if s[0] == '"' {
    } else if s[0] == '\\' {
      QuotePrefix(s[2..]);
      assert s[..n][2..] == s[2..][..n - 2];
    } else {
      QuotePrefix(s[1..]);
      assert s[..n][1..] == s[1..][..n - 1];
    }
  }

  lemma {:induction false} AtomPrefix(s: string, n: nat)
    requires n <= AtomLen(s)
    ensures AtomLen(s[..n]) == n
  {
    assert forall k :: 0 <= k < n ==> s[..n][k] == s[k];
  }

  lemma NextTokenIsValid(s: string)
    requires s != "" && NextToken(s).Some?
    ensures ValidToken(NextToken(s).value.0)
  {
    if s[0] == '"' {
      QuotePrefix(s[1..]);
      var n := QuoteLen(s[1..]);
      assert s[..n + 1][1..] == s[1..][..n];
    } else {
      AtomPrefix(s, AtomLen(s));
    }
  }

  lemma {:induction false} LexedTokensAreValid(s: string)
    requires Lex(s).Some?
    ensures forall t :: t in Lex(s).value ==> ValidToken(t)
  {
    if s == "" {
    } else if IsSpace(s[0]) {
      LexedTokensAreValid(s[1..]);
    } else {
      NextTokenIsValid(s);
      LexedTokensAreValid(s[NextToken(s).value.1..]);
    }
  }

  // ---- Maximal munch ----

  /** No token continues over the start of r. */
  predicate Stops(r: string) { r == "" || r[0] == ' ' || r[0] == '(' || r[0] == ')' }

  lemma DropConcat(s: string, n: nat, r: string)
    requires n <= |s|
    ensures (s + r)[n..] == s[n..] + r
  {
  }

  lemma {:induction false} QuoteExtends(s: string, r: string)
    requires QuoteLen(s) > 0
    ensures QuoteLen(s + r) == QuoteLen(s)
  {
    if s[0] == '"' {
    } else if s[0] == '\\' {
      QuoteExtends(s[2..], r);
      assert (s + r)[2..] == s[2..] + r;
    } else {
      QuoteExtends(s[1..], r);
      assert (s + r)[1..] == s[1..] + r;
    }
  }

  lemma AtomExtends(s: string, r: string)
    requires Stops(r)
    ensures AtomLen(s + r) == AtomLen(s)
  {
    assert forall k :: 0 <= k < |s| ==> (s + r)[k] == s[k];
    if r != "" {
      assert (s + r)[|s|] == r[0] && !IsAtomChar(r[0]);
    }
  }

  lemma NextTokenExtends(s: string, r: string)
    requires s != "" && NextToken(s).Some? && Stops(r)
    ensures NextToken(s + r) == NextToken(s)
  {
    assert (s + r)[0] == s[0];
    if s[0] == '"' {
      QuoteExtends(s[1..], r);
      assert (s + r)[1..] == s[1..] + r;
      var n := QuoteLen(s[1..]) + 1;
      assert (s + r)[..n] == s[..n];
    } else if IsAtomChar(s[0]) {
      AtomExtends(s, r);
      assert (s + r)[..AtomLen(s)] == s[..AtomLen(s)];
    } else if |s| > 1 {
      assert (s + r)[1] == s[1];
    } else if r != "" {
      assert (s + r)[1] == r[0];
    }
  }

  /** Tokenizing distributes over concatenation wherever the right part starts with a
      blank or a parenthesis. */
  lemma {:induction false} LexAppend(s: string, r: string)
    requires Lex(s).Some? && Stops(r)
    ensures Lex(s + r) == Joined(Lex(s), Lex(r))
  {
    if s == "" {
      assert s + r == r;
      JoinedLaws([], AndTok, Lex(r));
    } else if IsSpace(s[0]) {
      LexAppend(s[1..], r);
      DropConcat(s, 1, r);
    } else {
      var (tok, n) := NextToken(s).value;
      NextTokenExtends(s, r);
      DropConcat(s, n, r);
      LexAppend(s[n..], r);
      JoinedLaws(Lex(s[n..]).value, tok, Lex(r));
    }
  }

  lemma NextTokenOfText(t: Token)
    requires ValidToken(t)
    ensures TokenText(t) != "" && NextToken(TokenText(t)) == Some((t, |TokenText(t)|))
    ensures !IsSpace(TokenText(t)[0])
  {
    var x := TokenText(t);
    if t.Atom? {
      assert x[..|x|] == x;
    } else {
      assert !IsAtomChar(x[0]) && x[0] != '"';
      assert Operator(x[0], Second(x)) == Some((t, |x|));
    }
  }

  lemma LexOneToken(t: Token)
    requires ValidToken(t)
    ensures Lex(TokenText(t)) == Some([t])
  {
    NextTokenOfText(t);
    var x := TokenText(t);
    assert x[|x|..] == "";
    assert Lex(x) == Prepend(t, Lex(x[|x|..]));
    assert [t] + [] == [t];
  }

  lemma LexBlank(r: string)
    ensures Lex(" " + r) == Lex(r)
  {
    assert (" " + r)[1..] == r;
  }

  /** A parenthesis is a token whatever follows it. */
  lemma LexParen(c: char, r: string)
    requires c == '(' || c == ')'
    ensures Lex([c] + r) == Prepend(if c == '(' then LPar else RPar, Lex(r))
  {
    var s := [c] + r;
    assert s[0] == c && s[1..] == r;
    assert NextToken(s) == Operator(c, Second(s));
  }

  predicate Lexes(s: string, ts: seq<Token>) { Lex(s) == Some(ts) }

  lemma LexCat(s: string, a: seq<Token>, r: string, b: seq<Token>)
    requires Lexes(s, a) && Lexes(r, b) && Stops(r)
    ensures Lexes(s + r, a + b)
  {
    LexAppend(s, r);
  }
}
