/** Printing of Kconfig expressions and the rewriting of "depends on X if Y" lines. */
module KconfigRewrite {
  import opened Option
  import opened KconfigExpr
  import opened KconfigLexer
  import opened KconfigParser

  function Paren(s: string): string { "(" + s + ")" }

  /** Three texts separated by single blanks. */
  function Spaced(s: string, op: string, t: string): string { s + (" " + (op + (" " + t))) }

  /** `_emit_kconfig_expr`. */
  function Emit(e: Expr): string {
    match e
    case Sym(s) => s
    case Cmp(op, a, b) => Spaced(a, OpText(op), TokenText(b))
    case Not(a) => "!" + Paren(Emit(a))
    case And(a, b) => Spaced(Paren(Emit(a)), "&&", Paren(Emit(b)))
    case Or(a, b) => Spaced(Paren(Emit(a)), "||", Paren(Emit(b)))
  }

  /** `_trans_compare_n`, which produces text directly. */
  function TransCompareN(e: Expr, equal: bool): string {
    match e
    case Sym(s) => Spaced(s, if equal then "=" else "!=", "n")
    case Not(a) => TransCompareN(a, !equal)
    case Cmp(_, _, _) => if equal then "!" + Paren(Emit(e)) else Emit(e)
    case And(a, b) =>
      var inner := Spaced(Paren(TransCompareN(a, true)), "||", Paren(TransCompareN(b, true)));
      if equal then inner else "!" + Paren(inner)
    case Or(a, b) =>
      var inner := Spaced(Paren(TransCompareN(a, true)), "&&", Paren(TransCompareN(b, true)));
      if equal then inner else "!" + Paren(inner)
  }

  /** The text produced is the printed form of the lowered tree. */
  lemma {:induction false} TransCompareIsEmittedLowering(e: Expr, equal: bool)
    ensures TransCompareN(e, equal) == Emit(Lower(e, equal))
  {
    match e
    case Sym(s) =>
    case Cmp(op, a, b) =>
    case Not(a) => TransCompareIsEmittedLowering(a, !equal);
    case And(a, b) => TransCompareIsEmittedLowering(a, true); TransCompareIsEmittedLowering(b, true);
    case Or(a, b) => TransCompareIsEmittedLowering(a, true); TransCompareIsEmittedLowering(b, true);
  }

  // ---- Printing, tokenizing and parsing again ----

  /** The operands are texts the tokenizer can produce. */
  predicate WellFormed(e: Expr) {
    match e
    case Sym(s) => ValidAtom(s)
    case Cmp(_, a, b) => ValidAtom(a) && ValidToken(b)
    case Not(a) => WellFormed(a)
    case And(a, b) => WellFormed(a) && WellFormed(b)
    case Or(a, b) => WellFormed(a) && WellFormed(b)
  }

  function TParen(ts: Tokens): Tokens { [LPar] + ts + [RPar] }

  /** The token list of the printed form. */
  ghost function EmitTokens(e: Expr): Tokens {
    match e
    case Sym(s) => [Atom(s)]
    case Cmp(op, a, b) => [Atom(a)] + ([Rel(op)] + [b])
    case Not(a) => [NotTok] + TParen(EmitTokens(a))
    case And(a, b) => TParen(EmitTokens(a)) + ([AndTok] + TParen(EmitTokens(b)))
    case Or(a, b) => TParen(EmitTokens(a)) + ([OrTok] + TParen(EmitTokens(b)))
  }

  lemma LexParens(s: string, ts: Tokens)
    requires Lexes(s, ts)
    ensures Lexes(Paren(s), TParen(ts))
  {
    LexOneToken(RPar);
    LexCat(s, ts, ")", [RPar]);
    LexParen('(', s + ")");
    assert Paren(s) == ['('] + (s + ")");
    assert TParen(ts) == [LPar] + (ts + [RPar]);
  }

  lemma LexNegated(s: string, ts: Tokens)
    requires Lexes(s, ts)
    ensures Lexes("!" + Paren(s), [NotTok] + TParen(ts))
  {
    LexParens(s, ts);
    LexOneToken(NotTok);
    LexCat("!", [NotTok], Paren(s), TParen(ts));
  }

  lemma LexSpaced(s: string, a: Tokens, op: Token, t: string, b: Tokens)
    requires Lexes(s, a) && Lexes(t, b) && ValidToken(op)
    ensures Lexes(Spaced(s, TokenText(op), t), a + ([op] + b))
  {
    LexBlank(t);
    LexOneToken(op);
    LexCat(TokenText(op), [op], " " + t, b);
    LexBlank(TokenText(op) + (" " + t));
    LexCat(s, a, " " + (TokenText(op) + (" " + t)), [op] + b);
  }

  lemma LexInfix(s: string, a: Tokens, op: Token, t: string, b: Tokens)
    requires Lexes(s, a) && Lexes(t, b) && (op == AndTok || op == OrTok)
    ensures Lexes(Spaced(Paren(s), TokenText(op), Paren(t)), TParen(a) + ([op] + TParen(b)))
  {
    LexParens(s, a);
    LexParens(t, b);
    LexSpaced(Paren(s), TParen(a), op, Paren(t), TParen(b));
  }

  lemma LexComparison(a: string, op: CmpOp, b: Token)
    requires ValidAtom(a) && ValidToken(b)
    ensures Lexes(Spaced(a, OpText(op), TokenText(b)), [Atom(a)] + ([Rel(op)] + [b]))
  {
    LexOneToken(Atom(a));
    LexOneToken(b);
    LexSpaced(a, [Atom(a)], Rel(op), TokenText(b), [b]);
  }

  lemma {:induction false} LexEmit(e: Expr)
    requires WellFormed(e)
    ensures Lexes(Emit(e), EmitTokens(e))
  {
    match e
    case Sym(s) => LexOneToken(Atom(s));
    case Cmp(op, a, b) => LexComparison(a, op, b);
    case Not(a) => LexEmit(a); LexNegated(Emit(a), EmitTokens(a));
    case And(a, b) =>
      LexEmit(a); LexEmit(b);
      LexInfix(Emit(a), EmitTokens(a), AndTok, Emit(b), EmitTokens(b));
    case Or(a, b) =>
      LexEmit(a); LexEmit(b);
      LexInfix(Emit(a), EmitTokens(a), OrTok, Emit(b), EmitTokens(b));
  }

  lemma OrOfParens(a: Expr, u: Tokens, b: Expr, v: Tokens)
    requires IsOr(a, u) && IsOr(b, v)
    ensures IsOr(Or(a, b), TParen(u) + ([OrTok] + TParen(v)))
  {
    ParenIntro(a, u); ParenIntro(b, v);
    OrIntro(a, TParen(u), b, TParen(v));
    Assoc(TParen(u), [OrTok], TParen(v));
  }

  lemma AndOfParens(a: Expr, u: Tokens, b: Expr, v: Tokens)
    requires IsOr(a, u) && IsOr(b, v)
    ensures IsOr(And(a, b), TParen(u) + ([AndTok] + TParen(v)))
  {
    ParenIntro(a, u); ParenIntro(b, v);
    AndIntro(a, TParen(u), b, TParen(v));
    Assoc(TParen(u), [AndTok], TParen(v));
  }

  lemma {:induction false} EmitTokensDerive(e: Expr)
    ensures IsOr(e, EmitTokens(e))
  {
    match e
    case Sym(s) =>
    case Cmp(op, a, b) =>
      assert IsUnary(e, EmitTokens(e));
    case Not(a) =>
      EmitTokensDerive(a);
      ParenIntro(a, EmitTokens(a));
      assert EmitTokens(e)[1..] == TParen(EmitTokens(a));
    case And(a, b) =>
      EmitTokensDerive(a); EmitTokensDerive(b);
      AndOfParens(a, EmitTokens(a), b, EmitTokens(b));
    case Or(a, b) =>
      EmitTokensDerive(a); EmitTokensDerive(b);
      OrOfParens(a, EmitTokens(a), b, EmitTokens(b));
  }

  lemma {:induction false} DerivedIsWellFormed(e: Expr, ts: Tokens)
    requires IsOr(e, ts) && forall t :: t in ts ==> ValidToken(t)
    ensures WellFormed(e)
    decreases |ts|
  {
    if IsUnary(e, ts) {
      match ts[0]
      case NotTok =>
        assert IsOr(e.arg, ts[1..]);
        DerivedIsWellFormed(e.arg, ts[1..]);
      case LPar => DerivedIsWellFormed(e, ts[1..|ts| - 1]);
      case Atom(x) => assert ValidToken(ts[0]) && ValidToken(ts[|ts| - 1]);
    } else if IsAnd(e, ts) {
      var k :| 0 <= k < |ts| && ts[k] == AndTok && IsAnd(e.l, ts[..k]) && IsUnary(e.r, ts[k + 1..]);
      DerivedIsWellFormed(e.l, ts[..k]);
      DerivedIsWellFormed(e.r, ts[k + 1..]);
    } else {
      var k :| 0 <= k < |ts| && ts[k] == OrTok && IsOr(e.l, ts[..k]) && IsAnd(e.r, ts[k + 1..]);
      DerivedIsWellFormed(e.l, ts[..k]);
      DerivedIsWellFormed(e.r, ts[k + 1..]);
    }
  }

  lemma ParsedIsWellFormed(s: string)
    requires ParseText(s).Some?
    ensures WellFormed(ParseText(s).value)
  {
    LexedTokensAreValid(s);
    ParseIffDerives(ParseText(s).value, Lex(s).value);
    DerivedIsWellFormed(ParseText(s).value, Lex(s).value);
  }

  /** Printing and parsing again gives the tree back. */
  lemma EmitParses(e: Expr)
    requires WellFormed(e)
    ensures ParseText(Emit(e)) == Some(e)
  {
    LexEmit(e);
    EmitTokensDerive(e);
    ParseIffDerives(e, EmitTokens(e));
  }

  /** Text-level round trip: whatever parses at all still parses to the same tree after
      printing. */
  lemma RoundTrip(s: string)
    requires ParseText(s).Some?
    ensures ParseText(Emit(ParseText(s).value)) == ParseText(s)
  {
    ParsedIsWellFormed(s);
    EmitParses(ParseText(s).value);
  }

  lemma {:induction false} LowerWellFormed(e: Expr, equal: bool)
    requires WellFormed(e)
    ensures WellFormed(Lower(e, equal))
  {
    match e
    case Sym(s) => assert AtomLen("n"[1..]) == 0;
    case Cmp(op, a, b) =>
    case Not(a) => LowerWellFormed(a, !equal);
    case And(a, b) => LowerWellFormed(a, true); LowerWellFormed(b, true);
    case Or(a, b) => LowerWellFormed(a, true); LowerWellFormed(b, true);
  }

  // ---- Lines ----

  /** A match of the conditional-dependency pattern: the whole line and its named groups. */
  datatype Match = Match(whole: string, indent: string, dep: string, cond: string, comment: Option<string>)

  /** A comment is kept behind a blank; an empty one counts as none. */
  function Tail(comment: Option<string>): string {
    if comment.Some? && comment.value != "" then " " + comment.value else ""
  }

  /** `_rewrite_conditional_depends`: a condition that does not parse leaves the line alone;
      otherwise the text X becomes "(X) || (Z)", Z a text for Y lowered, which reads as the
      tree or(X, lowered Y) whenever X is an expression. */
  method RewriteConditionalDepends(m: Match) returns (line: string)
    ensures line == Rewritten(m)
    ensures ParseText(m.cond).None? ==> line == m.whole
    ensures ParseText(m.cond).Some? ==> exists low: string ::
      ParseText(low) == Some(Lower(ParseText(m.cond).value, true)) &&
      line == m.indent + "depends on " + Spaced(Paren(m.dep), "||", Paren(low)) + Tail(m.comment)
    ensures ParseText(m.cond).Some? && ParseText(m.dep).Some? ==> exists text: string ::
      ParseText(text) == Some(Or(ParseText(m.dep).value, Lower(ParseText(m.cond).value, true))) &&
      line == m.indent + "depends on " + text + Tail(m.comment)
  {
    var y := ParseKconfigExpr(m.cond);
    if y.None? {
      return m.whole;
    }
    line := m.indent + "depends on " + Dependency(m.dep, y.value);
    if m.comment.Some? && m.comment.value != "" {
      line := line + " " + m.comment.value;
    }
    RewrittenMeaning(m);
  }

  /** The expression part of a rewritten line. */
  function Dependency(dep: string, y: Expr): string {
    Spaced(Paren(dep), "||", Paren(TransCompareN(y, true)))
  }

  function Rewritten(m: Match): string {
    match ParseText(m.cond)
    case None => m.whole
    case Some(y) =>
      var line := m.indent + "depends on " + Dependency(m.dep, y);
      if m.comment.Some? && m.comment.value != "" then line + " " + m.comment.value else line
  }

  lemma RewrittenTail(m: Match)
    requires ParseText(m.cond).Some?
    ensures Rewritten(m) == m.indent + "depends on " + Dependency(m.dep, ParseText(m.cond).value) + Tail(m.comment)
  {
    var line := m.indent + "depends on " + Dependency(m.dep, ParseText(m.cond).value);
    if Tail(m.comment) != "" {
      assert line + " " + m.comment.value == line + (" " + m.comment.value);
    } else {
      assert line + "" == line;
    }
  }

  lemma RewrittenMeaning(m: Match)
    requires ParseText(m.cond).Some?
    ensures exists low: string ::
      ParseText(low) == Some(Lower(ParseText(m.cond).value, true)) &&
      Rewritten(m) == m.indent + "depends on " + Spaced(Paren(m.dep), "||", Paren(low)) + Tail(m.comment)
    ensures ParseText(m.dep).Some? ==> exists text: string ::
      ParseText(text) == Some(Or(ParseText(m.dep).value, Lower(ParseText(m.cond).value, true))) &&
      Rewritten(m) == m.indent + "depends on " + text + Tail(m.comment)
  {
    var y := ParseText(m.cond).value;
    RewrittenTail(m);
    TransCompareIsEmittedLowering(y, true);
    ParsedIsWellFormed(m.cond);
    LowerWellFormed(y, true);
    EmitParses(Lower(y, true));
    if ParseText(m.dep).Some? {
      RewriteParses(m.dep, m.cond);
    }
  }

  /** The rewritten expression parses to or(X, lowered Y): the text of X cannot reach
      over the parenthesis that closes it. */
  lemma RewriteParses(dep: string, cond: string)
    requires ParseText(dep).Some? && ParseText(cond).Some?
    ensures ParseText(Dependency(dep, ParseText(cond).value))
         == Some(Or(ParseText(dep).value, Lower(ParseText(cond).value, true)))
  {
    var x, y := ParseText(dep).value, ParseText(cond).value;
    var low := Lower(y, true);
    TransCompareIsEmittedLowering(y, true);
    ParsedIsWellFormed(cond);
    LowerWellFormed(y, true);
    var a, b := Lex(dep).value, EmitTokens(low);
    LexEmit(low);
    LexInfix(dep, a, OrTok, Emit(low), b);
    ParseIffDerives(x, a);
    EmitTokensDerive(low);
    OrOfParens(x, a, low, b);
    ParseIffDerives(Or(x, low), TParen(a) + ([OrTok] + TParen(b)));
  }

  /** End to end: in every environment the rewritten text evaluates to X or, when the
      two-valued reading of Y is false, to y; and without modules in Y that is also the
      value of the encoding made inside the parser. */
  lemma RewriteMeaning(dep: string, cond: string, env: Env)
    requires env.Valid() && ParseText(dep).Some? && ParseText(cond).Some?
    ensures
      var x, y := ParseText(dep).value, ParseText(cond).value;
      var e := ParseText(Dependency(dep, y));
      && e.Some?
      && Eval(e.value, env) == (if Truth(y, env) then Eval(x, env) else 2)
      && (NoModule(y, env) ==> Eval(e.value, env) == Eval(PatchedDependency(x, y), env))
  {
    RewriteParses(dep, cond);
    var x, y := ParseText(dep).value, ParseText(cond).value;
    LoweringExact(y, true, env);
    if NoModule(y, env) {
      EncodingsAgreeWithoutModules(x, y, env);
    }
  }
}
