/** The lines that are rewritten, and what they become, in literal characters. */
module KconfigShape {
  import opened Option
  import opened KconfigExpr
  import opened KconfigLexer
  import opened KconfigParser
  import opened KconfigRewrite
  import opened KconfigLine
  import KconfigSpelling

  predicate IsBlankOrTab(c: char) { c == ' ' || c == '\t' }

  predicate Blanks(s: string) { forall c :: c in s ==> c == ' ' || c == '\t' }

  predicate NoHash(s: string) { s != "" && forall c :: c in s ==> c != '#' }

  /** The groups of a line and the blanks between them. */
  datatype Parts = Parts(
    indent: string, g1: string, g2: string, dep: string, g3: string, g4: string, cond: string, g5: string, comment: string)
  {
    predicate Fit() {
      && Blanks(indent) && Blanks(g1) && Blanks(g2) && Blanks(g3) && Blanks(g4) && Blanks(g5)
      && g1 != "" && g2 != "" && g3 != "" && g4 != ""
      && NoHash(dep) && NoHash(cond)
      && (comment != "" ==> comment[0] == '#')
    }

    function Ending(): string { g3 + ("if" + (g4 + (cond + (g5 + comment)))) }

    function Line(): string { indent + ("depends" + (g1 + ("on" + (g2 + (dep + Ending()))))) }
  }

  ghost predicate IsParts(line: string, p: Parts) { p.Fit() && line == p.Line() }

  function CommentOf(p: Parts): Option<string> { if p.comment == "" then None else Some(p.comment) }

  function MatchOf(p: Parts): Match { Match(p.Line(), p.indent, p.dep, p.cond, CommentOf(p)) }

  lemma FitIsParted(p: Parts)
    requires p.Fit()
    ensures IsParted(MatchOf(p), p.g1, p.g2, p.g3, p.g4, p.g5)
    ensures Rest(p.g3, p.g4, p.cond, p.g5, CommentOf(p)) == p.Ending()
  {
    assert CommentText(CommentOf(p)) == p.comment;
  }

  lemma ScannedParts(line: string) returns (p: Parts)
    requires Scan(line).Some?
    ensures IsParts(line, p) && Scan(line) == Some(MatchOf(p)) && Shortest(p.dep, p.Ending())
  {
    var m := Scan(line).value;
    var g1, g2, g3, g4, g5 := ScanGroups(line);
    p := Parts(m.indent, g1, g2, m.dep, g3, g4, m.cond, g5, CommentText(m.comment));
    assert m.comment == CommentOf(p);
  }

  lemma PartsAreMatched(p: Parts)
    requires p.Fit()
    ensures Scan(p.Line()).Some?
  {
    var w := p.cond + (p.g5 + p.comment);
    assert IsCond(w, p.cond, p.g5, p.comment);
    var t := p.g4 + w;
    assert IsGapCond(t, p.g4, w);
    assert IsIf(p.Ending(), p.g3, t);
    var b := p.dep + p.Ending();
    assert IsDep(b, p.dep, p.Ending());
    assert IsBody(p.g2 + b, p.g2, b);
    assert IsLine(p.Line(), p.indent, p.g1, p.g2 + b);
    ScanIff(p.Line());
  }

  /** A line is matched exactly when it has the shape. */
  lemma MatchedExactly(line: string)
    ensures Scan(line).Some? <==> exists p :: IsParts(line, p)
  {
    if Scan(line).Some? { var p := ScannedParts(line); }
    forall p | IsParts(line, p) ensures Scan(line).Some? { PartsAreMatched(p); }
  }

  /** The new line: indent, the dependency in parentheses, "or", a text for the lowered condition
      in parentheses, and the comment behind a blank. */
  ghost predicate IsNewLine(out: string, p: Parts, y: Expr) {
    exists low: string :: ParseText(low) == Some(Lower(y, true)) &&
      out == p.indent + "depends on " + ("(" + p.dep + ")" + (" || " + ("(" + low + ")")))
             + if p.comment == "" then "" else " " + p.comment
  }

  ghost predicate Becomes(line: string, p: Parts, out: string) {
    if ParseText(p.cond).None? then out == line else IsNewLine(out, p, ParseText(p.cond).value)
  }

  lemma LoweredText(cond: string)
    requires ParseText(cond).Some?
    ensures ParseText(TransCompareN(ParseText(cond).value, true)) == Some(Lower(ParseText(cond).value, true))
  {
    TransCompareIsEmittedLowering(ParseText(cond).value, true);
    ParsedIsWellFormed(cond);
    LowerWellFormed(ParseText(cond).value, true);
    EmitParses(Lower(ParseText(cond).value, true));
  }

  lemma OrText(s: string, t: string)
    ensures Spaced(Paren(s), "||", Paren(t)) == "(" + s + ")" + (" || " + ("(" + t + ")"))
  {
    var b := "(" + t + ")";
    assert " || " + b == " " + ("||" + (" " + b));
  }

  lemma NewLine(p: Parts)
    requires Scan(p.Line()) == Some(MatchOf(p)) && ParseText(p.cond).Some?
    ensures IsNewLine(RewrittenLine(p.Line()), p, ParseText(p.cond).value)
  {
    var y := ParseText(p.cond).value;
    RewrittenTail(MatchOf(p));
    LoweredText(p.cond);
    OrText(p.dep, TransCompareN(y, true));
    NewLineIntro(p, y, TransCompareN(y, true), RewrittenLine(p.Line()));
  }

  lemma NewLineIntro(p: Parts, y: Expr, low: string, out: string)
    requires ParseText(low) == Some(Lower(y, true))
    requires out == p.indent + "depends on " + ("(" + p.dep + ")" + (" || " + ("(" + low + ")"))) + Tail(CommentOf(p))
    ensures IsNewLine(out, p, y)
  {
  }

  /** Every line: one that is not of the shape stays; and one that is has groups such that it
      stays when the condition does not parse, and otherwise becomes the new line. */
  lemma RewrittenLiterally(line: string)
    ensures (forall p :: !IsParts(line, p)) ==> RewrittenLine(line) == line
    ensures (exists p :: IsParts(line, p)) ==> (exists p :: IsParts(line, p) && Becomes(line, p, RewrittenLine(line)))
  {
    MatchedExactly(line);
    if Scan(line).Some? {
      var p := ScannedParts(line);
      if ParseText(p.cond).Some? { NewLine(p); }
    }
  }

  // ---- The groups, when they are trimmed ----

  predicate NoBlankEdge(s: string) { s != "" && !IsBlankOrTab(s[0]) && !IsBlankOrTab(s[|s| - 1]) }

  /** "if" between blanks at r. */
  predicate IfIn(u: string, r: nat) {
    && 1 <= r && r + 2 < |u|
    && IsBlankOrTab(u[r - 1]) && u[r] == 'i' && u[r + 1] == 'f' && IsBlankOrTab(u[r + 2])
  }

  /** No "if" between blanks, not even at the end of s. */
  ghost predicate NoInnerIf(s: string) { forall r: nat :: !IfIn(s + " ", r) }

  lemma WordIfAt(u: string) returns (r: nat)
    requires WordIf(u)
    ensures IfIn(u, r)
  {
    r := Run(u);
    RunIsBlank(u);
    assert u[..r][r - 1] == u[r - 1];
    assert u[r - 1] in u[..r];
  }

  lemma IfInSuffix(d: string, n: nat, r: nat)
    requires n <= |d| && IfIn(d[n..], r)
    ensures IfIn(d, n + r)
  {
  }

  lemma NoWordIfAt(d: string, n: nat)
    requires n <= |d| && forall r: nat :: !IfIn(d, r)
    ensures !WordIf(d[n..])
  {
    if WordIf(d[n..]) {
      var r := WordIfAt(d[n..]);
      IfInSuffix(d, n, r);
    }
  }

  lemma NoInnerWordIf(dep: string)
    requires NoInnerIf(dep)
    ensures NoWordIf(dep)
  {
    forall n | 1 <= n < |dep| ensures !WordIf((dep + " ")[n..]) { NoWordIfAt(dep + " ", n); }
  }

  /** Trimmed groups without an inner "if" are found as they are, whatever blanks and tabs stand
      between them. */
  lemma TrimmedIsScanned(p: Parts)
    requires p.Fit() && NoBlankEdge(p.dep) && NoInnerIf(p.dep) && NoBlankEdge(p.cond)
    ensures Scan(p.Line()) == Some(MatchOf(p))
  {
    FitIsParted(p);
    NoInnerWordIf(p.dep);
    NoWordIfIsShortest(p.dep, p.Ending());
    ScanReads(MatchOf(p), p.g1, p.g2, p.g3, p.g4, p.g5);
  }

  /** And the line becomes the new line. */
  lemma TrimmedIsRewritten(p: Parts)
    requires p.Fit() && NoBlankEdge(p.dep) && NoInnerIf(p.dep) && NoBlankEdge(p.cond)
    ensures Becomes(p.Line(), p, RewrittenLine(p.Line()))
  {
    TrimmedIsScanned(p);
    if ParseText(p.cond).Some? { NewLine(p); }
  }

  // ---- Instances ----

  lemma NegatedName(s: string)
    requires KconfigSpelling.IsName(s)
    ensures ParseText("!" + s) == Some(Not(Sym(s)))
  {
    var ts := [NotTok] + [Atom(s)];
    assert s[0] in s && s[0] != '=';
    KconfigSpelling.LastName("", s);
    assert "" + s == s && "" + ("!" + s) == "!" + s;
    KconfigSpelling.LexFirst("", "!", NotTok, s, [Atom(s)]);
    assert ts[1..] == [Atom(s)];
    assert IsUnary(Sym(s), [Atom(s)]) && IsUnary(Not(Sym(s)), ts);
    ParseIffDerives(Not(Sym(s)), ts);
  }

  lemma NegatedText(dep: string, s: string)
    ensures Dependency(dep, Not(Sym(s))) == "(" + dep + ")" + (" || " + ("(" + (s + " != n") + ")"))
  {
    OrText(dep, s + " != n");
    assert TransCompareN(Not(Sym(s)), true) == TransCompareN(Sym(s), false) == Spaced(s, "!=", "n");
    assert " " + ("!=" + (" " + "n")) == " != n";
  }

  /** "depends on X if !S", with any indent and blanks. */
  lemma NegatedConditionLine(p: Parts, s: string)
    requires p.Fit() && NoBlankEdge(p.dep) && NoInnerIf(p.dep)
    requires KconfigSpelling.IsName(s) && p.cond == "!" + s && p.comment == ""
    ensures RewrittenLine(p.Line()) == p.indent + "depends on " + ("(" + p.dep + ")" + (" || " + ("(" + (s + " != n") + ")")))
  {
    assert s[|s| - 1] in s;
    NegatedName(s);
    NegatedText(p.dep, s);
    TrimmedIsScanned(p);
    assert Rewritten(MatchOf(p)) == p.indent + "depends on " + Dependency(p.dep, Not(Sym(s)));
  }

  predicate IsTabInstance(p: Parts) { p == Parts("\t", " ", " ", "USB", " ", " ", "!USB_GADGET", "", "") }

  lemma TabEnding()
    ensures " " + ("if" + (" " + ("!USB_GADGET" + ("" + "")))) == " if !USB_GADGET"
  {
  }

  lemma TabMiddle()
    ensures "on" + (" " + ("USB" + " if !USB_GADGET")) == "on USB if !USB_GADGET"
  {
  }

  lemma TabFront()
    ensures "\t" + ("depends" + (" " + "on USB if !USB_GADGET")) == "\tdepends on USB if !USB_GADGET"
  {
  }

  lemma TabLine(p: Parts)
    requires IsTabInstance(p)
    ensures p.Line() == "\tdepends on USB if !USB_GADGET"
  {
    TabEnding();
    TabMiddle();
    TabFront();
  }

  lemma TabGroups(p: Parts)
    requires IsTabInstance(p)
    ensures p.Fit() && NoBlankEdge(p.dep) && NoInnerIf(p.dep)
    ensures p.cond == "!" + "USB_GADGET"
  {
    assert p.dep + " " == "USB ";
    assert forall r: nat :: 1 <= r && r + 2 < |"USB "| ==> "USB "[r] != 'i';
  }

  lemma TabOutput()
    ensures "\t" + "depends on " + ("(" + "USB" + ")" + (" || " + ("(" + ("USB_GADGET" + " != n") + ")")))
         == "\tdepends on (USB) || (USB_GADGET != n)"
  {
  }

  lemma NameInstance()
    ensures KconfigSpelling.IsName("USB_GADGET")
  {
  }

  /** Kconfig files indent with a tab. */
  lemma TabInstance()
    ensures RewrittenLine("\tdepends on USB if !USB_GADGET") == "\tdepends on (USB) || (USB_GADGET != n)"
  {
    var p := Parts("\t", " ", " ", "USB", " ", " ", "!USB_GADGET", "", "");
    TabLine(p);
    TabGroups(p);
    NameInstance();
    NegatedConditionLine(p, "USB_GADGET");
    TabOutput();
  }
}
