/** Finding "depends on X if Y" in a line: the pattern of the original as a backtracking
    scanner, and the rewriting of whole lines. */
module KconfigLine {
  import opened Option
  import opened KconfigExpr
  import opened KconfigParser
  import opened KconfigRewrite

  predicate IsBlank(c: char) { c == ' ' || c == '\t' }

  predicate Blank(s: string) { forall c :: c in s ==> IsBlank(c) }

  predicate Gap(s: string) { s != "" && Blank(s) }

  /** Text without a comment sign; never empty. */
  predicate Plain(s: string) { s != "" && '#' !in s }

  predicate IsComment(s: string) { s == "" || s[0] == '#' }

  // ---- The shape of a line, from its end to its beginning ----

  /** A condition, blanks, and perhaps a comment. */
  ghost predicate IsCond(w: string, cond: string, gap: string, comment: string) {
    w == cond + (gap + comment) && Plain(cond) && Blank(gap) && IsComment(comment)
  }

  ghost predicate HasCond(w: string) { exists cond, gap, comment :: IsCond(w, cond, gap, comment) }

  /** Blanks, then a condition. */
  ghost predicate IsGapCond(t: string, gap: string, w: string) { t == gap + w && Gap(gap) && HasCond(w) }

  ghost predicate HasGapCond(t: string) { exists gap, w :: IsGapCond(t, gap, w) }

  /** Blanks, "if", blanks, a condition. */
  ghost predicate IsIf(u: string, gap: string, t: string) { u == gap + ("if" + t) && Gap(gap) && HasGapCond(t) }

  ghost predicate HasIf(u: string) { exists gap, t :: IsIf(u, gap, t) }

  /** A dependency, then its condition. */
  ghost predicate IsDep(b: string, dep: string, u: string) { b == dep + u && Plain(dep) && HasIf(u) }

  ghost predicate HasDep(b: string) { exists dep, u :: IsDep(b, dep, u) }

  ghost predicate IsBody(t: string, gap: string, b: string) { t == gap + b && Gap(gap) && HasDep(b) }

  ghost predicate HasBody(t: string) { exists gap, b :: IsBody(t, gap, b) }

  function DependsOn(indent: string, gap: string, t: string): string { indent + ("depends" + (gap + ("on" + t))) }

  ghost predicate IsLine(line: string, indent: string, gap: string, t: string) {
    line == DependsOn(indent, gap, t) && Blank(indent) && Gap(gap) && HasBody(t)
  }

  ghost predicate HasLine(line: string) { exists indent, gap, t :: IsLine(line, indent, gap, t) }

  // ---- The scanner ----

  /** Length of the blanks at the front. */
  function Run(s: string): (n: nat)
    ensures n <= |s| && (n < |s| ==> !IsBlank(s[n]))
  {
    if s == "" || !IsBlank(s[0]) then 0 else 1 + Run(s[1..])
  }

  predicate EndsHere(s: string) { Run(s) == |s| || s[Run(s)] == '#' }

  /** The shortest front of s of at least n characters that has no "#" from the n-th on and is
      followed by something acceptable: what a lazy group with "[^#]+?" matches. */
  function Lazy(s: string, n: nat, follows: string -> bool): (r: Option<nat>)
    requires n >= 1
    ensures r.Some? ==> n <= r.value <= |s|
    decreases |s| + 1 - n
  {
    if n > |s| || s[n - 1] == '#' then None else if follows(s[n..]) then Some(n) else Lazy(s, n + 1, follows)
  }

  lemma {:induction false} LazySound(s: string, n: nat, follows: string -> bool)
    requires n >= 1 && (n - 1 <= |s| ==> '#' !in s[..n - 1])
    ensures Lazy(s, n, follows).Some? ==>
      Plain(s[..Lazy(s, n, follows).value]) && follows(s[Lazy(s, n, follows).value..])
    decreases |s| + 1 - n
  {
    if n <= |s| && s[n - 1] != '#' {
      assert s[..n] == s[..n - 1] + [s[n - 1]];
      if !follows(s[n..]) { LazySound(s, n + 1, follows); }
    }
  }

  lemma {:induction false} LazyFirst(s: string, n: nat, m: nat, follows: string -> bool)
    requires 1 <= n <= m <= |s| && '#' !in s[..m] && follows(s[m..])
    ensures Lazy(s, n, follows).Some? && Lazy(s, n, follows).value <= m
    decreases m - n
  {
    assert s[n - 1] in s[..m];
    if n < m && !follows(s[n..]) { LazyFirst(s, n + 1, m, follows); }
  }

  /** The longest gap of at most n blanks after which a lazy match succeeds, and that match:
      what "[ \t]+" followed by a lazy group matches. */
  function Greedy(t: string, n: nat, follows: string -> bool): (r: Option<(nat, nat)>)
    requires n <= |t|
    ensures r.Some? ==> 1 <= r.value.0 <= n && 1 <= r.value.1 <= |t| - r.value.0
  {
    if n == 0 then None
    else match Lazy(t[n..], 1, follows)
      case Some(c) => Some((n, c))
      case None => Greedy(t, n - 1, follows)
  }

  function AfterBlanks(s: string): string { s[Run(s)..] }

  /** Blanks, "if" and a condition at the front: lengths of the two gaps and the condition. */
  function IfAt(u: string): (r: Option<(nat, nat, nat)>)
    ensures r.Some? ==> r.value.0 + 2 <= |u| && r.value.1 <= |u[r.value.0..][2..]|
    ensures r.Some? ==> r.value.2 <= |u[r.value.0..][2..][r.value.1..]|
  {
    var v := AfterBlanks(u);
    if Run(u) == 0 || !("if" <= v) then None
    else match Greedy(v[2..], Run(v[2..]), EndsHere)
      case Some((n, c)) => Some((Run(u), n, c))
      case None => None
  }

  predicate IfFollows(u: string) { IfAt(u).Some? }

  /** What stands after "depends on", if the line starts with that: the indent's length and
      the rest. */
  function AfterOn(line: string): Option<(nat, string)> {
    var d := AfterBlanks(line);
    if !("depends" <= d) then None
    else
      var s := d[7..];
      if Run(s) == 0 || !("on" <= AfterBlanks(s)) then None else Some((Run(line), AfterBlanks(s)[2..]))
  }

  /** The match of the pattern in a line, if any. */
  function Scan(line: string): Option<Match> {
    match AfterOn(line)
    case None => None
    case Some((i, t)) =>
      match Greedy(t, Run(t), IfFollows)
      case None => None
      case Some((m, k)) => MatchAt(line, line[..i], t[m..][..k], t[m..][k..])
  }

  /** The match, given the dependency and what follows it. */
  function MatchAt(line: string, indent: string, dep: string, u: string): Option<Match> {
    match IfAt(u)
    case None => None
    case Some((g, n, c)) =>
      var w := u[g..][2..][n..];
      var rest := w[c..];
      var comment := rest[Run(rest)..];
      Some(Match(line, indent, dep, w[..c], if comment == "" then None else Some(comment)))
  }

  /** The substitution on one line. */
  function RewrittenLine(line: string): string {
    match Scan(line)
    case None => line
    case Some(m) => Rewritten(m)
  }

  /** `re.sub` on one line: without a match, or with a condition that does not parse, the line
      stays; otherwise the dependency X becomes an expression for or(X, lowered Y). */
  method RewriteLine(line: string) returns (out: string)
    ensures out == RewrittenLine(line)
    ensures !HasLine(line) ==> out == line
    ensures Scan(line).Some? ==>
      var m := Scan(line).value;
      && (ParseText(m.cond).None? ==> out == line)
      && (ParseText(m.cond).Some? && ParseText(m.dep).Some? ==> exists text: string ::
           ParseText(text) == Some(Or(ParseText(m.dep).value, Lower(ParseText(m.cond).value, true))) &&
           out == m.indent + "depends on " + text + Tail(m.comment))
  {
    var m := Scan(line);
    ScanIff(line);
    if m.None? {
      return line;
    }
    out := RewriteConditionalDepends(m.value);
  }

  // ---- Blanks at the front ----

  lemma {:induction false} RunIsBlank(s: string)
    ensures Blank(s[..Run(s)])
  {
    if s != "" && IsBlank(s[0]) {
      RunIsBlank(s[1..]);
      assert s[..Run(s)] == [s[0]] + s[1..][..Run(s[1..])];
    }
  }

  lemma {:induction false} RunOfGap(gap: string, s: string)
    requires Blank(gap)
    ensures Run(gap + s) == |gap| + Run(s)
  {
    if gap == "" {
      assert gap + s == s;
    } else {
      assert (gap + s)[1..] == gap[1..] + s;
      RunOfGap(gap[1..], s);
    }
  }

  lemma Drop(a: string, b: string)
    ensures (a + b)[..|a|] == a && (a + b)[|a|..] == b && a <= a + b
  {
  }

  /** After blanks, a word that does not start with one. */
  lemma WordAfter(gap: string, word: string, t: string)
    requires Blank(gap) && word != "" && !IsBlank(word[0])
    ensures var u := gap + (word + t);
            Run(u) == |gap| && AfterBlanks(u) == word + t && word <= AfterBlanks(u) && AfterBlanks(u)[|word|..] == t
  {
    var v := word + t;
    assert v[0] == word[0];
    RunOfGap(gap, v);
    Drop(gap, v);
    Drop(word, t);
  }

  // ---- Conditions ----

  lemma EndsHereShape(s: string)
    ensures EndsHere(s) <==> exists gap, comment :: Blank(gap) && IsComment(comment) && s == gap + comment
  {
    if EndsHere(s) {
      RunIsBlank(s);
      assert s == s[..Run(s)] + s[Run(s)..];
      assert IsComment(s[Run(s)..]);
    }
    if exists gap, comment :: Blank(gap) && IsComment(comment) && s == gap + comment {
      var gap, comment :| Blank(gap) && IsComment(comment) && s == gap + comment;
      RunOfGap(gap, comment);
      assert Run(comment) == 0;
      assert comment != "" ==> s[|gap|] == comment[0];
    }
  }

  lemma CondFound(w: string, n: nat)
    requires n <= |w| && Plain(w[..n]) && EndsHere(w[n..])
    ensures HasCond(w)
  {
    EndsHereShape(w[n..]);
    var gap, comment :| Blank(gap) && IsComment(comment) && w[n..] == gap + comment;
    assert w == w[..n] + (gap + comment);
    assert IsCond(w, w[..n], gap, comment);
  }

  lemma CondIff(w: string)
    ensures Lazy(w, 1, EndsHere).Some? <==> HasCond(w)
  {
    if Lazy(w, 1, EndsHere).Some? {
      assert w[..0] == "";
      LazySound(w, 1, EndsHere);
      CondFound(w, Lazy(w, 1, EndsHere).value);
    }
    if HasCond(w) {
      var cond, gap, comment :| IsCond(w, cond, gap, comment);
      Drop(cond, gap + comment);
      EndsHereShape(w[|cond|..]);
      LazyFirst(w, 1, |cond|, EndsHere);
    }
  }

  // ---- Gaps ----

  lemma {:induction false} GreedyFinds(t: string, n: nat, follows: string -> bool)
    requires n <= |t|
    ensures Greedy(t, n, follows).Some? ==>
      Lazy(t[Greedy(t, n, follows).value.0..], 1, follows) == Some(Greedy(t, n, follows).value.1)
  {
    if n > 0 { GreedyFinds(t, n - 1, follows); }
  }

  lemma {:induction false} GreedyTries(t: string, n: nat, m: nat, follows: string -> bool)
    requires 1 <= m <= n <= |t| && Lazy(t[m..], 1, follows).Some?
    ensures Greedy(t, n, follows).Some?
  {
    if m < n { GreedyTries(t, n - 1, m, follows); }
  }

  lemma Cut(s: string, n: nat)
    requires n <= |s|
    ensures s == s[..n] + s[n..]
  {
  }

  /** A gap and a lazy match are found exactly when the text is one followed by the other. */
  lemma GapIff(t: string, follows: string -> bool)
    ensures Greedy(t, Run(t), follows).Some? <==>
      exists gap, w :: t == gap + w && Gap(gap) && Lazy(w, 1, follows).Some?
  {
    if Greedy(t, Run(t), follows).Some? {
      GreedyFinds(t, Run(t), follows);
      var m := Greedy(t, Run(t), follows).value.0;
      RunIsBlank(t);
      Cut(t, m);
      assert forall c :: c in t[..m] ==> c in t[..Run(t)];
      assert Gap(t[..m]);
    }
    if exists gap, w :: t == gap + w && Gap(gap) && Lazy(w, 1, follows).Some? {
      var gap, w :| t == gap + w && Gap(gap) && Lazy(w, 1, follows).Some?;
      RunOfGap(gap, w);
      assert t[|gap|..] == w;
      GreedyTries(t, Run(t), |gap|, follows);
    }
  }

  lemma GapCondIff(t: string)
    ensures Greedy(t, Run(t), EndsHere).Some? <==> HasGapCond(t)
  {
    GapIff(t, EndsHere);
    forall w ensures Lazy(w, 1, EndsHere).Some? <==> HasCond(w) { CondIff(w); }
    if Greedy(t, Run(t), EndsHere).Some? {
      var gap, w :| t == gap + w && Gap(gap) && Lazy(w, 1, EndsHere).Some?;
      assert IsGapCond(t, gap, w);
    }
    if HasGapCond(t) {
      var gap, w :| IsGapCond(t, gap, w);
      assert t == gap + w && Gap(gap) && Lazy(w, 1, EndsHere).Some?;
    }
  }

  // ---- "if" ----

  lemma Starts(word: string, s: string)
    requires word <= s
    ensures s == word + s[|word|..]
  {
  }

  lemma IfIntro(u: string, gap: string, v: string, t: string)
    requires u == gap + v && v == "if" + t && Gap(gap) && HasGapCond(t)
    ensures HasIf(u)
  {
    assert IsIf(u, gap, t);
  }

  lemma BlanksCut(s: string)
    ensures s == s[..Run(s)] + AfterBlanks(s) && Blank(s[..Run(s)])
    ensures Run(s) > 0 ==> Gap(s[..Run(s)])
  {
    RunIsBlank(s);
  }

  lemma IfShape(u: string)
    requires IfFollows(u)
    ensures HasIf(u)
  {
    var v := AfterBlanks(u);
    BlanksCut(u);
    Starts("if", v);
    GapCondIff(v[2..]);
    IfIntro(u, u[..Run(u)], v, v[2..]);
  }

  lemma IfRead(gap: string, t: string)
    requires Gap(gap) && HasGapCond(t)
    ensures IfFollows(gap + ("if" + t))
  {
    WordAfter(gap, "if", t);
    GapCondIff(t);
  }

  lemma IfIff(u: string)
    ensures IfFollows(u) <==> HasIf(u)
  {
    if IfFollows(u) { IfShape(u); }
    if HasIf(u) {
      var gap, t :| IsIf(u, gap, t);
      IfRead(gap, t);
    }
  }

  // ---- Dependencies ----

  lemma DepFound(b: string, n: nat)
    requires n <= |b| && Plain(b[..n]) && IfFollows(b[n..])
    ensures HasDep(b)
  {
    IfShape(b[n..]);
    Cut(b, n);
    assert IsDep(b, b[..n], b[n..]);
  }

  lemma DepRead(b: string, dep: string, u: string)
    requires IsDep(b, dep, u)
    ensures Lazy(b, 1, IfFollows).Some? && Lazy(b, 1, IfFollows).value <= |dep|
  {
    Drop(dep, u);
    IfIff(u);
    LazyFirst(b, 1, |dep|, IfFollows);
  }

  /** A dependency with a condition is found exactly when the text is one, and the dependency
      found ends at the first "if" that a condition follows. */
  lemma DepIff(b: string)
    ensures Lazy(b, 1, IfFollows).Some? <==> HasDep(b)
    ensures forall dep, u :: IsDep(b, dep, u) ==> Lazy(b, 1, IfFollows).value <= |dep|
  {
    if Lazy(b, 1, IfFollows).Some? {
      assert b[..0] == "";
      LazySound(b, 1, IfFollows);
      DepFound(b, Lazy(b, 1, IfFollows).value);
    }
    forall dep, u | IsDep(b, dep, u)
      ensures Lazy(b, 1, IfFollows).Some? && Lazy(b, 1, IfFollows).value <= |dep|
    {
      DepRead(b, dep, u);
    }
  }

  // ---- Whole lines ----

  lemma BodyIff(t: string)
    ensures Greedy(t, Run(t), IfFollows).Some? <==> HasBody(t)
  {
    GapIff(t, IfFollows);
    forall b ensures Lazy(b, 1, IfFollows).Some? <==> HasDep(b) { DepIff(b); }
    if Greedy(t, Run(t), IfFollows).Some? {
      var gap, b :| t == gap + b && Gap(gap) && Lazy(b, 1, IfFollows).Some?;
      assert IsBody(t, gap, b);
    }
    if HasBody(t) {
      var gap, b :| IsBody(t, gap, b);
      assert t == gap + b && Gap(gap) && Lazy(b, 1, IfFollows).Some?;
    }
  }

  lemma OnShape(line: string) returns (gap: string)
    requires AfterOn(line).Some?
    ensures AfterOn(line).value.0 <= |line| && Blank(line[..AfterOn(line).value.0]) && Gap(gap)
    ensures line == DependsOn(line[..AfterOn(line).value.0], gap, AfterOn(line).value.1)
  {
    var d := AfterBlanks(line);
    RunIsBlank(line);
    Cut(line, Run(line));
    Starts("depends", d);
    var s := d[7..];
    RunIsBlank(s);
    Cut(s, Run(s));
    Starts("on", AfterBlanks(s));
    gap := s[..Run(s)];
  }

  lemma OnRead(indent: string, gap: string, t: string)
    requires Blank(indent) && Gap(gap)
    ensures AfterOn(DependsOn(indent, gap, t)) == Some((|indent|, t))
  {
    WordAfter(indent, "depends", gap + ("on" + t));
    WordAfter(gap, "on", t);
  }

  /** Where a dependency has been found, so has its condition. */
  lemma MatchFound(line: string, indent: string, t: string)
    requires Greedy(t, Run(t), IfFollows).Some?
    ensures var (m, k) := Greedy(t, Run(t), IfFollows).value;
            MatchAt(line, indent, t[m..][..k], t[m..][k..]).Some?
  {
    GreedyFinds(t, Run(t), IfFollows);
    var (m, k) := Greedy(t, Run(t), IfFollows).value;
    LazySound(t[m..], 1, IfFollows);
  }

  /** The scanner finds a match exactly in the lines of the pattern's shape. */
  lemma ScanIff(line: string)
    ensures Scan(line).Some? <==> HasLine(line)
  {
    if Scan(line).Some? {
      var gap := OnShape(line);
      var (i, t) := AfterOn(line).value;
      BodyIff(t);
      assert IsLine(line, line[..i], gap, t);
    }
    if HasLine(line) {
      var indent, gap, t :| IsLine(line, indent, gap, t);
      OnRead(indent, gap, t);
      BodyIff(t);
      MatchFound(line, indent, t);
    }
  }

  // ---- The groups of a match ----

  function CommentText(comment: Option<string>): string { if comment.Some? then comment.value else "" }

  /** What follows a dependency: blanks, "if", blanks, the condition, blanks, the comment. */
  function Rest(g3: string, g4: string, cond: string, g5: string, comment: Option<string>): string {
    g3 + ("if" + (g4 + (cond + (g5 + CommentText(comment)))))
  }

  predicate CommentOk(comment: Option<string>) {
    comment.Some? ==> comment.value != "" && comment.value[0] == '#'
  }

  /** The groups of a match with the blanks between them. */
  ghost predicate IsParted(m: Match, g1: string, g2: string, g3: string, g4: string, g5: string) {
    && m.whole == DependsOn(m.indent, g1, g2 + (m.dep + Rest(g3, g4, m.cond, g5, m.comment)))
    && Blank(m.indent) && Gap(g1) && Gap(g2) && Gap(g3) && Gap(g4) && Blank(g5)
    && Plain(m.dep) && Plain(m.cond) && CommentOk(m.comment)
  }

  /** No shorter front of dep can be the dependency. */
  ghost predicate Shortest(dep: string, rest: string) {
    forall n :: 1 <= n < |dep| ==> !HasIf((dep + rest)[n..])
  }

  lemma {:induction false} LazyLeast(s: string, n: nat, follows: string -> bool, k: nat)
    requires n >= 1 && Lazy(s, n, follows).Some? && n <= k < Lazy(s, n, follows).value
    ensures !follows(s[k..])
    decreases |s| + 1 - n
  {
    if n < k { LazyLeast(s, n + 1, follows, k); }
  }

  /** Blanks and a lazy match cut off the front of t. */
  lemma GreedyCuts(t: string, follows: string -> bool)
    requires Greedy(t, Run(t), follows).Some?
    ensures
      var (n, k) := Greedy(t, Run(t), follows).value;
      && t == t[..n] + (t[n..][..k] + t[n..][k..]) && Gap(t[..n]) && Plain(t[n..][..k])
      && follows(t[n..][k..]) && Lazy(t[n..], 1, follows) == Some(k)
  {
    GreedyFinds(t, Run(t), follows);
    var (n, k) := Greedy(t, Run(t), follows).value;
    RunIsBlank(t);
    assert forall c :: c in t[..n] ==> c in t[..Run(t)];
    assert t[n..][..0] == "";
    LazySound(t[n..], 1, follows);
    Cut(t, n);
    Cut(t[n..], k);
  }

  lemma CondGroups(w: string, c: nat) returns (g5: string, comment: Option<string>)
    requires c <= |w| && EndsHere(w[c..])
    ensures Blank(g5) && CommentOk(comment) && w[c..] == g5 + CommentText(comment)
    ensures comment == if w[c..][Run(w[c..])..] == "" then None else Some(w[c..][Run(w[c..])..])
  {
    var rest := w[c..];
    RunIsBlank(rest);
    Cut(rest, Run(rest));
    g5 := rest[..Run(rest)];
    comment := if rest[Run(rest)..] == "" then None else Some(rest[Run(rest)..]);
  }

  lemma IfGroups(line: string, indent: string, dep: string, u: string)
    returns (g3: string, g4: string, g5: string)
    requires MatchAt(line, indent, dep, u).Some?
    ensures
      var m := MatchAt(line, indent, dep, u).value;
      && m.whole == line && m.indent == indent && m.dep == dep
      && u == Rest(g3, g4, m.cond, g5, m.comment) && Gap(g3) && Gap(g4) && Blank(g5) && Plain(m.cond) && CommentOk(m.comment)
  {
    BlanksCut(u);
    Starts("if", AfterBlanks(u));
    g3 := u[..Run(u)];
    var t := AfterBlanks(u)[2..];
    GreedyCuts(t, EndsHere);
    var (n, c) := Greedy(t, Run(t), EndsHere).value;
    g4 := t[..n];
    var comment;
    g5, comment := CondGroups(t[n..], c);
  }

  /** The groups of a match, with the blanks between them, make up the line; and the dependency
      is the shortest that a condition can follow. */
  lemma ScanGroups(line: string) returns (g1: string, g2: string, g3: string, g4: string, g5: string)
    requires Scan(line).Some?
    ensures
      var m := Scan(line).value;
      && m.whole == line && IsParted(m, g1, g2, g3, g4, g5)
      && Shortest(m.dep, Rest(g3, g4, m.cond, g5, m.comment))
  {
    g1 := OnShape(line);
    var (i, t) := AfterOn(line).value;
    GreedyCuts(t, IfFollows);
    var (n, k) := Greedy(t, Run(t), IfFollows).value;
    g2 := t[..n];
    var dep, u := t[n..][..k], t[n..][k..];
    g3, g4, g5 := IfGroups(line, line[..i], dep, u);
    Cut(t[n..], k);
    forall j | 1 <= j < |dep| ensures !HasIf((dep + u)[j..]) {
      LazyLeast(t[n..], 1, IfFollows, j);
      IfIff((dep + u)[j..]);
    }
  }

  // ---- Lines from their groups ----

  predicate Trimmed(s: string) { s != "" && !IsBlank(s[0]) && !IsBlank(s[|s| - 1]) }

  lemma {:induction false} RunInside(s: string, t: string)
    requires s != "" && !IsBlank(s[|s| - 1])
    ensures Run(s + t) == Run(s) < |s|
  {
    if IsBlank(s[0]) {
      assert (s + t)[1..] == s[1..] + t;
      RunInside(s[1..], t);
    }
  }

  lemma DropInside(a: string, b: string, n: nat)
    requires n <= |a|
    ensures (a + b)[n..] == a[n..] + b
  {
  }

  /** Nothing ends inside a condition. */
  lemma NoEarlyEnd(cond: string, tail: string, k: nat)
    requires Trimmed(cond) && '#' !in cond && k < |cond|
    ensures !EndsHere((cond + tail)[k..])
  {
    var d := cond[k..];
    DropInside(cond, tail, k);
    assert d[|d| - 1] == cond[|cond| - 1];
    RunInside(d, tail);
    assert (d + tail)[Run(d)] == cond[k + Run(d)];
    assert cond[k + Run(d)] in cond;
  }

  lemma CondEnds(cond: string, tail: string)
    requires Trimmed(cond) && '#' !in cond && EndsHere(tail)
    ensures Lazy(cond + tail, 1, EndsHere) == Some(|cond|)
  {
    var w := cond + tail;
    Drop(cond, tail);
    LazyFirst(w, 1, |cond|, EndsHere);
    LazySound(w, 1, EndsHere);
    var k := Lazy(w, 1, EndsHere).value;
    if k < |cond| { NoEarlyEnd(cond, tail, k); }
  }

  lemma TailEnds(g5: string, comment: Option<string>)
    requires Blank(g5) && CommentOk(comment)
    ensures var tail := g5 + CommentText(comment);
            EndsHere(tail) && tail[Run(tail)..] == CommentText(comment)
  {
    var c := CommentText(comment);
    RunOfGap(g5, c);
    Drop(g5, c);
    assert Run(c) == 0;
    assert c != "" ==> (g5 + c)[|g5|] == c[0];
  }

  lemma GapHere(g4: string, cond: string, tail: string)
    requires Gap(g4) && Trimmed(cond) && '#' !in cond && EndsHere(tail)
    ensures var t := g4 + (cond + tail);
            Run(t) == |g4| && Greedy(t, |g4|, EndsHere) == Some((|g4|, |cond|))
  {
    var w := cond + tail;
    CondEnds(cond, tail);
    assert w[0] == cond[0];
    RunOfGap(g4, w);
    Drop(g4, w);
  }

  lemma IfHere(g3: string, g4: string, cond: string, g5: string, comment: Option<string>)
    requires Gap(g3) && Gap(g4) && Blank(g5) && Trimmed(cond) && '#' !in cond && CommentOk(comment)
    ensures var u := Rest(g3, g4, cond, g5, comment);
            IfAt(u) == Some((|g3|, |g4|, |cond|)) && u[|g3|..][2..][|g4|..] == cond + (g5 + CommentText(comment))
  {
    var tail := g5 + CommentText(comment);
    var t := g4 + (cond + tail);
    TailEnds(g5, comment);
    GapHere(g4, cond, tail);
    WordAfter(g3, "if", t);
    Drop(g3, "if" + t);
    Drop(g4, cond + tail);
  }

  lemma MatchHere(line: string, indent: string, dep: string, g3: string, g4: string, cond: string, g5: string,
                  comment: Option<string>)
    requires Gap(g3) && Gap(g4) && Blank(g5) && Trimmed(cond) && '#' !in cond && CommentOk(comment)
    ensures MatchAt(line, indent, dep, Rest(g3, g4, cond, g5, comment)) == Some(Match(line, indent, dep, cond, comment))
  {
    IfHere(g3, g4, cond, g5, comment);
    TailEnds(g5, comment);
    Drop(cond, g5 + CommentText(comment));
  }

  /** The lazy group stops at dep exactly when no shorter front of it would do. */
  lemma DepHere(dep: string, u: string)
    requires Plain(dep) && IfFollows(u)
    ensures Lazy(dep + u, 1, IfFollows).Some? && Lazy(dep + u, 1, IfFollows).value <= |dep|
    ensures Lazy(dep + u, 1, IfFollows) == Some(|dep|) <==> Shortest(dep, u)
  {
    var b := dep + u;
    Drop(dep, u);
    LazyFirst(b, 1, |dep|, IfFollows);
    LazySound(b, 1, IfFollows);
    var k := Lazy(b, 1, IfFollows).value;
    IfIff(b[k..]);
    if k == |dep| {
      forall j | 1 <= j < |dep| ensures !HasIf(b[j..]) {
        LazyLeast(b, 1, IfFollows, j);
        IfIff(b[j..]);
      }
    }
  }

  lemma BodyHere(g2: string, b: string, k: nat)
    requires Gap(g2) && b != "" && !IsBlank(b[0]) && Lazy(b, 1, IfFollows) == Some(k)
    ensures Greedy(g2 + b, Run(g2 + b), IfFollows) == Some((|g2|, k)) && (g2 + b)[|g2|..] == b
  {
    Drop(g2, b);
    RunOfGap(g2, b);
    assert Run(b) == 0;
  }

  /** The match in a line, once the end of its dependency is known. */
  lemma ScanAt(indent: string, g1: string, g2: string, b: string, k: nat)
    requires Blank(indent) && Gap(g1) && Gap(g2) && b != "" && !IsBlank(b[0]) && Lazy(b, 1, IfFollows) == Some(k)
    ensures var line := DependsOn(indent, g1, g2 + b);
            Scan(line) == MatchAt(line, indent, b[..k], b[k..])
  {
    OnRead(indent, g1, g2 + b);
    Drop(indent, "depends" + (g1 + ("on" + (g2 + b))));
    BodyHere(g2, b, k);
  }

  lemma RestFollows(g3: string, g4: string, cond: string, g5: string, comment: Option<string>)
    requires Gap(g3) && Gap(g4) && Blank(g5) && Trimmed(cond) && '#' !in cond && CommentOk(comment)
    ensures IfFollows(Rest(g3, g4, cond, g5, comment))
  {
    IfHere(g3, g4, cond, g5, comment);
  }

  lemma MatchKeepsDep(line: string, indent: string, dep: string, u: string)
    requires MatchAt(line, indent, dep, u).Some?
    ensures MatchAt(line, indent, dep, u).value.dep == dep
  {
  }

  /** A line put together from trimmed groups, with any blanks between them, is taken apart into
      these groups exactly when no condition begins inside the dependency. */
  lemma ScanReads(m: Match, g1: string, g2: string, g3: string, g4: string, g5: string)
    requires IsParted(m, g1, g2, g3, g4, g5) && Trimmed(m.dep) && Trimmed(m.cond)
    ensures Scan(m.whole) == Some(m) <==> Shortest(m.dep, Rest(g3, g4, m.cond, g5, m.comment))
  {
    var u := Rest(g3, g4, m.cond, g5, m.comment);
    var b := m.dep + u;
    RestFollows(g3, g4, m.cond, g5, m.comment);
    DepHere(m.dep, u);
    var k := Lazy(b, 1, IfFollows).value;
    assert b[0] == m.dep[0];
    ScanAt(m.indent, g1, g2, b, k);
    if k == |m.dep| {
      Drop(m.dep, u);
      MatchHere(m.whole, m.indent, m.dep, g3, g4, m.cond, g5, m.comment);
    } else if Scan(m.whole).Some? {
      MatchKeepsDep(m.whole, m.indent, b[..k], b[k..]);
      assert |b[..k]| == k;
    }
  }

  // ---- Dependencies without the word "if" ----

  /** A blank-separated word "if" at the front of u. */
  predicate WordIf(u: string) {
    Run(u) > 0 && |u| >= Run(u) + 3 && u[Run(u)] == 'i' && u[Run(u) + 1] == 'f' && IsBlank(u[Run(u) + 2])
  }

  predicate NoWordIf(dep: string) { forall n :: 1 <= n < |dep| ==> !WordIf((dep + " ")[n..]) }

  lemma WordIfFollows(u: string)
    requires IfFollows(u)
    ensures WordIf(u)
  {
    var g := Run(u);
    assert u[g..][0] == 'i' && u[g..][1] == 'f';
    assert u[g + 2..] != "" && Run(u[g + 2..]) > 0;
  }

  lemma WordIfMoves(d: string, rest: string)
    requires d != "" && !IsBlank(d[|d| - 1]) && rest != "" && IsBlank(rest[0]) && WordIf(d + rest)
    ensures WordIf(d + " ")
  {
    RunInside(d, rest);
    RunInside(d, " ");
    var r, e := Run(d), d + rest;
    assert e[r] == d[r] == (d + " ")[r];
    assert e[|d|] == rest[0] && (d + " ")[|d|] == ' ';
    assert e[r + 1] == d[r + 1] == (d + " ")[r + 1];
    assert r + 2 < |d| ==> e[r + 2] == (d + " ")[r + 2];
  }

  /** Inside a dependency without the word "if" no condition begins. */
  lemma NoWordIfIsShortest(dep: string, rest: string)
    requires Trimmed(dep) && NoWordIf(dep) && rest != "" && IsBlank(rest[0])
    ensures Shortest(dep, rest)
  {
    forall n | 1 <= n < |dep| ensures !HasIf((dep + rest)[n..]) {
      var d := dep[n..];
      DropInside(dep, " ", n);
      DropInside(dep, rest, n);
      assert d[|d| - 1] == dep[|dep| - 1];
      IfIff(d + rest);
      if IfFollows(d + rest) {
        WordIfFollows(d + rest);
        WordIfMoves(d, rest);
      }
    }
  }

  // ---- From line to line ----

  /** Every line: without the pattern, or with a condition that does not parse, it stays as it
      is; otherwise it becomes X || (Y lowered) with the comment kept, which when X is an
      expression means X wherever Y reads true, and y elsewhere. */
  lemma LineRewriteMeaning(line: string, env: Env)
    requires env.Valid()
    ensures !HasLine(line) ==> RewrittenLine(line) == line
    ensures HasLine(line) ==> Scan(line).Some?
    ensures Scan(line).Some? ==>
      var m := Scan(line).value;
      && (ParseText(m.cond).None? ==> RewrittenLine(line) == line)
      && (ParseText(m.cond).Some? ==>
            var text := Dependency(m.dep, ParseText(m.cond).value);
            && RewrittenLine(line) == m.indent + "depends on " + text + Tail(m.comment)
            && (ParseText(m.dep).Some? ==>
                  var x, y := ParseText(m.dep).value, ParseText(m.cond).value;
                  ParseText(text).Some? &&
                  Eval(ParseText(text).value, env) == (if Truth(y, env) then Eval(x, env) else 2)))
  {
    ScanIff(line);
    if Scan(line).Some? {
      var m := Scan(line).value;
      var g1, g2, g3, g4, g5 := ScanGroups(line);
      if ParseText(m.cond).Some? {
        RewrittenTail(m);
        if ParseText(m.dep).Some? { RewriteMeaning(m.dep, m.cond, env); }
      }
    }
  }
}
