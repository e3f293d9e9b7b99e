/** The modules.alias table, indexed by the bus of each pattern, against a scan of all of it. */
module Alias {
  import opened Option
  import opened Chars
  import opened Lines

  /** One line of the table: modaliases that match the pattern are served by the module. */
  datatype Entry = Entry(pattern: string, mod: string)

  // ---- Reading a line ----

  predicate Blank(s: string) { forall c :: c in s ==> IsSpace(c) }

  predicate IsWord(s: string) { s != "" && forall c :: c in s ==> !IsSpace(c) }

  function WordLen(s: string): (n: nat)
    ensures n <= |s|
  {
    if s == "" || IsSpace(s[0]) then 0 else 1 + WordLen(s[1..])
  }

  /** The scanner for "alias", blanks, a word, blanks, a word, perhaps blanks. */
  function AliasEntry(line: string): Option<Entry> {
    if |line| < 6 || line[..5] != "alias" || !IsSpace(line[5]) then None
    else
      var a := TrimLeft(line[5..], IsSpace);
      var b := TrimLeft(a[WordLen(a)..], IsSpace);
      if WordLen(a) == 0 || WordLen(b) == 0 || TrimLeft(b[WordLen(b)..], IsSpace) != "" then None
      else Some(Entry(a[..WordLen(a)], b[..WordLen(b)]))
  }

  /** The shape of an alias line. */
  ghost predicate IsAliasLine(line: string, pattern: string, mod: string) {
    && IsWord(pattern) && IsWord(mod)
    && exists b1, b2, b3 | Blank(b1) && Blank(b2) && Blank(b3) ::
         b1 != "" && b2 != "" && line == "alias" + (b1 + (pattern + (b2 + (mod + b3))))
  }

  lemma {:induction false} SkipBlank(b: string, s: string)
    requires Blank(b) && (s == "" || !IsSpace(s[0]))
    ensures TrimLeft(b + s, IsSpace) == s
  {
    if b == "" {
      assert b + s == s;
    } else {
      assert (b + s)[1..] == b[1..] + s;
      SkipBlank(b[1..], s);
    }
  }

  lemma {:induction false} TakeWord(w: string, s: string)
    requires forall c :: c in w ==> !IsSpace(c)
    requires s == "" || IsSpace(s[0])
    ensures WordLen(w + s) == |w|
  {
    if w == "" {
      assert w + s == s;
    } else {
      assert (w + s)[1..] == w[1..] + s;
      TakeWord(w[1..], s);
    }
  }

  /** What the word scanner takes is a word, and it stops only at a blank. */
  lemma {:induction false} WordTaken(s: string)
    ensures forall c :: c in s[..WordLen(s)] ==> !IsSpace(c)
    ensures s[WordLen(s)..] == "" || IsSpace(s[WordLen(s)..][0])
  {
    if s != "" && !IsSpace(s[0]) {
      WordTaken(s[1..]);
      assert s[..WordLen(s)] == [s[0]] + s[1..][..WordLen(s[1..])];
      assert s[WordLen(s)..] == s[1..][WordLen(s[1..])..];
    }
  }

  lemma {:induction false} SkippedFront(s: string) returns (b: string)
    ensures s == b + TrimLeft(s, IsSpace) && Blank(b)
  {
    if s == "" || !IsSpace(s[0]) {
      b := "";
    } else {
      b := SkippedFront(s[1..]);
      assert s == [s[0]] + s[1..];
      assert [s[0]] + (b + TrimLeft(s, IsSpace)) == ([s[0]] + b) + TrimLeft(s, IsSpace);
      b := [s[0]] + b;
    }
  }

  lemma AliasLineRead(b1: string, p: string, b2: string, m: string, b3: string)
    requires Blank(b1) && Blank(b2) && Blank(b3) && b1 != "" && b2 != "" && IsWord(p) && IsWord(m)
    ensures AliasEntry("alias" + (b1 + (p + (b2 + (m + b3))))) == Some(Entry(p, m))
  {
    var line := "alias" + (b1 + (p + (b2 + (m + b3))));
    assert line[..5] == "alias" && line[5..] == b1 + (p + (b2 + (m + b3)));
    assert line[5] == b1[0];
    var a := p + (b2 + (m + b3));
    SkipBlank(b1, a);
    TakeWord(p, b2 + (m + b3));
    assert a[..|p|] == p && a[|p|..] == b2 + (m + b3);
    var b := m + b3;
    SkipBlank(b2, b);
    TakeWord(m, b3);
    assert b[..|m|] == m && b[|m|..] == b3;
    SkipBlank(b3, "");
    assert b3 + "" == b3;
  }

  lemma {:induction false} FirstVisible(s: string)
    ensures TrimLeft(s, IsSpace) != "" ==> !IsSpace(TrimLeft(s, IsSpace)[0])
  {
    if s != "" && IsSpace(s[0]) { FirstVisible(s[1..]); }
  }

  /** Blanks and a word off the front of s. */
  lemma NextWord(s: string, u: string) returns (b: string, w: string, t: string)
    requires u == TrimLeft(s, IsSpace) && WordLen(u) > 0
    ensures w == u[..WordLen(u)] && t == u[WordLen(u)..]
    ensures s == b + (w + t) && Blank(b) && IsWord(w)
    ensures t == "" || IsSpace(t[0])
    ensures IsSpace(s[0]) ==> b != ""
  {
    b := SkippedFront(s);
    w, t := u[..WordLen(u)], u[WordLen(u)..];
    WordTaken(u);
    FirstVisible(s);
    assert u == w + t;
  }

  lemma AliasLineIntro(rest: string, t: string, b1: string, p: string, b2: string, m: string, b3: string)
    requires Blank(b1) && Blank(b2) && Blank(b3) && b1 != "" && b2 != "" && IsWord(p) && IsWord(m)
    requires rest == b1 + (p + t) && t == b2 + (m + b3)
    ensures IsAliasLine("alias" + rest, p, m)
  {
  }

  lemma AliasLineShape(line: string)
    requires AliasEntry(line).Some?
    ensures IsAliasLine(line, AliasEntry(line).value.pattern, AliasEntry(line).value.mod)
  {
    var rest := line[5..];
    var b1, p, t := NextWord(rest, TrimLeft(rest, IsSpace));
    var b2, m, b3 := NextWord(t, TrimLeft(t, IsSpace));
    var b := SkippedFront(b3);
    assert b + "" == b;
    AliasLineIntro(rest, t, b1, p, b2, m, b3);
    assert line == "alias" + rest;
  }

  /** A line is read as an alias exactly when it has the shape of one; pattern and module are
      determined by the line. */
  lemma AliasLineIff(line: string, pattern: string, mod: string)
    ensures AliasEntry(line) == Some(Entry(pattern, mod)) <==> IsAliasLine(line, pattern, mod)
  {
    if AliasEntry(line) == Some(Entry(pattern, mod)) {
      AliasLineShape(line);
    }
    if IsAliasLine(line, pattern, mod) {
      var b1, b2, b3 :| Blank(b1) && Blank(b2) && Blank(b3) && b1 != "" && b2 != "" &&
        line == "alias" + (b1 + (pattern + (b2 + (mod + b3))));
      AliasLineRead(b1, pattern, b2, mod, b3);
    }
  }

  // ---- The index ----

  /** The entries of the table in the order of its lines. */
  function Entries(lines: seq<string>): seq<Entry> {
    if lines == [] then []
    else
      var front := Entries(lines[..|lines| - 1]);
      match AliasEntry(lines[|lines| - 1])
      case Some(e) => front + [e]
      case None => front
  }

  function ColonPos(s: string): (n: nat)
    ensures n <= |s| && ':' !in s[..n] && (n < |s| ==> s[n] == ':')
  {
    if s == "" || s[0] == ':' then 0 else 1 + ColonPos(s[1..])
  }

  /** The bus of a pattern or modalias: the text before its first ":", or all of it. */
  function Key(s: string): string { s[..ColonPos(s)] }

  lemma {:induction false} KeyBeforeColon(k: string, rest: string)
    requires ':' !in k
    ensures Key(k) == k && Key(k + (":" + rest)) == k
  {
    if k == "" {
      assert k + (":" + rest) == ":" + rest;
    } else {
      assert k == [k[0]] + k[1..];
      assert k + (":" + rest) == [k[0]] + (k[1..] + (":" + rest));
      KeyBeforeColon(k[1..], rest);
      KeyStep(k[0], k[1..]);
      KeyStep(k[0], k[1..] + (":" + rest));
    }
  }

  /** The entries filed under a key, in table order. */
  function Bucket(es: seq<Entry>, key: string): seq<Entry> {
    if es == [] then []
    else
      var front := Bucket(es[..|es| - 1], key);
      if Key(es[|es| - 1].pattern) == key then front + [es[|es| - 1]] else front
  }

  lemma {:induction false} BucketMembers(es: seq<Entry>, key: string, e: Entry)
    ensures e in Bucket(es, key) <==> e in es && Key(e.pattern) == key
  {
    if es != [] {
      BucketMembers(es[..|es| - 1], key, e);
      assert es == es[..|es| - 1] + [es[|es| - 1]];
    }
  }

  /** Every entry is filed under its key, in table order. */
  ghost predicate IsIndex(buckets: map<string, seq<Entry>>, es: seq<Entry>) {
    && (forall key :: key in buckets <==> Bucket(es, key) != [])
    && (forall key :: key in buckets ==> buckets[key] == Bucket(es, key))
  }

  /** `_load_modules_alias`; None stands for a file that cannot be read. */
  method LoadModulesAlias(file: Option<seq<string>>) returns (buckets: map<string, seq<Entry>>)
    ensures file.None? ==> buckets == map[]
    ensures file.Some? ==> IsIndex(buckets, Entries(file.value))
  {
    buckets := map[];
    if file.None? {
      return;
    }
    var lines := file.value;
    for i := 0 to |lines|
      invariant forall key :: key in buckets <==> Bucket(Entries(lines[..i]), key) != []
      invariant forall key :: key in buckets ==> buckets[key] == Bucket(Entries(lines[..i]), key)
    {
      assert lines[..i + 1][..i] == lines[..i];
      ghost var es := Entries(lines[..i]);
      match AliasEntry(lines[i]) {
        case None =>
        case Some(e) =>
          assert Entries(lines[..i + 1]) == es + [e] && (es + [e])[..|es|] == es;
          var bus := Key(e.pattern);
          buckets := buckets[bus := (if bus in buckets then buckets[bus] else []) + [e]];
      }
    }
    assert lines[..|lines|] == lines;
  }

  // ---- Shell patterns ----

  datatype Glob = Star | One | Class(body: string) | Lit(c: char)

  /** Position of the "]" that closes a class whose "[" is just before s. */
  function CloseFrom(s: string, from: nat): (r: Option<nat>)
    ensures r.Some? ==> from <= r.value < |s| && s[r.value] == ']'
    decreases |s| - from
  {
    if from >= |s| then None else if s[from] == ']' then Some(from) else CloseFrom(s, from + 1)
  }

  function ClassEnd(s: string): (r: Option<nat>)
    ensures r.Some? ==> r.value < |s| && s[r.value] == ']'
  {
    var j := if s != "" && s[0] == '!' then 1 else 0;
    CloseFrom(s, if j < |s| && s[j] == ']' then j + 1 else j)
  }

  /** fnmatch.translate: "*", "?", a bracketed class, or the character itself; a "[" that is
      never closed is literal. */
  function ParseGlob(p: string): seq<Glob>
    decreases |p|
  {
    if p == "" then []
    else if p[0] == '*' then [Star] + ParseGlob(p[1..])
    else if p[0] == '?' then [One] + ParseGlob(p[1..])
    else if p[0] == '[' then
      match ClassEnd(p[1..])
      case Some(n) => [Class(p[1..n + 1])] + ParseGlob(p[n + 2..])
      case None => [Lit('[')] + ParseGlob(p[1..])
    else [Lit(p[0])] + ParseGlob(p[1..])
  }

  /** Whether a class accepts a character is left to the regular-expression engine. */
  type ClassTest = (string, char) -> bool

  predicate Accepts(g: Glob, c: char, inClass: ClassTest) {
    match g
    case Star => true
    case One => true
    case Class(body) => inClass(body, c)
    case Lit(d) => c == d
  }

  predicate MatchGlob(gs: seq<Glob>, s: string, inClass: ClassTest)
    decreases |gs|, |s|
  {
    if gs == [] then s == ""
    else if gs[0].Star? then
      MatchGlob(gs[1..], s, inClass) || (s != "" && MatchGlob(gs, s[1..], inClass))
    else s != "" && Accepts(gs[0], s[0], inClass) && MatchGlob(gs[1..], s[1..], inClass)
  }

  /** fnmatch.fnmatchcase. */
  predicate FnMatch(s: string, pattern: string, inClass: ClassTest) {
    MatchGlob(ParseGlob(pattern), s, inClass)
  }

  /** `_resolve_modalias`. */
  function ResolveModalias(raw: string, buckets: map<string, seq<Entry>>, inClass: ClassTest): set<string> {
    var bucket := if Key(raw) in buckets then buckets[Key(raw)] else [];
    set e | e in bucket && FnMatch(raw, e.pattern, inClass) :: e.mod
  }

  /** The naive scan the index replaces. */
  function FullScan(raw: string, es: seq<Entry>, inClass: ClassTest): set<string> {
    set e | e in es && FnMatch(raw, e.pattern, inClass) :: e.mod
  }

  // ---- Index against scan ----

  /** The index finds exactly the modules with a matching pattern on the bus of the modalias. */
  lemma IndexFinds(raw: string, mod: string, buckets: map<string, seq<Entry>>, es: seq<Entry>, inClass: ClassTest)
    requires IsIndex(buckets, es)
    ensures mod in ResolveModalias(raw, buckets, inClass) <==>
      exists e :: e in es && e.mod == mod && FnMatch(raw, e.pattern, inClass) && Key(e.pattern) == Key(raw)
  {
    var bucket := if Key(raw) in buckets then buckets[Key(raw)] else [];
    assert bucket == Bucket(es, Key(raw));
    forall e ensures e in bucket <==> e in es && Key(e.pattern) == Key(raw) {
      BucketMembers(es, Key(raw), e);
    }
  }

  /** Nothing is found that the scan would not find. */
  lemma IndexWithinScan(raw: string, buckets: map<string, seq<Entry>>, es: seq<Entry>, inClass: ClassTest)
    requires IsIndex(buckets, es)
    ensures ResolveModalias(raw, buckets, inClass) <= FullScan(raw, es, inClass)
  {
    forall mod | mod in ResolveModalias(raw, buckets, inClass) ensures mod in FullScan(raw, es, inClass) {
      IndexFinds(raw, mod, buckets, es, inClass);
    }
  }

  /** g accepts the character c and nothing else. */
  ghost predicate Only(g: Glob, c: char, inClass: ClassTest) {
    !g.Star? && Accepts(g, c, inClass) && forall d :: Accepts(g, d, inClass) ==> d == c
  }

  /** The elements of a pattern spell k, and then comes a ":" or the end. */
  ghost predicate Spells(gs: seq<Glob>, k: string, inClass: ClassTest) {
    if k == "" then gs == [] || Only(gs[0], ':', inClass)
    else gs != [] && Only(gs[0], k[0], inClass) && Spells(gs[1..], k[1..], inClass)
  }

  /** The pattern spells the key it is filed under. */
  ghost predicate FixedKey(pattern: string, inClass: ClassTest) {
    Spells(ParseGlob(pattern), Key(pattern), inClass)
  }

  lemma KeyStep(c: char, s: string)
    ensures Key([c] + s) == if c == ':' then "" else [c] + Key(s)
  {
    assert ([c] + s)[1..] == s;
  }

  lemma {:induction false} SpelledIsKey(gs: seq<Glob>, k: string, s: string, inClass: ClassTest)
    requires ':' !in k && Spells(gs, k, inClass) && MatchGlob(gs, s, inClass)
    ensures Key(s) == k
    decreases |k|
  {
    if k == "" {
      assert s == "" || s[0] == ':';
    } else {
      SpelledIsKey(gs[1..], k[1..], s[1..], inClass);
      assert s == [s[0]] + s[1..] && k == [k[0]] + k[1..];
      KeyStep(s[0], s[1..]);
    }
  }

  /** Elements that do not spell k match a text whose key is not k. */
  lemma {:induction false} OtherKey(gs: seq<Glob>, k: string, s: string, inClass: ClassTest) returns (t: string)
    requires !Spells(gs, k, inClass) && MatchGlob(gs, s, inClass)
    ensures MatchGlob(gs, t, inClass) && Key(t) != k
    decreases |gs|
  {
    t := s;
    if Key(s) == k && gs != [] {
      if gs[0].Star? {
        t := ['x'] + s;
        assert t[1..] == s;
        KeyStep('x', s);
      } else {
        assert s == [s[0]] + s[1..];
        KeyStep(s[0], s[1..]);
        if d :| d != s[0] && Accepts(gs[0], d, inClass) {
          t := [d] + s[1..];
          assert t[1..] == s[1..];
          KeyStep(d, s[1..]);
        } else {
          assert Only(gs[0], s[0], inClass) && k == [s[0]] + Key(s[1..]);
          var u := OtherKey(gs[1..], k[1..], s[1..], inClass);
          t := [s[0]] + u;
          assert t[1..] == u;
          KeyStep(s[0], u);
        }
      }
    }
  }

  /** Filing a pattern under its key is right for all it matches exactly when it spells that key. */
  lemma FixedKeyExactly(pattern: string, inClass: ClassTest)
    requires exists raw :: FnMatch(raw, pattern, inClass)
    ensures FixedKey(pattern, inClass) <==> forall raw | FnMatch(raw, pattern, inClass) :: Key(raw) == Key(pattern)
  {
    var gs, k := ParseGlob(pattern), Key(pattern);
    if FixedKey(pattern, inClass) {
      forall raw | FnMatch(raw, pattern, inClass) ensures Key(raw) == k {
        SpelledIsKey(gs, k, raw, inClass);
      }
    } else {
      var s :| FnMatch(s, pattern, inClass);
      var t := OtherKey(gs, k, s, inClass);
      assert FnMatch(t, pattern, inClass);
    }
  }

  predicate IsMeta(c: char) { c == '*' || c == '?' || c == '[' }

  predicate PlainKey(pattern: string) { forall c :: c in Key(pattern) ==> !IsMeta(c) }

  /** A key without glob characters is spelled, and without a "[" no other key is. */
  lemma {:induction false} PlainKeyIsFixed(pattern: string, inClass: ClassTest)
    ensures PlainKey(pattern) ==> FixedKey(pattern, inClass)
    ensures '[' !in Key(pattern) && FixedKey(pattern, inClass) ==> PlainKey(pattern)
  {
    if pattern != "" && pattern[0] != ':' {
      var c, rest := pattern[0], pattern[1..];
      assert pattern == [c] + rest;
      KeyStep(c, rest);
      assert Key(pattern)[1..] == Key(rest);
      if !IsMeta(c) {
        PlainKeyIsFixed(rest, inClass);
        assert ParseGlob(pattern)[1..] == ParseGlob(rest);
      } else {
        assert c in Key(pattern);
        assert c == '?' ==> Accepts(One, 'x', inClass) && Accepts(One, 'y', inClass);
      }
    }
  }

  /** When every pattern of the table spells its key, the index equals the scan. */
  lemma IndexEqualsScan(raw: string, buckets: map<string, seq<Entry>>, es: seq<Entry>, inClass: ClassTest)
    requires IsIndex(buckets, es)
    requires forall e :: e in es ==> FixedKey(e.pattern, inClass)
    ensures ResolveModalias(raw, buckets, inClass) == FullScan(raw, es, inClass)
  {
    IndexWithinScan(raw, buckets, es, inClass);
    forall mod | mod in FullScan(raw, es, inClass) ensures mod in ResolveModalias(raw, buckets, inClass) {
      var e :| e in es && FnMatch(raw, e.pattern, inClass) && e.mod == mod;
      SpelledIsKey(ParseGlob(e.pattern), Key(e.pattern), raw, inClass);
      IndexFinds(raw, mod, buckets, es, inClass);
    }
  }

  /** A table of one entry that does not spell its key: some modalias it serves resolves to nothing. */
  lemma IndexMisses(pattern: string, mod: string, buckets: map<string, seq<Entry>>, inClass: ClassTest)
    returns (raw: string)
    requires IsIndex(buckets, [Entry(pattern, mod)])
    requires !FixedKey(pattern, inClass) && exists s :: FnMatch(s, pattern, inClass)
    ensures FullScan(raw, [Entry(pattern, mod)], inClass) == {mod}
    ensures ResolveModalias(raw, buckets, inClass) == {}
  {
    FixedKeyExactly(pattern, inClass);
    raw :| FnMatch(raw, pattern, inClass) && Key(raw) != Key(pattern);
    var e := Entry(pattern, mod);
    assert e in [e];
    forall m ensures m !in ResolveModalias(raw, buckets, inClass) {
      IndexFinds(raw, m, buckets, [e], inClass);
    }
  }

  /** For instance "d*" serves "dm" but is filed where "dm" is not looked up. */
  lemma StarKeyIsMissed(mod: string, buckets: map<string, seq<Entry>>, inClass: ClassTest)
    requires IsIndex(buckets, [Entry("d*", mod)])
    ensures FullScan("dm", [Entry("d*", mod)], inClass) == {mod}
    ensures ResolveModalias("dm", buckets, inClass) == {}
  {
    var e := Entry("d*", mod);
    assert e in [e];
    assert "d*"[1..] == "*" && "*"[1..] == "" && "dm"[1..] == "m" && "m"[1..] == "";
    assert ParseGlob("*") == [Star] + ParseGlob("");
    assert ParseGlob("d*") == [Lit('d')] + ParseGlob("*");
    assert MatchGlob([], "", inClass) && MatchGlob([Star], "", inClass) && MatchGlob([Star], "m", inClass);
    assert FnMatch("dm", "d*", inClass);
    assert Key("d*") == "d*" by { KeyStep('d', "*"); KeyStep('*', ""); }
    assert Key("dm") == "dm" by { KeyStep('d', "m"); KeyStep('m', ""); }
    forall m ensures m !in ResolveModalias("dm", buckets, inClass) {
      IndexFinds("dm", m, buckets, [e], inClass);
    }
  }

  // ---- What a pattern matches ----

  function Concat(pieces: seq<string>): string {
    if pieces == [] then "" else pieces[0] + Concat(pieces[1..])
  }

  /** What one element takes: any text, any character, one of a class, or itself. */
  predicate Takes(g: Glob, piece: string, inClass: ClassTest) {
    match g
    case Star => true
    case One => |piece| == 1
    case Class(body) => |piece| == 1 && inClass(body, piece[0])
    case Lit(c) => piece == [c]
  }

  /** s cut into one piece for each element. */
  ghost predicate IsCutting(pieces: seq<string>, gs: seq<Glob>, s: string, inClass: ClassTest) {
    |pieces| == |gs| && Concat(pieces) == s && forall i :: 0 <= i < |gs| ==> Takes(gs[i], pieces[i], inClass)
  }

  lemma CuttingTail(pieces: seq<string>, gs: seq<Glob>, s: string, inClass: ClassTest)
    requires gs != [] && IsCutting(pieces, gs, s, inClass)
    ensures |pieces[0]| <= |s| && pieces[0] == s[..|pieces[0]|]
    ensures Takes(gs[0], pieces[0], inClass) && IsCutting(pieces[1..], gs[1..], s[|pieces[0]|..], inClass)
  {
    assert s == pieces[0] + Concat(pieces[1..]);
  }

  lemma CuttingFront(piece: string, pieces: seq<string>, gs: seq<Glob>, s: string, inClass: ClassTest)
    requires gs != [] && Takes(gs[0], piece, inClass) && IsCutting(pieces, gs[1..], s, inClass)
    ensures IsCutting([piece] + pieces, gs, piece + s, inClass)
  {
    assert ([piece] + pieces)[1..] == pieces;
  }

  /** Matching is cutting the text into pieces that the elements take. */
  lemma {:induction false} MatchIsCutting(gs: seq<Glob>, s: string, inClass: ClassTest)
    ensures MatchGlob(gs, s, inClass) <==> exists pieces :: IsCutting(pieces, gs, s, inClass)
    decreases |gs|, |s|
  {
    if gs == [] {
      assert s == "" ==> IsCutting([], gs, s, inClass);
    } else {
      if MatchGlob(gs, s, inClass) { MatchToCutting(gs, s, inClass); }
      forall pieces | IsCutting(pieces, gs, s, inClass) ensures MatchGlob(gs, s, inClass) {
        CuttingToMatch(pieces, gs, s, inClass);
      }
    }
  }

  lemma CuttingFrom(piece: string, rest: string, gs: seq<Glob>, inClass: ClassTest)
    requires gs != [] && Takes(gs[0], piece, inClass) && exists pieces :: IsCutting(pieces, gs[1..], rest, inClass)
    ensures exists pieces :: IsCutting(pieces, gs, piece + rest, inClass)
  {
    var pieces :| IsCutting(pieces, gs[1..], rest, inClass);
    CuttingFront(piece, pieces, gs, rest, inClass);
  }

  lemma StarTakesMore(c: char, s: string, gs: seq<Glob>, inClass: ClassTest)
    requires gs != [] && gs[0].Star? && exists pieces :: IsCutting(pieces, gs, s, inClass)
    ensures exists pieces :: IsCutting(pieces, gs, [c] + s, inClass)
  {
    var pieces :| IsCutting(pieces, gs, s, inClass);
    var k := |pieces[0]|;
    CuttingTail(pieces, gs, s, inClass);
    CuttingFrom([c] + s[..k], s[k..], gs, inClass);
    assert [c] + s[..k] + s[k..] == [c] + s;
  }

  lemma {:induction false} MatchToCutting(gs: seq<Glob>, s: string, inClass: ClassTest)
    requires gs != [] && MatchGlob(gs, s, inClass)
    ensures exists pieces :: IsCutting(pieces, gs, s, inClass)
    decreases |gs|, |s|, 0
  {
    if gs[0].Star? && !MatchGlob(gs[1..], s, inClass) {
      MatchToCutting(gs, s[1..], inClass);
      StarTakesMore(s[0], s[1..], gs, inClass);
      assert [s[0]] + s[1..] == s;
    } else {
      var piece := if gs[0].Star? then "" else s[..1];
      var rest := s[|piece|..];
      assert piece + rest == s;
      MatchIsCutting(gs[1..], rest, inClass);
      CuttingFrom(piece, rest, gs, inClass);
    }
  }

  lemma {:induction false} CuttingToMatch(pieces: seq<string>, gs: seq<Glob>, s: string, inClass: ClassTest)
    requires gs != [] && IsCutting(pieces, gs, s, inClass)
    ensures MatchGlob(gs, s, inClass)
    decreases |gs|, |s|, 0
  {
    CuttingTail(pieces, gs, s, inClass);
    var piece, rest := pieces[0], s[|pieces[0]|..];
    MatchIsCutting(gs[1..], rest, inClass);
    if gs[0].Star? && piece != "" {
      CuttingFront(piece[1..], pieces[1..], gs, rest, inClass);
      assert piece[1..] + rest == s[1..];
      CuttingToMatch([piece[1..]] + pieces[1..], gs, s[1..], inClass);
    } else {
      assert piece == "" ==> rest == s;
      assert piece != "" ==> s[0] == piece[0];
    }
  }

  /** The characters of a pattern: "*" is any text, "?" any character, "[" up to the closing "]" a
      class, and anything else itself; so is a "[" that is never closed. */
  lemma PatternRead(c: char, p: string)
    ensures ParseGlob("*" + p) == [Star] + ParseGlob(p)
    ensures ParseGlob("?" + p) == [One] + ParseGlob(p)
    ensures c != '*' && c != '?' && c != '[' ==> ParseGlob([c] + p) == [Lit(c)] + ParseGlob(p)
    ensures ']' !in p ==> ParseGlob("[" + p) == [Lit('[')] + ParseGlob(p)
  {
    assert ("*" + p)[1..] == p && ("?" + p)[1..] == p && ([c] + p)[1..] == p && ("[" + p)[1..] == p;
    if ClassEnd(p).Some? { assert p[ClassEnd(p).value] == ']'; }
  }

  lemma {:induction false} CloseFirst(body: string, p: string, from: nat)
    requires from <= |body| && forall i :: from <= i < |body| ==> body[i] != ']'
    ensures CloseFrom(body + ("]" + p), from) == Some(|body|)
    decreases |body| - from
  {
    var s := body + ("]" + p);
    if from < |body| {
      assert s[from] == body[from];
      CloseFirst(body, p, from + 1);
    } else {
      assert s[from] == ']';
    }
  }

  /** "]" is not in the body, except as its first character, not counting a "!" in front. */
  predicate IsClassBody(body: string) {
    && body != "" && body != "!"
    && forall i :: 1 <= i < |body| && (i == 1 ==> body[0] != '!') ==> body[i] != ']'
  }

  lemma ClassEnds(body: string, p: string)
    requires IsClassBody(body)
    ensures ClassEnd(body + ("]" + p)) == Some(|body|)
  {
    var t := body + ("]" + p);
    var j := if body[0] == '!' then 1 else 0;
    assert t[0] == body[0] && t[j] == body[j];
    CloseFirst(body, p, if body[j] == ']' then j + 1 else j);
  }

  lemma ParseClass(t: string, n: nat, body: string, p: string)
    requires ClassEnd(t) == Some(n) && t[..n] == body && t[n + 1..] == p
    ensures ParseGlob("[" + t) == [Class(body)] + ParseGlob(p)
  {
    var s := "[" + t;
    assert s[1..] == t && s[1..n + 1] == body && s[n + 2..] == p;
  }

  lemma BodySlices(body: string, p: string)
    ensures var t := body + ("]" + p);
            t[..|body|] == body && t[|body| + 1..] == p
  {
  }

  /** Such a body up to its "]" is a class. */
  lemma ClassRead(body: string, p: string)
    requires IsClassBody(body)
    ensures ParseGlob("[" + (body + ("]" + p))) == [Class(body)] + ParseGlob(p)
  {
    ClassEnds(body, p);
    BodySlices(body, p);
    ParseClass(body + ("]" + p), |body|, body, p);
  }
}
