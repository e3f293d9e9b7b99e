/** What a configuration line is read as, said of its characters. */
module ConfigReading {
  import opened Option
  import opened Chars
  import opened Lines
  import opened ConfigLines

  predicate Spaces(s: string) { forall c :: c in s ==> IsSpace(c) }

  predicate Quotes(s: string) { forall c :: c in s ==> c == '"' }

  /** CONFIG_ and at least one capital, digit or underscore. */
  predicate IsOption(x: string) {
    && "CONFIG_" <= x && |x| > 7
    && forall c :: c in x[7..] ==> 'A' <= c <= 'Z' || '0' <= c <= '9' || c == '_'
  }

  /** "#", perhaps blanks, the symbol, blanks, "is not set", perhaps blanks. */
  ghost predicate SaysUnset(line: string, x: string) {
    IsOption(x) && exists a, b, c :: IsUnsetText(line, x, a, b, c)
  }

  predicate IsUnsetText(line: string, x: string, a: string, b: string, c: string) {
    Spaces(a) && Spaces(b) && Spaces(c) && b != "" && line == "#" + (a + (x + (b + ("is not set" + c))))
  }

  /** The symbol, "=", and a text. */
  ghost predicate SaysSet(line: string, x: string, raw: string) { IsOption(x) && line == x + ("=" + raw) }

  /** raw is v with quotes around it, and blanks around these; v has no quote at an edge, and no
      blanks that would be trimmed first. */
  ghost predicate IsValueText(raw: string, v: string) {
    exists a, p, q, b :: IsWrapped(raw, a, p, v, q, b)
  }

  predicate IsWrapped(raw: string, a: string, p: string, v: string, q: string, b: string) {
    && raw == a + ((p + (v + q)) + b) && Spaces(a) && Spaces(b) && Quotes(p) && Quotes(q)
    && NoEdge(v, '"') && NoSpaceEdge(p + (v + q))
  }

  predicate NoEdge(s: string, c: char) { s == "" || (s[0] != c && s[|s| - 1] != c) }

  predicate NoSpaceEdge(s: string) { s == "" || (!IsSpace(s[0]) && !IsSpace(s[|s| - 1])) }

  // ---- Symbols ----

  lemma OptionIsSymbol(x: string)
    ensures IsOption(x) <==> IsSymbol(x)
  {
    if "CONFIG_" <= x {
      assert forall k :: 7 <= k < |x| ==> x[k] == x[7..][k - 7] && x[k] in x[7..];
      assert forall k :: 0 <= k < 7 ==> x[k] == PREFIX[k] && IsSymbolChar(PREFIX[k]);
    }
  }

  // ---- Trimming ----

  lemma {:induction false} TrimLeftOf(a: string, s: string, drop: char -> bool)
    requires (forall c :: c in a ==> drop(c)) && (s == "" || !drop(s[0]))
    ensures TrimLeft(a + s, drop) == s
  {
    if a == "" {
      assert a + s == s;
    } else {
      assert (a + s)[1..] == a[1..] + s;
      TrimLeftOf(a[1..], s, drop);
    }
  }

  lemma {:induction false} TrimRightOf(s: string, b: string, drop: char -> bool)
    requires (forall c :: c in b ==> drop(c)) && (s == "" || !drop(s[|s| - 1]))
    ensures TrimRight(s + b, drop) == s
  {
    if b == "" {
      assert s + b == s;
    } else {
      assert (s + b)[..|s + b| - 1] == s + b[..|b| - 1];
      TrimRightOf(s, b[..|b| - 1], drop);
    }
  }

  lemma {:induction false} AllLeft(a: string, drop: char -> bool)
    requires forall c :: c in a ==> drop(c)
    ensures TrimLeft(a, drop) == ""
  {
    TrimLeftOf(a, "", drop);
    assert a + "" == a;
  }

  lemma TrimOf(a: string, s: string, b: string, drop: char -> bool)
    requires (forall c :: c in a ==> drop(c)) && (forall c :: c in b ==> drop(c)) && CleanEdges(s, drop)
    ensures Trim(a + (s + b), drop) == s
  {
    if s == "" {
      assert a + (s + b) == a + b;
      AllLeft(a + b, drop);
    } else {
      TrimLeftOf(a, s + b, drop);
      TrimRightOf(s, b, drop);
    }
  }

  lemma {:induction false} LeftCut(s: string, drop: char -> bool) returns (a: string)
    ensures s == a + TrimLeft(s, drop) && forall c :: c in a ==> drop(c)
  {
    if s != "" && drop(s[0]) {
      var t := LeftCut(s[1..], drop);
      a := [s[0]] + t;
      assert s == [s[0]] + s[1..];
      assert [s[0]] + (t + TrimLeft(s, drop)) == a + TrimLeft(s, drop);
    } else {
      a := "";
    }
  }

  lemma {:induction false} RightCut(s: string, drop: char -> bool) returns (b: string)
    ensures s == TrimRight(s, drop) + b && forall c :: c in b ==> drop(c)
  {
    if s != "" && drop(s[|s| - 1]) {
      var t := RightCut(s[..|s| - 1], drop);
      b := t + [s[|s| - 1]];
      assert s == s[..|s| - 1] + [s[|s| - 1]];
      assert (TrimRight(s, drop) + t) + [s[|s| - 1]] == TrimRight(s, drop) + b;
    } else {
      b := "";
    }
  }

  lemma TrimCut(s: string, drop: char -> bool) returns (a: string, b: string)
    ensures s == a + (Trim(s, drop) + b) && CleanEdges(Trim(s, drop), drop)
    ensures (forall c :: c in a ==> drop(c)) && (forall c :: c in b ==> drop(c))
  {
    a := LeftCut(s, drop);
    b := RightCut(TrimLeft(s, drop), drop);
    TrimIdentity(s, drop);
  }

  /** The value read is what stands between the quotes. */
  lemma ValueReadExactly(raw: string, v: string)
    ensures ReadValue(raw) == v <==> IsValueText(raw, v)
  {
    if ReadValue(raw) == v {
      var a, b := TrimCut(raw, IsSpace);
      var p, q := TrimCut(Strip(raw), IsQuote);
      assert IsWrapped(raw, a, p, v, q, b);
    }
    if IsValueText(raw, v) {
      var a, p, q, b :| IsWrapped(raw, a, p, v, q, b);
      TrimOf(a, p + (v + q), b, IsSpace);
      TrimOf(p, v, q, IsQuote);
    }
  }

  // ---- Lines ----

  lemma UnsetTailRead(b: string, c: string)
    requires Spaces(b) && Spaces(c) && b != ""
    ensures IsUnsetTail(b + (UNSET + c))
  {
    var t := UNSET + c;
    assert t[0] == 'i' && !IsSpace('i') && (b + t)[0] == b[0];
    TrimLeftOf(b, t, IsSpace);
    assert forall k :: |UNSET| <= k < |t| ==> t[k] == c[k - |UNSET|] && t[k] in c;
  }

  lemma UnsetTailShape(rest: string) returns (b: string, c: string)
    requires IsUnsetTail(rest)
    ensures Spaces(b) && Spaces(c) && b != "" && rest == b + (UNSET + c)
  {
    b := LeftCut(rest, IsSpace);
    var t := TrimLeft(rest, IsSpace);
    c := t[|UNSET|..];
    assert t == UNSET + c;
    assert "" + t == t;
  }

  lemma UnsetRead(line: string, x: string, a: string, b: string, c: string)
    requires IsSymbol(x) && IsUnsetText(line, x, a, b, c)
    ensures UnsetSymbol(line) == Some(x)
  {
    var r := b + (UNSET + c);
    assert line == "#" + (a + (x + r)) && line[1..] == a + (x + r);
    SymbolStart(x, r);
    TrimLeftOf(a, x + r, IsSpace);
    assert b[0] in b && r[0] == b[0] && !IsSymbolChar(b[0]);
    SymbolOf(x, r);
    assert (x + r)[|x|..] == r;
    UnsetTailRead(b, c);
  }

  lemma UnsetShape(line: string, x: string)
    requires UnsetSymbol(line) == Some(x)
    ensures SaysUnset(line, x)
  {
    OptionIsSymbol(x);
    var a := LeftCut(line[1..], IsSpace);
    var t := TrimLeft(line[1..], IsSpace);
    var b, c := UnsetTailShape(t[|x|..]);
    assert t == x + t[|x|..];
    assert line == "#" + line[1..];
    assert IsUnsetText(line, x, a, b, c);
  }

  lemma UnsetExactly(line: string, x: string)
    ensures UnsetSymbol(line) == Some(x) <==> SaysUnset(line, x)
  {
    if UnsetSymbol(line) == Some(x) { UnsetShape(line, x); }
    if SaysUnset(line, x) {
      OptionIsSymbol(x);
      var a, b, c :| IsUnsetText(line, x, a, b, c);
      UnsetRead(line, x, a, b, c);
    }
  }

  lemma SetExactly(line: string, x: string, raw: string)
    ensures SetParts(line) == Some((x, raw)) <==> SaysSet(line, x, raw)
  {
    OptionIsSymbol(x);
    if SaysSet(line, x, raw) {
      assert line == SetLine(x, raw);
      SetLineReads(x, raw);
    }
    if SetParts(line) == Some((x, raw)) { assert x + "=" + raw == x + ("=" + raw); }
  }

  lemma NotBoth(line: string, x: string, y: string, raw: string)
    requires SaysUnset(line, x)
    ensures !SaysSet(line, y, raw)
  {
    var a, b, c :| IsUnsetText(line, x, a, b, c);
    assert line[0] == '#';
    assert IsOption(y) ==> (y + ("=" + raw))[0] == y[0] == "CONFIG_"[0];
  }

  /** A line is read as a setting of x to v exactly when it says that x is not set and v is n, or
      sets x to a text for v. */
  lemma LineReadExactly(line: string, x: string, v: string)
    ensures NormalizeValue(line) == Some((x, v)) <==>
      (SaysUnset(line, x) && v == "n") || exists raw :: SaysSet(line, x, raw) && IsValueText(raw, v)
  {
    UnsetExactly(line, x);
    if UnsetSymbol(line).Some? {
      UnsetExactly(line, UnsetSymbol(line).value);
      forall raw ensures !SaysSet(line, x, raw) { NotBoth(line, UnsetSymbol(line).value, x, raw); }
    } else {
      forall raw ensures SaysSet(line, x, raw) <==> SetParts(line) == Some((x, raw)) { SetExactly(line, x, raw); }
      if SetParts(line).Some? { ValueReadExactly(SetParts(line).value.1, v); }
    }
  }
}
