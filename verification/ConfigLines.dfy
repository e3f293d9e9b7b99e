/** The two line forms of a kernel configuration: "CONFIG_X=value" and
    "# CONFIG_X is not set". */
module ConfigLines {
  import opened Option
  import opened Chars
  import opened Lines

  const PREFIX := "CONFIG_"
  const UNSET := "is not set"

  predicate IsSymbolChar(c: char) { IsUpper(c) || IsDigit(c) || c == '_' }

  predicate AllSymbolChars(s: string) { forall k :: 0 <= k < |s| ==> IsSymbolChar(s[k]) }

  predicate IsSymbol(x: string) { |x| > |PREFIX| && PREFIX <= x && AllSymbolChars(x) }

  /** Length of the longest run of symbol characters at the start of s. */
  function RunLen(s: string): (n: nat)
    ensures n <= |s| && (n < |s| ==> !IsSymbolChar(s[n]))
    ensures forall k :: 0 <= k < n ==> IsSymbolChar(s[k])
  {
    if s == "" || !IsSymbolChar(s[0]) then 0 else RunLen(s[1..]) + 1
  }

  /** The symbol at the start of s. */
  function SymbolAt(s: string): (r: Option<string>)
    ensures r.Some? ==> IsSymbol(r.value) && r.value <= s
  {
    if PREFIX <= s && RunLen(s) > |PREFIX| then Some(s[..RunLen(s)]) else None
  }

  /** What follows the symbol in a line "# CONFIG_X is not set". */
  predicate IsUnsetTail(rest: string) {
    && rest != ""
    && IsSpace(rest[0])
    && var t := TrimLeft(rest, IsSpace);
       UNSET <= t && forall k :: |UNSET| <= k < |t| ==> IsSpace(t[k])
  }

  /** The symbol of a line "# CONFIG_X is not set". */
  function UnsetSymbol(line: string): (r: Option<string>)
    ensures r.Some? ==> IsSymbol(r.value)
  {
    if line == "" || line[0] != '#' then None
    else
      var a := TrimLeft(line[1..], IsSpace);
      match SymbolAt(a)
      case None => None
      case Some(x) => if IsUnsetTail(a[|x|..]) then Some(x) else None
  }

  /** The symbol and the raw right-hand side of a line "CONFIG_X=value". */
  function SetParts(line: string): (r: Option<(string, string)>)
    ensures r.Some? ==> IsSymbol(r.value.0) && line == r.value.0 + "=" + r.value.1
  {
    match SymbolAt(line)
    case None => None
    case Some(x) =>
      if |line| > |x| && line[|x|] == '=' then Some((x, line[|x| + 1..])) else None
  }

  /** The value a right-hand side stands for. */
  function ReadValue(raw: string): string { StripQuotes(Strip(raw)) }

  /** `_normalize_value`: the symbol and value a line sets, if it sets any. */
  function NormalizeValue(line: string): (r: Option<(string, string)>)
    ensures r.Some? ==> IsSymbol(r.value.0) && CleanEdges(r.value.1, IsQuote)
  {
    match UnsetSymbol(line)
    case Some(x) => Some((x, "n"))
    case None =>
      match SetParts(line)
      case None => None
      case Some((x, raw)) =>
        TrimIdentity(Strip(raw), IsQuote);
        Some((x, ReadValue(raw)))
  }

  function UnsetLine(x: string): string { "# " + (x + (" " + UNSET)) }

  function RationaleLine(x: string, note: string): string { "# " + (x + (": " + note)) }

  function SetLine(x: string, raw: string): string { x + "=" + raw }

  /** Comments for people: "# text", and section titles between rules. */
  function Comment(text: string): string { "# " + text }

  function Rule(n: nat): string { seq(n, _ => '\U{2500}') }

  function Title(name: string, n: nat): string { Comment(Rule(2) + (" " + (name + (" " + Rule(n))))) }

  // ---- Reading back what is written ----

  lemma RunOf(x: string, r: string)
    requires AllSymbolChars(x) && (r == "" || !IsSymbolChar(r[0]))
    ensures RunLen(x + r) == |x|
  {
    assert forall k :: 0 <= k < |x| ==> (x + r)[k] == x[k];
    assert r != "" ==> (x + r)[|x|] == r[0];
  }

  lemma SymbolOf(x: string, r: string)
    requires IsSymbol(x) && (r == "" || !IsSymbolChar(r[0]))
    ensures SymbolAt(x + r) == Some(x)
  {
    RunOf(x, r);
    assert (x + r)[..|x|] == x;
    assert (x + r)[..|PREFIX|] == x[..|PREFIX|] == PREFIX;
  }

  lemma SetLineReads(x: string, raw: string)
    requires IsSymbol(x)
    ensures SetParts(SetLine(x, raw)) == Some((x, raw))
    ensures UnsetSymbol(SetLine(x, raw)) == None
    ensures NormalizeValue(SetLine(x, raw)) == Some((x, ReadValue(raw)))
  {
    var r := "=" + raw;
    assert SetLine(x, raw) == x + r;
    SymbolOf(x, r);
    assert (x + r)[|x| + 1..] == raw;
    assert (x + r)[0] == x[0] == PREFIX[0] == 'C';
  }

  /** A blank before a visible character is dropped. */
  lemma TrimBlank(a: string)
    requires a != "" && !IsSpace(a[0])
    ensures TrimLeft(a, IsSpace) == a && TrimLeft(" " + a, IsSpace) == a
  {
    assert (" " + a)[1..] == a;
  }

  lemma SymbolStart(x: string, r: string)
    requires IsSymbol(x)
    ensures (x + r)[0] == 'C' && !IsSpace('C')
  {
    assert (x + r)[0] == x[0] == PREFIX[0];
  }

  /** What follows "# " and a symbol. */
  lemma HashSymbol(x: string, r: string)
    requires IsSymbol(x) && r != "" && !IsSymbolChar(r[0])
    ensures ("# " + (x + r))[0] == '#'
    ensures TrimLeft(("# " + (x + r))[1..], IsSpace) == x + r
    ensures SymbolAt(x + r) == Some(x) && (x + r)[|x|..] == r
  {
    var a := x + r;
    assert ("# " + a)[1..] == " " + a;
    SymbolStart(x, r);
    TrimBlank(a);
    SymbolOf(x, r);
  }

  lemma UnsetLineReads(x: string)
    requires IsSymbol(x)
    ensures UnsetSymbol(UnsetLine(x)) == Some(x)
    ensures NormalizeValue(UnsetLine(x)) == Some((x, "n"))
  {
    var r := " " + UNSET;
    HashSymbol(x, r);
    assert UNSET[0] == 'i' && !IsSpace('i');
    TrimBlank(UNSET);
    assert IsUnsetTail(r);
  }

  /** A comment is no setting when its first visible character, at k, cannot start a
      symbol. */
  lemma CommentSetsNothing(line: string, k: nat)
    requires 0 < k < |line| && line[0] == '#' && line[k] != 'C' && !IsSpace(line[k])
    requires forall i :: 0 < i < k ==> IsSpace(line[i])
    ensures UnsetSymbol(line) == None && NormalizeValue(line) == None
  {
    TrimLeftTo(line[1..], k - 1);
    NoSymbol(line[1..][k - 1..]);
    NoSymbol(line);
  }

  lemma NoSymbol(s: string)
    requires s != "" && s[0] != 'C'
    ensures SymbolAt(s) == None && SetParts(s) == None
  {
    assert PREFIX[0] == 'C';
  }

  lemma {:induction false} TrimLeftTo(s: string, k: nat)
    requires k < |s| && !IsSpace(s[k]) && forall i :: 0 <= i < k ==> IsSpace(s[i])
    ensures TrimLeft(s, IsSpace) == s[k..]
  {
    if k > 0 {
      TrimLeftTo(s[1..], k - 1);
      assert s[1..][k - 1..] == s[k..];
    }
  }
}
