/** The Kconfig fragment: its writer, its reader, and the round trip between them. */
module Kfrag {
  import opened Option
  import opened Chars
  import opened Lines
  import opened ConfigLines
  import opened Models

  // ---- The reader ----

  datatype ParsedKfrag = ParsedKfrag(headerLines: seq<string>, disables: seq<string>, assignments: map<string, string>)

  const EMPTY := ParsedKfrag([], [], map[])

  /** What one line adds to the fragment. */
  function ReadLine(line: string): ParsedKfrag {
    var s := RStrip(line);
    if s == "" then EMPTY
    else if UnsetSymbol(s).Some? then EMPTY.(disables := [UnsetSymbol(s).value])
    else if s[0] == '#' then EMPTY.(headerLines := [s])
    else match SetParts(s)
      case None => EMPTY
      case Some((x, raw)) => EMPTY.(assignments := map[x := ReadValue(raw)])
  }

  /** p followed by q; later assignments win. */
  function Combine(p: ParsedKfrag, q: ParsedKfrag): ParsedKfrag {
    ParsedKfrag(p.headerLines + q.headerLines, p.disables + q.disables, p.assignments + q.assignments)
  }

  function ParseLines(ls: seq<string>): ParsedKfrag {
    if ls == [] then EMPTY else Combine(ParseLines(ls[..|ls| - 1]), ReadLine(ls[|ls| - 1]))
  }

  /** `parse_kfrag`. */
  method ParseKfrag(text: string) returns (p: ParsedKfrag)
    ensures p == ParseLines(SplitLines(text))
  {
    var ls := SplitLines(text);
    var headerLines: seq<string>, disables: seq<string>, assignments: map<string, string> := [], [], map[];
    for i := 0 to |ls|
      invariant ParsedKfrag(headerLines, disables, assignments) == ParseLines(ls[..i])
    {
      ghost var before := ParsedKfrag(headerLines, disables, assignments);
      var s := RStrip(ls[i]);
      if s != "" {
        var m := UnsetSymbol(s);
        if m.Some? {
          CombineOne(before, m.value, "");
          disables := disables + [m.value];
        } else if s[0] == '#' {
          CombineOne(before, s, "");
          headerLines := headerLines + [s];
        } else {
          var parts := SetParts(s);
          if parts.Some? {
            CombineOne(before, parts.value.0, ReadValue(parts.value.1));
            assignments := assignments[parts.value.0 := ReadValue(parts.value.1)];
          }
        }
      }
      CombineOne(before, "", "");
      assert ls[..i + 1][..i] == ls[..i];
    }
    assert ls[..|ls|] == ls;
    p := ParsedKfrag(headerLines, disables, assignments);
  }

  lemma CombineLaws(p: ParsedKfrag, q: ParsedKfrag, r: ParsedKfrag)
    ensures Combine(Combine(p, q), r) == Combine(p, Combine(q, r))
    ensures Combine(EMPTY, p) == p == Combine(p, EMPTY)
  {
    Assoc(p.headerLines, q.headerLines, r.headerLines);
    Assoc(p.disables, q.disables, r.disables);
    assert p.assignments + q.assignments + r.assignments == p.assignments + (q.assignments + r.assignments);
  }

  lemma Assoc(a: seq<string>, b: seq<string>, c: seq<string>)
    ensures a + b + c == a + (b + c)
  {
  }

  /** The three ways in which one line extends a fragment. */
  lemma CombineOne(p: ParsedKfrag, x: string, v: string)
    ensures Combine(p, EMPTY) == p
    ensures Combine(p, EMPTY.(disables := [x])) == p.(disables := p.disables + [x])
    ensures Combine(p, EMPTY.(headerLines := [x])) == p.(headerLines := p.headerLines + [x])
    ensures Combine(p, EMPTY.(assignments := map[x := v])) == p.(assignments := p.assignments[x := v])
  {
    assert p.headerLines + [] == p.headerLines && p.disables + [] == p.disables;
    assert p.assignments + map[] == p.assignments;
    assert p.assignments + map[x := v] == p.assignments[x := v];
  }

  lemma {:induction false} ParseAppend(a: seq<string>, b: seq<string>)
    ensures ParseLines(a + b) == Combine(ParseLines(a), ParseLines(b))
    decreases |b|
  {
    if b == [] {
      assert a + b == a;
      CombineLaws(ParseLines(a), EMPTY, EMPTY);
    } else {
      var b' := b[..|b| - 1];
      ParseAppend(a, b');
      assert (a + b)[..|a + b| - 1] == a + b';
      CombineLaws(ParseLines(a), ParseLines(b'), ReadLine(b[|b| - 1]));
    }
  }

  lemma ParseOne(line: string)
    ensures ParseLines([line]) == ReadLine(line)
  {
    assert [line][..0] == [];
    CombineLaws(ReadLine(line), EMPTY, EMPTY);
  }

  /** The header lines are the comments that unset nothing, without their trailing blanks. */
  lemma {:induction false} HeadersRead(ls: seq<string>, y: string)
    ensures y in ParseLines(ls).headerLines <==>
      exists l :: l in ls && y == RStrip(l) && y != "" && y[0] == '#' && UnsetSymbol(y) == None
  {
    if ls != [] {
      var l := ls[|ls| - 1];
      HeadersRead(ls[..|ls| - 1], y);
      assert ls == ls[..|ls| - 1] + [l];
      assert y in ReadLine(l).headerLines <==> y == RStrip(l) && y != "" && y[0] == '#' && UnsetSymbol(y) == None;
    }
  }

  /** What is read of p besides comments. */
  function Settings(p: ParsedKfrag): (seq<string>, map<string, string>) { (p.disables, p.assignments) }

  predicate NoSettings(p: ParsedKfrag) { p.disables == [] && p.assignments == map[] }

  lemma CombineSettings(p: ParsedKfrag, q: ParsedKfrag)
    ensures NoSettings(p) ==> Settings(Combine(p, q)) == Settings(q)
    ensures NoSettings(q) ==> Settings(Combine(p, q)) == Settings(p)
  {
    assert [] + q.disables == q.disables && p.disables + [] == p.disables;
    assert map[] + q.assignments == q.assignments && p.assignments + map[] == p.assignments;
  }

  // ---- The writer ----

  predicate AllDigits(s: string) { s != "" && forall k :: 0 <= k < |s| ==> IsDigit(s[k]) }

  predicate IsDash(c: char) { c == '-' }

  predicate IsHexDigit(c: char) { IsDigit(c) || 'a' <= c <= 'f' || 'A' <= c <= 'F' }

  predicate IsNumeric(v: string) {
    || AllDigits(TrimLeft(v, IsDash))
    || ("0x" <= v && forall k :: 2 <= k < |v| ==> IsHexDigit(v[k]))
  }

  predicate IsQuoted(v: string) { v != "" && v[0] == '"' && v[|v| - 1] == '"' }

  /** The option name of a symbol. */
  function ShortName(symbol: string): string {
    if PREFIX <= symbol then symbol[|PREFIX|..] else symbol
  }

  /** The right-hand side `_format_assignment` writes for a value. */
  function RightHandSide(symbol: string, value: string): string {
    var v := Strip(value);
    if v == ShortName(symbol) then "y"
    else if IsNumeric(v) || IsQuoted(v) then v
    else ['"'] + v + ['"']
  }

  function FormatAssignment(symbol: string, value: string): string {
    SetLine(symbol, RightHandSide(symbol, value))
  }

  /** `_previous_choice_symbol`. */
  function PreviousChoice(p: Proposal): (r: Option<string>)
    ensures r.Some? ==> IsSymbol(r.value) && p.source.Choice? && r.value != p.config
  {
    var current, proposed := Strip(p.currentValue), Strip(p.proposedValue);
    if !p.source.Choice? || current in {"", "?", "y", "n", "m"} || current == proposed then None
    else
      var short := if PREFIX <= current then current[|PREFIX|..] else current;
      var previous := PREFIX + short;
      if short == "" || !AllSymbolChars(short) || previous == p.config then None else Some(previous)
  }

  datatype Kind = Enable | Disable | Demote | Other

  function KindOf(p: Proposal): Kind {
    if p.proposedValue == "y" then Enable
    else if p.proposedValue == "n" then Disable
    else if p.proposedValue == "m" then Demote
    else Other
  }

  /** The accepted proposals of one kind, in order. */
  function Select(rs: seq<Reviewed>, k: Kind): seq<Reviewed> {
    if rs == [] then []
    else
      var rest, r := Select(rs[..|rs| - 1], k), rs[|rs| - 1];
      if r.decision.Accept? && KindOf(r.proposal) == k then rest + [r] else rest
  }

  lemma {:induction false} SelectMembers(rs: seq<Reviewed>, k: Kind, r: Reviewed)
    ensures r in Select(rs, k) <==> r in rs && r.decision.Accept? && KindOf(r.proposal) == k
  {
    if rs != [] {
      SelectMembers(rs[..|rs| - 1], k, r);
      assert rs == rs[..|rs| - 1] + [rs[|rs| - 1]];
    }
  }

  lemma SelectWithin(rs: seq<Reviewed>, k: Kind)
    ensures forall r :: r in Select(rs, k) ==> r in rs
  {
    forall r | r in Select(rs, k) ensures r in rs { SelectMembers(rs, k, r); }
  }

  /** The lines that carry out one accepted proposal. */
  function Payload(p: Proposal): seq<string> {
    match KindOf(p)
    case Enable => [SetLine(p.config, "y")]
    case Disable => [UnsetLine(p.config)]
    case Demote => [SetLine(p.config, "m")]
    case Other =>
      (if PreviousChoice(p).Some? then [UnsetLine(PreviousChoice(p).value)] else [])
      + [FormatAssignment(p.config, p.proposedValue)]
  }

  /** They stand between a comment with the rationale and an empty line. */
  function Entry(r: Reviewed, note: Reviewed -> string): seq<string> {
    [RationaleLine(r.proposal.config, note(r))] + Payload(r.proposal) + [""]
  }

  function Entries(rs: seq<Reviewed>, note: Reviewed -> string): seq<string> {
    if rs == [] then [] else Entries(rs[..|rs| - 1], note) + Entry(rs[|rs| - 1], note)
  }

  function Section(title: string, rs: seq<Reviewed>, note: Reviewed -> string): seq<string> {
    if rs == [] then [] else [title] + Entries(rs, note)
  }

  datatype Provenance = Provenance(
    timestamp: string, snapshotDir: string, autonomy: string, model: Option<string>, tier: Option<string>)

  function Decimal(n: nat): string {
    if n < 10 then ["0123456789"[n]] else Decimal(n / 10) + ["0123456789"[n % 10]]
  }

  function OptionalLine(key: string, value: Option<string>): seq<string> {
    if value.Some? && value.value != "" then [Comment(key + value.value)] else []
  }

  function CountLine(key: string, n: nat, suffix: string): string { Comment(key + (Decimal(n) + suffix)) }

  function OriginLines(h: Provenance): seq<string> {
    [Comment("autokernel-kfrag schema=1"),
     Comment("generated: " + h.timestamp)]
    + [Comment("snapshot:  " + h.snapshotDir),
       Comment("autonomy:  " + h.autonomy)]
  }

  function ModelLines(h: Provenance): seq<string> {
    OptionalLine("model:     ", h.model) + OptionalLine("tier:      ", h.tier)
  }

  function KindCountLines(rs: ReviewSet): seq<string> {
    [CountLine("enables:   ", |Select(rs.accepted, Enable)|, ""),
     CountLine("disables:  ", |Select(rs.accepted, Disable)|, "")]
    + [CountLine("demotions: ", |Select(rs.accepted, Demote)|, ""),
       CountLine("other:     ", |Select(rs.accepted, Other)|, " (choices/toggles/tunables)")]
  }

  function VerdictCountLines(rs: ReviewSet): seq<string> {
    [CountLine("rejected:  ", |rs.rejected|, " (kept at current value)"),
     CountLine("deferred:  ", |rs.deferred|, " (no decision; " + "current value preserved)")]
  }

  function UsageLines(): seq<string> {
    ["#",
     Comment("Apply with:  " + ("scripts/kconfig/merge_config.sh" + " -m .config <this-file>")),
     "#" + (seq(14, _ => ' ') + "make olddefconfig")]
  }

  function HeaderLines(h: Provenance, rs: ReviewSet): seq<string> {
    OriginLines(h) + ModelLines(h) + KindCountLines(rs) + VerdictCountLines(rs) + UsageLines()
  }

  function EnablesTitle(): string { Title("enables (tuning)", 33) }
  function DisablesTitle(): string { Title("disables", 41) }
  function DemotionsTitle(): string { Title("demotions (built-in \U{2192} module)", 20) }
  function OthersTitle(): string { Title("choices / toggles / tunables", 21) }

  function KfragLines(h: Provenance, rs: ReviewSet, note: Reviewed -> string): seq<string> {
    HeaderLines(h, rs)
    + [""]
    + Section(EnablesTitle(), Select(rs.accepted, Enable), note)
    + Section(DisablesTitle(), Select(rs.accepted, Disable), note)
    + Section(DemotionsTitle(), Select(rs.accepted, Demote), note)
    + Section(OthersTitle(), Select(rs.accepted, Other), note)
  }

  /** The body of a section's loop. */
  method AppendEntry(lines: seq<string>, r: Reviewed, note: Reviewed -> string) returns (out: seq<string>)
    ensures out == lines + Entry(r, note)
  {
    var p := r.proposal;
    var entry := [RationaleLine(p.config, note(r))];
    match KindOf(p) {
      case Enable => entry := entry + [SetLine(p.config, "y")];
      case Disable => entry := entry + [UnsetLine(p.config)];
      case Demote => entry := entry + [SetLine(p.config, "m")];
      case Other =>
        ghost var first := entry;
        var previous := PreviousChoice(p);
        if previous.Some? {
          entry := entry + [UnsetLine(previous.value)];
        }
        entry := entry + [FormatAssignment(p.config, p.proposedValue)];
        assert entry == first + Payload(p);
    }
    out := lines + (entry + [""]);
  }

  /** One of the four sections of `write_kfrag`. */
  method AppendSection(lines: seq<string>, title: string, rs: seq<Reviewed>, note: Reviewed -> string)
      returns (out: seq<string>)
    ensures out == lines + Section(title, rs, note)
  {
    out := lines;
    if rs != [] {
      out := out + [title];
      for i := 0 to |rs|
        invariant out == lines + [title] + Entries(rs[..i], note)
      {
        assert rs[..i + 1][..i] == rs[..i];
        Assoc(lines + [title], Entries(rs[..i], note), Entry(rs[i], note));
        out := AppendEntry(out, rs[i], note);
      }
      assert rs[..|rs|] == rs;
      Assoc(lines, [title], Entries(rs, note));
    }
  }

  /** `write_kfrag`.  The last line is empty, so the text ends in "\n". */
  method WriteKfrag(h: Provenance, rs: ReviewSet, note: Reviewed -> string) returns (text: string)
    ensures text == JoinLines(KfragLines(h, rs, note))
  {
    var lines := HeaderLines(h, rs) + [""];
    lines := AppendSection(lines, EnablesTitle(), Select(rs.accepted, Enable), note);
    lines := AppendSection(lines, DisablesTitle(), Select(rs.accepted, Disable), note);
    lines := AppendSection(lines, DemotionsTitle(), Select(rs.accepted, Demote), note);
    lines := AppendSection(lines, OthersTitle(), Select(rs.accepted, Other), note);
    text := JoinLines(lines);
  }
}
