/** What the lines `write_kfrag` writes for each proposal, and its header, are read back as. */
module KfragReads {
  import opened Option
  import opened Chars
  import opened Lines
  import opened ConfigLines
  import opened Models
  import opened Kfrag

  /** The symbols an accepted proposal unsets. */
  function Unsets(p: Proposal): seq<string> {
    match KindOf(p)
    case Disable => [p.config]
    case Other => if PreviousChoice(p).Some? then [PreviousChoice(p).value] else []
    case _ => []
  }

  /** The value it assigns to its own symbol. */
  function AssignedValue(p: Proposal): Option<string> {
    match KindOf(p)
    case Enable => Some("y")
    case Disable => None
    case Demote => Some("m")
    case Other =>
      if Strip(p.proposedValue) == ShortName(p.config) then Some("y")
      else Some(ReadValue(FirstLine(Strip(p.proposedValue))))
  }

  /** What f gives for each proposal, in order. */
  function Gather(rs: seq<Reviewed>, f: Proposal -> seq<string>): seq<string> {
    if rs == [] then [] else Gather(rs[..|rs| - 1], f) + f(rs[|rs| - 1].proposal)
  }

  function AllUnsets(rs: seq<Reviewed>): seq<string> { Gather(rs, Unsets) }

  /** All assignments; the last one for a symbol wins. */
  function AllAssigned(rs: seq<Reviewed>): map<string, string> {
    if rs == [] then map[]
    else
      var rest, p := AllAssigned(rs[..|rs| - 1]), rs[|rs| - 1].proposal;
      if AssignedValue(p).Some? then rest[p.config := AssignedValue(p).value] else rest
  }

  /** The accepted proposals in the order in which they are written. */
  function InOrder(rs: ReviewSet): seq<Reviewed> {
    Select(rs.accepted, Enable) + Select(rs.accepted, Disable)
    + Select(rs.accepted, Demote) + Select(rs.accepted, Other)
  }

  /** The writer is given symbols that match the symbol pattern. */
  ghost predicate Symbols(rs: seq<Reviewed>) { forall r :: r in rs ==> IsSymbol(r.proposal.config) }

  /** No text given to the writer has a line break. */
  ghost predicate Unbroken(rs: seq<Reviewed>, note: Reviewed -> string) {
    forall r :: r in rs ==> NoBreak(note(r)) && NoBreak(r.proposal.proposedValue)
  }

  ghost predicate PlainHeader(h: Provenance) {
    && NoBreak(h.timestamp) && NoBreak(h.snapshotDir) && NoBreak(h.autonomy)
    && (h.model.Some? ==> NoBreak(h.model.value)) && (h.tier.Some? ==> NoBreak(h.tier.value))
  }

  // Rationales, values and header texts are written as they stand, so any of them may break a
  // line.  What the writer means is read from the first part of each line (Firsts); the parts
  // after a break are strays.

  lemma LineFormsNoBreak(x: string, text: string)
    requires NoBreak(x) && NoBreak(text)
    ensures NoBreak(UnsetLine(x)) && NoBreak(SetLine(x, text)) && NoBreak(RationaleLine(x, text))
  {
    assert NoBreak(UNSET);
  }

  // Trailing blanks are dropped before a line is classified.

  lemma {:induction false} RStripKeeps(s: string, k: nat)
    requires k < |s| && !IsSpace(s[k])
    ensures |RStrip(s)| > k && RStrip(s) == s[..|RStrip(s)|]
  {
    if IsSpace(s[|s| - 1]) {
      RStripKeeps(s[..|s| - 1], k);
    }
  }

  lemma {:induction false} RStripAfter(a: string, b: string)
    requires a != "" && !IsSpace(a[|a| - 1])
    ensures RStrip(a + b) == a + RStrip(b)
  {
    if b == "" {
      assert a + b == a;
    } else if IsSpace(b[|b| - 1]) {
      assert (a + b)[..|a + b| - 1] == a + b[..|b| - 1];
      RStripAfter(a, b[..|b| - 1]);
    }
  }

  lemma RStripSet(x: string, raw: string)
    ensures RStrip(SetLine(x, raw)) == SetLine(x, RStrip(raw))
  {
    RStripAfter(x + "=", raw);
  }

  lemma ReadSet(x: string, raw: string)
    requires IsSymbol(x)
    ensures ReadLine(SetLine(x, raw)) == EMPTY.(assignments := map[x := ReadValue(RStrip(raw))])
  {
    RStripSet(x, raw);
    SetLineReads(x, RStrip(raw));
    SymbolStart(x, "=" + RStrip(raw));
    assert SetLine(x, RStrip(raw)) == x + ("=" + RStrip(raw));
  }

  lemma ReadUnset(x: string)
    requires IsSymbol(x)
    ensures ReadLine(UnsetLine(x)) == EMPTY.(disables := [x])
  {
    var line := UnsetLine(x);
    assert line[|line| - 1] == UNSET[|UNSET| - 1] == 't';
    assert RStrip(line) == line;
    UnsetLineReads(x);
  }

  lemma ReadRationale(x: string, text: string)
    requires IsSymbol(x)
    ensures NoSettings(ReadLine(RationaleLine(x, text)))
  {
    var line := RationaleLine(x, text);
    var k := 2 + |x|;
    assert line == "# " + x + (": " + text);
    assert line[k] == ':';
    RStripKeeps(line, k);
    var s := RStrip(line);
    var r := (": " + text)[..|s| - k];
    assert s == "# " + (x + r);
    HashSymbol(x, r);
  }

  /** A header line: its first visible character after "#", at k, cannot start a symbol. */
  lemma ReadComment(line: string, k: nat)
    requires 0 < k < |line| && line[0] == '#' && line[k] != 'C' && !IsSpace(line[k])
    requires forall i :: 0 < i < k ==> IsSpace(line[i])
    ensures NoSettings(ReadLine(line))
  {
    RStripKeeps(line, k);
    CommentSetsNothing(RStrip(line), k);
  }

  /** Trimming a text that starts with a visible character. */
  lemma StripStarted(f: string)
    requires f == "" || !IsSpace(f[0])
    ensures Strip(f) == RStrip(f) && ReadValue(RStrip(f)) == ReadValue(f)
  {
    TrimRightIsPrefix(f, IsSpace);
    TrimIdentity(RStrip(f), IsSpace);
  }

  lemma FirstLineOfSet(x: string, raw: string)
    requires IsSymbol(x)
    ensures FirstLine(SetLine(x, raw)) == SetLine(x, FirstLine(raw))
    ensures AfterBreak(SetLine(x, raw)) == AfterBreak(raw)
  {
    PiecesAfter(x + "=", raw);
  }

  /** The value read from the first line of a quoted text is that of the text's first line. */
  lemma QuotedReads(v: string)
    requires CleanEdges(v, IsSpace)
    ensures ReadValue(RStrip(FirstLine(['"'] + v + ['"']))) == ReadValue(FirstLine(v))
  {
    var raw, f := ['"'] + v + ['"'], FirstLine(v);
    assert raw == ['"'] + (v + ['"']);
    PiecesAfter(['"'], v + ['"']);
    StripStarted(FirstLine(raw));
    assert !IsSpace('"');
    if NoBreak(v) {
      FirstLineOfNoBreak(v);
      FirstLineOfNoBreak(raw);
      TrimIdentity(raw, IsSpace);
      TrimIdentity(v, IsSpace);
      TrimQuoted(v);
    } else {
      BreakInside(v, ['"']);
      assert FirstLine(raw) == ['"'] + f;
      RStripAfter(['"'], f);
      StripStarted(f);
      StripStarted(['"'] + f);
      TrimLeftExtra(RStrip(f), IsQuote, '"');
    }
  }

  lemma {:induction false} BreakInside(v: string, tail: string)
    requires !NoBreak(v)
    ensures FirstLine(v + tail) == FirstLine(v)
  {
    if v[0] != '\n' {
      assert v == [v[0]] + v[1..];
      assert (v + tail)[1..] == v[1..] + tail;
      BreakInside(v[1..], tail);
      PiecesAfter([v[0]], v[1..]);
      PiecesAfter([v[0]], v[1..] + tail);
      assert v + tail == [v[0]] + (v[1..] + tail);
    }
  }

  lemma ReadAssignment(p: Proposal)
    requires IsSymbol(p.config) && KindOf(p).Other?
    ensures ReadLine(FirstLine(FormatAssignment(p.config, p.proposedValue)))
         == EMPTY.(assignments := map[p.config := AssignedValue(p).value])
  {
    var v, raw := Strip(p.proposedValue), RightHandSide(p.config, p.proposedValue);
    TrimIdentity(p.proposedValue, IsSpace);
    FirstLineOfSet(p.config, raw);
    ReadSet(p.config, FirstLine(raw));
    if v == ShortName(p.config) {
      FirstLineOfNoBreak("y");
      ReadLetter('y');
      assert RStrip("y") == "y" by { TrimIdentity("y", IsSpace); StripStarted("y"); }
    } else if IsNumeric(v) || IsQuoted(v) {
      StripStarted(FirstLine(v));
    } else {
      QuotedReads(v);
    }
  }

  /** What one proposal sets, as the reader reports it. */
  function Effect(p: Proposal): (seq<string>, map<string, string>) {
    (Unsets(p), if AssignedValue(p).Some? then map[p.config := AssignedValue(p).value] else map[])
  }

  lemma ReadFirst(line: string)
    ensures ParseLines(Firsts([line])) == ReadLine(FirstLine(line))
    ensures NoBreak(line) ==> ParseLines(Firsts([line])) == ReadLine(line)
  {
    FirstsOne(line);
    ParseOne(FirstLine(line));
    if NoBreak(line) { FirstLineOfNoBreak(line); }
  }

  lemma ReadPayload(p: Proposal)
    requires IsSymbol(p.config)
    ensures Settings(ParseLines(Firsts(Payload(p)))) == Effect(p)
  {
    var x := p.config;
    match KindOf(p)
    case Enable =>
      LineFormsNoBreak(x, "y"); ReadFirst(SetLine(x, "y"));
      ReadSet(x, "y"); ReadLetter('y');
    case Disable =>
      LineFormsNoBreak(x, ""); ReadFirst(UnsetLine(x));
      ReadUnset(x);
    case Demote =>
      LineFormsNoBreak(x, "m"); ReadFirst(SetLine(x, "m"));
      ReadSet(x, "m"); ReadLetter('m');
    case Other => ReadOther(p);
  }

  lemma ReadLetter(c: char)
    requires c == 'y' || c == 'm'
    ensures ReadValue([c]) == [c] && RStrip([c]) == [c]
  {
    TrimIdentity([c], IsSpace);
    TrimIdentity([c], IsQuote);
    StripStarted([c]);
  }

  /** An assignment on its own, and one after the unset of the previous option. */
  lemma ReadAlone(p: Proposal)
    requires IsSymbol(p.config) && KindOf(p).Other?
    ensures ParseLines(Firsts([FormatAssignment(p.config, p.proposedValue)]))
         == EMPTY.(assignments := map[p.config := AssignedValue(p).value])
  {
    ReadAssignment(p);
    ReadFirst(FormatAssignment(p.config, p.proposedValue));
  }

  lemma ReadAfterUnset(x: string, line: string, y: string, v: string)
    requires IsSymbol(x) && ParseLines(Firsts([line])) == EMPTY.(assignments := map[y := v])
    ensures ParseLines(Firsts([UnsetLine(x)] + [line])) == EMPTY.(disables := [x], assignments := map[y := v])
  {
    LineFormsNoBreak(x, "");
    ReadUnset(x); ReadFirst(UnsetLine(x));
    FirstsAppend([UnsetLine(x)], [line]);
    ParseAppend(Firsts([UnsetLine(x)]), Firsts([line]));
    CombineOne(EMPTY.(disables := [x]), y, v);
  }

  lemma EffectOfOther(p: Proposal)
    requires KindOf(p).Other?
    ensures AssignedValue(p).Some? && Effect(p).1 == map[p.config := AssignedValue(p).value]
    ensures Effect(p).0 == if PreviousChoice(p).Some? then [PreviousChoice(p).value] else []
    ensures Payload(p) == (if PreviousChoice(p).Some? then [UnsetLine(PreviousChoice(p).value)] else [])
                          + [FormatAssignment(p.config, p.proposedValue)]
  {
  }

  lemma ReadOther(p: Proposal)
    requires IsSymbol(p.config) && KindOf(p).Other?
    ensures Settings(ParseLines(Firsts(Payload(p)))) == Effect(p)
  {
    var line := FormatAssignment(p.config, p.proposedValue);
    EffectOfOther(p);
    ReadAlone(p);
    if PreviousChoice(p).Some? {
      ReadAfterUnset(PreviousChoice(p).value, line, p.config, AssignedValue(p).value);
    } else {
      assert [] + [line] == [line];
    }
  }

  lemma RationaleParts(x: string, text: string)
    requires IsSymbol(x)
    ensures FirstLine(RationaleLine(x, text)) == RationaleLine(x, FirstLine(text))
    ensures AfterBreak(RationaleLine(x, text)) == AfterBreak(text)
  {
    var front := "# " + x + ": ";
    assert RationaleLine(x, text) == front + text;
    assert RationaleLine(x, FirstLine(text)) == front + FirstLine(text);
    PiecesAfter(front, text);
  }

  /** One entry is read back as what its proposal unsets and assigns. */
  lemma ReadEntry(r: Reviewed, note: Reviewed -> string)
    requires IsSymbol(r.proposal.config)
    ensures Settings(ParseLines(Firsts(Entry(r, note)))) == Effect(r.proposal)
  {
    var rationale, payload := RationaleLine(r.proposal.config, note(r)), Payload(r.proposal);
    RationaleParts(r.proposal.config, note(r));
    ReadRationale(r.proposal.config, FirstLine(note(r))); ReadFirst(rationale);
    ReadFirst("");
    ReadPayload(r.proposal);
    FirstsAppend([rationale], payload);
    FirstsAppend([rationale] + payload, [""]);
    ParseAppend(Firsts([rationale]), Firsts(payload));
    ParseAppend(Firsts([rationale] + payload), Firsts([""]));
    CombineSettings(ParseLines(Firsts([rationale])), ParseLines(Firsts(payload)));
    CombineSettings(ParseLines(Firsts([rationale] + payload)), ReadLine(""));
  }

  lemma {:induction false} ReadEntries(rs: seq<Reviewed>, note: Reviewed -> string)
    requires Symbols(rs)
    ensures Settings(ParseLines(Firsts(Entries(rs, note)))) == (AllUnsets(rs), AllAssigned(rs))
  {
    if rs != [] {
      var rest, r := rs[..|rs| - 1], rs[|rs| - 1];
      ReadEntries(rest, note);
      ReadEntry(r, note);
      FirstsAppend(Entries(rest, note), Entry(r, note));
      ParseAppend(Firsts(Entries(rest, note)), Firsts(Entry(r, note)));
      AssignOne(AllAssigned(rest), r.proposal);
    }
  }

  lemma AssignOne(m: map<string, string>, p: Proposal)
    ensures m + Effect(p).1 == if AssignedValue(p).Some? then m[p.config := AssignedValue(p).value] else m
  {
  }

  // ---- Comments and line breaks ----

  /** Its first line is read as no setting; and, if plain, it has no break. */
  ghost predicate IsComment(line: string, plain: bool) {
    NoSettings(ReadLine(FirstLine(line))) && (plain ==> NoBreak(line))
  }

  lemma CommentIsComment(text: string, plain: bool)
    requires text != "" && text[0] != 'C' && !IsSpace(text[0]) && (plain ==> NoBreak(text))
    ensures IsComment(Comment(text), plain)
  {
    FirstLineKeeps(Comment(text), 2);
    ReadComment(FirstLine(Comment(text)), 2);
  }

  /** Texts that start with a lower-case letter. */
  lemma KeyIsComment(key: string, value: string, plain: bool)
    requires key != "" && 'a' <= key[0] <= 'z' && NoBreak(key) && (plain ==> NoBreak(value))
    ensures IsComment(Comment(key + value), plain)
  {
    CommentIsComment(key + value, plain);
  }

  lemma {:induction false} DecimalNoBreak(n: nat)
    ensures NoBreak(Decimal(n))
  {
    if n >= 10 { DecimalNoBreak(n / 10); }
  }

  lemma CountIsComment(key: string, n: nat, suffix: string)
    requires key != "" && 'a' <= key[0] <= 'z' && NoBreak(key) && NoBreak(suffix)
    ensures IsComment(CountLine(key, n, suffix), true)
  {
    DecimalNoBreak(n);
    KeyIsComment(key, Decimal(n) + suffix, true);
  }

  lemma OptionalIsComment(key: string, value: Option<string>, plain: bool)
    requires key != "" && 'a' <= key[0] <= 'z' && NoBreak(key) && (plain && value.Some? ==> NoBreak(value.value))
    ensures AllComments(OptionalLine(key, value), plain)
  {
    if value.Some? { KeyIsComment(key, value.value, plain); }
  }

  lemma TitleIsComment(name: string, n: nat)
    requires NoBreak(name)
    ensures IsComment(Title(name, n), true)
  {
    CommentIsComment(Rule(2) + (" " + (name + (" " + Rule(n)))), true);
  }

  lemma TitlesAreComments()
    ensures IsComment(EnablesTitle(), true) && IsComment(DisablesTitle(), true)
    ensures IsComment(DemotionsTitle(), true) && IsComment(OthersTitle(), true)
  {
    assert NoBreak("enables (tuning)") && NoBreak("disables");
    TitleIsComment("enables (tuning)", 33);
    TitleIsComment("disables", 41);
    DemotionsTitleIsComment();
    TitleIsComment("choices / toggles / tunables", 21);
  }

  lemma DemotionsTitleIsComment()
    ensures IsComment(DemotionsTitle(), true)
  {
    TitleIsComment("demotions (built-in \U{2192} module)", 20);
  }

  ghost predicate AllComments(ls: seq<string>, plain: bool) { forall l :: l in ls ==> IsComment(l, plain) }

  lemma SchemaIsComment()
    ensures IsComment(Comment("autokernel-kfrag schema=1"), true)
  {
    CommentIsComment("autokernel-kfrag schema=1", true);
  }

  lemma GeneratedIsComment(text: string, plain: bool)
    requires plain ==> NoBreak(text)
    ensures IsComment(Comment("generated: " + text), plain)
  {
    KeyIsComment("generated: ", text, plain);
  }

  lemma SnapshotIsComment(text: string, plain: bool)
    requires plain ==> NoBreak(text)
    ensures IsComment(Comment("snapshot:  " + text), plain)
  {
    KeyIsComment("snapshot:  ", text, plain);
  }

  lemma AutonomyIsComment(text: string, plain: bool)
    requires plain ==> NoBreak(text)
    ensures IsComment(Comment("autonomy:  " + text), plain)
  {
    KeyIsComment("autonomy:  ", text, plain);
  }

  lemma CommentPair(a: string, b: string, plain: bool)
    requires IsComment(a, plain) && IsComment(b, plain)
    ensures AllComments([a, b], plain)
  {
  }

  lemma CommentsConcat(a: seq<string>, b: seq<string>, plain: bool)
    requires AllComments(a, plain) && AllComments(b, plain)
    ensures AllComments(a + b, plain)
  {
  }

  lemma CommentsPlain(ls: seq<string>, plain: bool)
    requires AllComments(ls, true)
    ensures AllComments(ls, plain)
  {
    forall l | l in ls ensures IsComment(l, plain) { assert IsComment(l, true); }
  }

  lemma OriginIsComments(h: Provenance, plain: bool)
    requires plain ==> PlainHeader(h)
    ensures AllComments(OriginLines(h), plain)
  {
    SchemaIsComment();
    GeneratedIsComment(h.timestamp, plain);
    SnapshotIsComment(h.snapshotDir, plain);
    AutonomyIsComment(h.autonomy, plain);
    var a, b := Comment("autokernel-kfrag schema=1"), Comment("generated: " + h.timestamp);
    var c, d := Comment("snapshot:  " + h.snapshotDir), Comment("autonomy:  " + h.autonomy);
    CommentPair(a, b, plain);
    CommentPair(c, d, plain);
    CommentsConcat([a, b], [c, d], plain);
  }

  lemma ModelIsComments(h: Provenance, plain: bool)
    requires plain ==> PlainHeader(h)
    ensures AllComments(ModelLines(h), plain)
  {
    OptionalIsComment("model:     ", h.model, plain);
    OptionalIsComment("tier:      ", h.tier, plain);
    CommentsConcat(OptionalLine("model:     ", h.model), OptionalLine("tier:      ", h.tier), plain);
  }

  lemma KindCountsAreComments(rs: ReviewSet)
    ensures AllComments(KindCountLines(rs), true)
  {
    EnableDisableCounts(|Select(rs.accepted, Enable)|, |Select(rs.accepted, Disable)|);
    DemoteOtherCounts(|Select(rs.accepted, Demote)|, |Select(rs.accepted, Other)|);
  }

  lemma EnableDisableCounts(e: nat, d: nat)
    ensures IsComment(CountLine("enables:   ", e, ""), true) && IsComment(CountLine("disables:  ", d, ""), true)
  {
    CountIsComment("enables:   ", e, "");
    CountIsComment("disables:  ", d, "");
  }

  lemma DemoteOtherCounts(m: nat, o: nat)
    ensures IsComment(CountLine("demotions: ", m, ""), true)
    ensures IsComment(CountLine("other:     ", o, " (choices/toggles/tunables)"), true)
  {
    CountIsComment("demotions: ", m, "");
    CountIsComment("other:     ", o, " (choices/toggles/tunables)");
  }

  lemma VerdictCountsAreComments(rs: ReviewSet)
    ensures AllComments(VerdictCountLines(rs), true)
  {
    RejectedCount(|rs.rejected|);
    DeferredCount(|rs.deferred|);
  }

  lemma RejectedCount(n: nat)
    ensures IsComment(CountLine("rejected:  ", n, " (kept at current value)"), true)
  {
    CountIsComment("rejected:  ", n, " (kept at current value)");
  }

  lemma DeferredCount(n: nat)
    ensures IsComment(CountLine("deferred:  ", n, " (no decision; " + "current value preserved)"), true)
  {
    CountIsComment("deferred:  ", n, " (no decision; " + "current value preserved)");
  }

  lemma ApplyLineIsComment()
    ensures IsComment(Comment("Apply with:  " + ("scripts/kconfig/merge_config.sh" + " -m .config <this-file>")), true)
  {
    CommentIsComment("Apply with:  " + ("scripts/kconfig/merge_config.sh" + " -m .config <this-file>"), true);
  }

  lemma MakeLineIsComment()
    ensures IsComment("#" + (seq(14, _ => ' ') + "make olddefconfig"), true)
  {
    var line := "#" + (seq(14, _ => ' ') + "make olddefconfig");
    assert forall i :: 0 < i < 15 ==> line[i] == ' ';
    assert line[15] == "make olddefconfig"[0];
    FirstLineOfNoBreak(line);
    ReadComment(line, 15);
  }

  lemma UsageIsComments()
    ensures AllComments(UsageLines(), true)
  {
    ApplyLineIsComment();
    MakeLineIsComment();
    FirstLineOfNoBreak("#");
    assert RStrip("#") == "#";
    assert "#"[1..] == "";
  }

  lemma {:induction false} CommentsSetNothing(ls: seq<string>, plain: bool)
    requires AllComments(ls, plain)
    ensures NoSettings(ParseLines(Firsts(ls))) && (plain ==> AllNoBreak(ls))
  {
    if ls != [] {
      var front, l := ls[..|ls| - 1], ls[|ls| - 1];
      assert ls == front + [l];
      CommentsSetNothing(front, plain);
      assert IsComment(l, plain);
      assert Firsts(ls)[..|Firsts(front)|] == Firsts(front);
      CombineSettings(ParseLines(Firsts(front)), ReadLine(FirstLine(l)));
    }
  }

  lemma HeaderIsComments(h: Provenance, rs: ReviewSet, plain: bool)
    requires plain ==> PlainHeader(h)
    ensures AllComments(HeaderLines(h, rs), plain)
  {
    OriginIsComments(h, plain);
    ModelIsComments(h, plain);
    KindCountsAreComments(rs);
    VerdictCountsAreComments(rs);
    UsageIsComments();
    var counts := KindCountLines(rs);
    CommentsPlain(counts, plain);
    CommentsPlain(VerdictCountLines(rs), plain);
    CommentsPlain(UsageLines(), plain);
    CommentsConcat(OriginLines(h), ModelLines(h), plain);
    CommentsConcat(OriginLines(h) + ModelLines(h), counts, plain);
    CommentsConcat(OriginLines(h) + ModelLines(h) + counts, VerdictCountLines(rs), plain);
    CommentsConcat(OriginLines(h) + ModelLines(h) + counts + VerdictCountLines(rs), UsageLines(), plain);
  }

  /** No first line of the header is read as a setting, whatever the texts in it. */
  lemma HeaderSetsNothing(h: Provenance, rs: ReviewSet)
    ensures NoSettings(ParseLines(Firsts(HeaderLines(h, rs) + [""])))
    ensures PlainHeader(h) ==> AllNoBreak(HeaderLines(h, rs))
  {
    var plain, top := PlainHeader(h), HeaderLines(h, rs);
    HeaderIsComments(h, rs, plain);
    CommentsSetNothing(top, plain);
    FirstsAppend(top, [""]);
    ReadFirst("");
    ParseAppend(Firsts(top), Firsts([""]));
    CombineSettings(ParseLines(Firsts(top)), ReadLine(""));
  }
}
