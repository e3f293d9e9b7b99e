/** The text of a fragment, and what it says about each symbol, in terms of the proposed values. */
module KfragText {
  import opened Option
  import opened Chars
  import opened Lines
  import opened ConfigLines
  import opened Models
  import opened Kfrag
  import opened KfragReads
  import opened KfragRoundTrip

  // ---- Lines ----

  /** Digits, perhaps behind minus signs. */
  predicate IsInteger(w: string) {
    w != "" &&
    ((forall c :: c in w ==> '0' <= c <= '9') || (w[0] == '-' && IsInteger(w[1..])))
  }

  predicate IsHex(w: string) {
    |w| > 1 && w[0] == '0' && w[1] == 'x' && forall c :: c in w[2..] ==> c in "0123456789abcdefABCDEF"
  }

  predicate StandsQuoted(w: string) { w != "" && w[0] == '"' && w[|w| - 1] == '"' }

  /** The right-hand side for a trimmed value w of x: y when w is the name of the option x itself,
      a number or a quoted text as it stands, and anything else between quotes. */
  predicate IsRightHandSide(raw: string, x: string, w: string) {
    if x == "CONFIG_" + w then raw == "y"
    else if IsInteger(w) || IsHex(w) || StandsQuoted(w) then raw == w
    else raw == "\"" + (w + "\"")
  }

  lemma {:induction false} IntegerIsNumeric(w: string)
    ensures IsInteger(w) <==> AllDigits(TrimLeft(w, IsDash))
  {
    if w != "" {
      assert forall k :: 0 <= k < |w| ==> w[k] in w;
      if w[0] == '-' {
        IntegerIsNumeric(w[1..]);
      } else {
        assert TrimLeft(w, IsDash) == w;
      }
    }
  }

  lemma HexDigit(c: char)
    ensures IsHexDigit(c) <==> c in "0123456789abcdefABCDEF"
  {
    var ds := "0123456789abcdefABCDEF";
    if '0' <= c <= '9' { assert ds[c as int - '0' as int] == c; }
    if 'a' <= c <= 'f' { assert ds[10 + (c as int - 'a' as int)] == c; }
    if 'A' <= c <= 'F' { assert ds[16 + (c as int - 'A' as int)] == c; }
  }

  lemma HexIsNumeric(w: string)
    ensures IsHex(w) <==> "0x" <= w && forall k :: 2 <= k < |w| ==> IsHexDigit(w[k])
  {
    if "0x" <= w {
      forall c ensures IsHexDigit(c) <==> c in "0123456789abcdefABCDEF" { HexDigit(c); }
      assert forall k :: 2 <= k < |w| ==> w[k] == w[2..][k - 2] && w[k] in w[2..];
    }
  }

  lemma RightHandSideText(x: string, v: string)
    requires IsSymbol(x)
    ensures IsRightHandSide(RightHandSide(x, v), x, Strip(v))
  {
    var w := Strip(v);
    IntegerIsNumeric(w);
    HexIsNumeric(w);
    assert x == "CONFIG_" + x[7..];
    assert ShortName(x) == w <==> x == "CONFIG_" + w;
    assert ['"'] + w + ['"'] == "\"" + (w + "\"");
  }

  /** The option a choice replaces: exactly the trimmed current value, with CONFIG_ put in front
      if it is not there, when the source is a choice, the value is the name of an option and not a
      tristate, and it is neither the proposed value nor the proposal's own symbol. */
  lemma PreviousChoiceExactly(p: Proposal, name: string)
    ensures
      var current := Strip(p.currentValue);
      PreviousChoice(p) == Some("CONFIG_" + name)
      <==> && p.source == Choice
           && current != "y" && current != "n" && current != "m" && current != Strip(p.proposedValue)
           && (current == "CONFIG_" + name || (current == name && !("CONFIG_" <= name)))
           && name != "" && (forall c :: c in name ==> 'A' <= c <= 'Z' || '0' <= c <= '9' || c == '_')
           && "CONFIG_" + name != p.config
    ensures PreviousChoice(p).Some? ==> "CONFIG_" <= PreviousChoice(p).value
  {
    var current := Strip(p.currentValue);
    assert forall k :: 0 <= k < |name| ==> name[k] in name;
    assert "CONFIG_" + name == PREFIX + name;
    if PREFIX <= current { assert current == PREFIX + current[7..]; }
    assert '?' in "?";
    if PreviousChoice(p).Some? {
      var short := if PREFIX <= current then current[7..] else current;
      assert PreviousChoice(p).value == PREFIX + short;
      if PREFIX + short == PREFIX + name { assert (PREFIX + short)[7..] == (PREFIX + name)[7..]; }
    }
  }

  /** The lines of one accepted proposal, by its proposed value. */
  predicate IsEntryText(ls: seq<string>, p: Proposal, note: string) {
    var top, v := "# " + (p.config + (": " + note)), p.proposedValue;
    if v == "y" || v == "m" then ls == [top, p.config + ("=" + v), ""]
    else if v == "n" then ls == [top, "# " + (p.config + " is not set"), ""]
    else
      var k := if PreviousChoice(p).Some? then 2 else 1;
      && |ls| == k + 2 && ls[0] == top && ls[k + 1] == ""
      && (k == 2 ==> ls[1] == "# " + (PreviousChoice(p).value + " is not set"))
      && p.config + "=" <= ls[k] && IsRightHandSide(ls[k][|p.config| + 1..], p.config, Strip(v))
  }

  lemma OtherEntryText(r: Reviewed, note: Reviewed -> string)
    requires IsSymbol(r.proposal.config) && r.proposal.proposedValue !in {"y", "n", "m"}
    ensures IsEntryText(Entry(r, note), r.proposal, note(r))
  {
    var p := r.proposal;
    assert " " + UNSET == " is not set";
    RightHandSideText(p.config, p.proposedValue);
    var l := FormatAssignment(p.config, p.proposedValue);
    assert l == (p.config + "=") + RightHandSide(p.config, p.proposedValue);
    assert l[|p.config| + 1..] == RightHandSide(p.config, p.proposedValue);
  }

  lemma EntryText(r: Reviewed, note: Reviewed -> string)
    requires IsSymbol(r.proposal.config)
    ensures IsEntryText(Entry(r, note), r.proposal, note(r))
  {
    var p := r.proposal;
    if p.proposedValue !in {"y", "n", "m"} {
      OtherEntryText(r, note);
    } else {
      assert " " + UNSET == " is not set";
      assert p.config + "=" + p.proposedValue == p.config + ("=" + p.proposedValue);
    }
  }

  // ---- The file ----

  /** e stands in ls as consecutive lines. */
  ghost predicate Stands(e: seq<string>, ls: seq<string>) { exists a, b :: ls == a + e + b }

  lemma StandsIn(e: seq<string>, a: seq<string>, b: seq<string>)
    requires Stands(e, a) || Stands(e, b)
    ensures Stands(e, a + b)
  {
    if Stands(e, a) {
      var p, q :| a == p + e + q;
      assert a + b == p + e + (q + b);
    } else {
      var p, q :| b == p + e + q;
      assert a + b == (a + p) + e + q;
    }
  }

  lemma StandsAlone(e: seq<string>)
    ensures Stands(e, e)
  {
    assert e == [] + e + [];
  }

  lemma {:induction false} EntryStands(rs: seq<Reviewed>, note: Reviewed -> string, r: Reviewed)
    requires r in rs
    ensures Stands(Entry(r, note), Entries(rs, note))
  {
    var front, last := rs[..|rs| - 1], rs[|rs| - 1];
    if r == last {
      StandsAlone(Entry(r, note));
    } else {
      assert rs == front + [last];
      EntryStands(front, note, r);
    }
    StandsIn(Entry(r, note), Entries(front, note), Entry(last, note));
  }

  lemma SectionStands(title: string, rs: seq<Reviewed>, note: Reviewed -> string, r: Reviewed)
    requires r in rs
    ensures Stands(Entry(r, note), Section(title, rs, note))
  {
    EntryStands(rs, note, r);
    StandsIn(Entry(r, note), [title], Entries(rs, note));
  }

  lemma OneOfFour(e: seq<string>, top: seq<string>, a: seq<string>, b: seq<string>, c: seq<string>, d: seq<string>)
    requires Stands(e, a) || Stands(e, b) || Stands(e, c) || Stands(e, d)
    ensures Stands(e, top + a + b + c + d)
  {
    if Stands(e, a) { StandsIn(e, top, a); }
    if Stands(e, top + a) || Stands(e, b) { StandsIn(e, top + a, b); }
    if Stands(e, top + a + b) || Stands(e, c) { StandsIn(e, top + a + b, c); }
    StandsIn(e, top + a + b + c, d);
  }

  /** Every accepted proposal has its lines in the fragment. */
  lemma AcceptedIsWritten(h: Provenance, rs: ReviewSet, note: Reviewed -> string, r: Reviewed)
    requires r in rs.accepted && r.decision == Accept
    ensures Stands(Entry(r, note), KfragLines(h, rs, note))
  {
    var k := KindOf(r.proposal);
    SelectMembers(rs.accepted, k, r);
    var title := match k case Enable => EnablesTitle() case Disable => DisablesTitle()
                         case Demote => DemotionsTitle() case Other => OthersTitle();
    SectionStands(title, Select(rs.accepted, k), note, r);
    OneOfFour(Entry(r, note), HeaderLines(h, rs) + [""],
              Section(EnablesTitle(), Select(rs.accepted, Enable), note), Section(DisablesTitle(), Select(rs.accepted, Disable), note),
              Section(DemotionsTitle(), Select(rs.accepted, Demote), note), Section(OthersTitle(), Select(rs.accepted, Other), note));
  }

  // ---- The header ----

  /** How many of the accepted proposals propose v. */
  function Proposing(rs: seq<Reviewed>, v: string): nat {
    if rs == [] then 0
    else Proposing(rs[..|rs| - 1], v)
         + if rs[|rs| - 1].decision == Accept && rs[|rs| - 1].proposal.proposedValue == v then 1 else 0
  }

  /** And how many propose no tristate. */
  function ProposingOther(rs: seq<Reviewed>): nat {
    if rs == [] then 0
    else ProposingOther(rs[..|rs| - 1])
         + if rs[|rs| - 1].decision == Accept && rs[|rs| - 1].proposal.proposedValue !in {"y", "n", "m"} then 1 else 0
  }

  lemma {:induction false} SelectCounts(rs: seq<Reviewed>)
    ensures |Select(rs, Enable)| == Proposing(rs, "y") && |Select(rs, Disable)| == Proposing(rs, "n")
    ensures |Select(rs, Demote)| == Proposing(rs, "m") && |Select(rs, Other)| == ProposingOther(rs)
  {
    if rs != [] { SelectCounts(rs[..|rs| - 1]); }
  }

  function NumberOf(s: string): int {
    if s == "" then 0 else 10 * NumberOf(s[..|s| - 1]) + (s[|s| - 1] as int - '0' as int)
  }

  /** s is the decimal writing of n. */
  predicate Writes(s: string, n: nat) {
    && s != "" && (forall i :: 0 <= i < |s| ==> '0' <= s[i] <= '9') && (|s| > 1 ==> s[0] != '0')
    && NumberOf(s) == n
  }

  lemma {:induction false} DecimalWrites(n: nat)
    ensures Writes(Decimal(n), n) && (n > 0 ==> Decimal(n)[0] != '0')
  {
    var ds := "0123456789";
    assert ds[n % 10] as int - '0' as int == n % 10;
    if n < 10 {
      assert Decimal(n)[..0] == "";
    } else {
      DecimalWrites(n / 10);
      var s := Decimal(n);
      assert s[..|s| - 1] == Decimal(n / 10);
    }
  }

  /** One of the lines has the number n between the two texts. */
  ghost predicate Counts(ls: seq<string>, front: string, n: nat, back: string) {
    exists s :: Writes(s, n) && front + s + back in ls
  }

  lemma LineCounts(ls: seq<string>, key: string, n: nat, suffix: string)
    requires CountLine(key, n, suffix) in ls
    ensures Counts(ls, "# " + key, n, suffix)
  {
    DecimalWrites(n);
    assert "# " + (key + (Decimal(n) + suffix)) == "# " + key + Decimal(n) + suffix;
  }

  /** The header counts the accepted proposals by what they propose, and the others. */
  lemma HeaderCounts(h: Provenance, rs: ReviewSet)
    ensures Counts(HeaderLines(h, rs), "# " + "enables:   ", Proposing(rs.accepted, "y"), "")
    ensures Counts(HeaderLines(h, rs), "# " + "disables:  ", Proposing(rs.accepted, "n"), "")
    ensures Counts(HeaderLines(h, rs), "# " + "demotions: ", Proposing(rs.accepted, "m"), "")
    ensures Counts(HeaderLines(h, rs), "# " + "other:     ", ProposingOther(rs.accepted), " (choices/toggles/tunables)")
    ensures Counts(HeaderLines(h, rs), "# " + "rejected:  ", |rs.rejected|, " (kept at current value)")
    ensures Counts(HeaderLines(h, rs), "# " + "deferred:  ", |rs.deferred|, " (no decision; " + "current value preserved)")
  {
    var ls := HeaderLines(h, rs);
    SelectCounts(rs.accepted);
    CountsInHeader(h, rs);
    LineCounts(ls, "enables:   ", |Select(rs.accepted, Enable)|, "");
    LineCounts(ls, "disables:  ", |Select(rs.accepted, Disable)|, "");
    LineCounts(ls, "demotions: ", |Select(rs.accepted, Demote)|, "");
    LineCounts(ls, "other:     ", |Select(rs.accepted, Other)|, " (choices/toggles/tunables)");
    LineCounts(ls, "rejected:  ", |rs.rejected|, " (kept at current value)");
    LineCounts(ls, "deferred:  ", |rs.deferred|, " (no decision; " + "current value preserved)");
  }

  lemma CountsInHeader(h: Provenance, rs: ReviewSet)
    ensures CountLine("enables:   ", |Select(rs.accepted, Enable)|, "") in HeaderLines(h, rs)
    ensures CountLine("disables:  ", |Select(rs.accepted, Disable)|, "") in HeaderLines(h, rs)
    ensures CountLine("demotions: ", |Select(rs.accepted, Demote)|, "") in HeaderLines(h, rs)
    ensures CountLine("other:     ", |Select(rs.accepted, Other)|, " (choices/toggles/tunables)") in HeaderLines(h, rs)
    ensures CountLine("rejected:  ", |rs.rejected|, " (kept at current value)") in HeaderLines(h, rs)
    ensures CountLine("deferred:  ", |rs.deferred|, " (no decision; " + "current value preserved)") in HeaderLines(h, rs)
  {
    var ks, vs := KindCountLines(rs), VerdictCountLines(rs);
    assert ks[0] in ks && ks[1] in ks && ks[2] in ks && ks[3] in ks && vs[0] in vs && vs[1] in vs;
  }

  function Given(key: string, value: Option<string>): seq<string> {
    if value == None || value == Some("") then [] else ["# " + (key + value.value)]
  }

  lemma OriginText(h: Provenance)
    ensures OriginLines(h) == ["# " + "autokernel-kfrag schema=1", "# " + ("generated: " + h.timestamp),
                               "# " + ("snapshot:  " + h.snapshotDir), "# " + ("autonomy:  " + h.autonomy)]
    ensures ModelLines(h) == Given("model:     ", h.model) + Given("tier:      ", h.tier)
  {
  }

  /** The header starts with where the fragment comes from: four lines, and one each for a model
      and a tier that is given. */
  lemma HeaderOrigin(h: Provenance, rs: ReviewSet)
    ensures
      ["# " + "autokernel-kfrag schema=1", "# " + ("generated: " + h.timestamp),
       "# " + ("snapshot:  " + h.snapshotDir), "# " + ("autonomy:  " + h.autonomy)]
      + (Given("model:     ", h.model) + Given("tier:      ", h.tier)) <= HeaderLines(h, rs)
  {
    OriginText(h);
    PrefixOfSum(OriginLines(h) + ModelLines(h), KindCountLines(rs), VerdictCountLines(rs), UsageLines());
  }

  lemma PrefixOfSum(a: seq<string>, b: seq<string>, c: seq<string>, d: seq<string>)
    ensures a <= a + b + c + d
  {
  }

  // ---- What is read back ----

  /** r is the only accepted proposal that has to do with its symbol. */
  ghost predicate Unrivalled(rs: seq<Reviewed>, r: Reviewed) {
    forall q :: q in rs && q.proposal != r.proposal ==>
      q.proposal.config != r.proposal.config && PreviousChoice(q.proposal) != Some(r.proposal.config)
  }

  /** Nothing to be trimmed: no blank and no quote at an edge, and no line break. */
  predicate IsPlainValue(v: string) { CleanEdges(v, IsSpace) && CleanEdges(v, IsQuote) && NoBreak(v) }

  /** What is said about the symbol of p, by the proposed value: n is an unset and no assignment;
      anything else an assignment and no unset, of the value itself when that is y or m or has
      nothing to be trimmed, and of y when it is the name of the option itself. */
  predicate SaysProposed(p: Proposal, unset: bool, value: Option<string>) {
    var x, v := p.config, p.proposedValue;
    && (v == "n" ==> unset && value == None)
    && (v != "n" ==> !unset && value.Some?)
    && (v == "y" || v == "m" ==> value == Some(v))
    && (v != "n" && IsPlainValue(v) && x != "CONFIG_" + v ==> value == Some(v))
    && (v != "n" && v != "m" && x == "CONFIG_" + Strip(v) ==> value == Some("y"))
  }

  lemma ProposedMeaning(p: Proposal)
    requires IsSymbol(p.config)
    ensures SaysProposed(p, p.config in Unsets(p), AssignedValue(p))
  {
    var v := p.proposedValue;
    assert p.config == "CONFIG_" + p.config[7..];
    if IsPlainValue(v) {
      TrimIdentity(v, IsSpace);
      TrimIdentity(v, IsQuote);
      FirstLineOfNoBreak(v);
    }
  }

  lemma UnsetsOwnOrPrevious(p: Proposal, x: string)
    requires x in Unsets(p)
    ensures x == p.config || PreviousChoice(p) == Some(x)
  {
  }

  lemma OneSays(rs: seq<Reviewed>, r: Reviewed)
    requires r in rs && Unrivalled(rs, r)
    ensures
      var x, all := r.proposal.config, AllAssigned(rs);
      && (x in AllUnsets(rs) <==> x in Unsets(r.proposal))
      && (if x in all then Some(all[x]) else None) == AssignedValue(r.proposal)
  {
    var x := r.proposal.config;
    UnsetMeaning(rs, x);
    AssignedMeaning(rs, x);
    forall q | q in rs && x in Unsets(q.proposal) ensures q.proposal == r.proposal {
      UnsetsOwnOrPrevious(q.proposal, x);
    }
  }

  lemma OrderUnrivalled(rs: ReviewSet, r: Reviewed)
    requires r in rs.accepted && r.decision == Accept && Unrivalled(rs.accepted, r)
    ensures r in InOrder(rs) && Unrivalled(InOrder(rs), r)
  {
    InOrderWithin(rs, r);
    forall q | q in InOrder(rs) ensures q in rs.accepted { InOrderWithin(rs, q); }
  }

  /** Where neither another accepted proposal nor a stray has a say about a symbol, the text read
      back says about it what is proposed. */
  lemma ProposedIsRead(h: Provenance, rs: ReviewSet, note: Reviewed -> string, r: Reviewed)
    requires Symbols(rs.accepted) && r in rs.accepted && r.decision == Accept && Unrivalled(rs.accepted, r)
    requires
      var strays := ParseLines(KfragStrays(h, rs, note));
      r.proposal.config !in strays.assignments && r.proposal.config !in strays.disables
    ensures
      var read := ParseLines(SplitLines(JoinLines(KfragLines(h, rs, note))));
      SaysProposed(r.proposal, r.proposal.config in read.disables, Assigned(read, r.proposal.config))
  {
    RoundTripAt(h, rs, note, r.proposal.config);
    OrderUnrivalled(rs, r);
    OneSays(InOrder(rs), r);
    ProposedMeaning(r.proposal);
  }
}
