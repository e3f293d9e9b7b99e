/** `merge_kfrag` and `validate_load_bearing` on texts. */
module Apply {
  import opened Option
  import opened Chars
  import opened Lines
  import opened ConfigLines
  import opened Order
  import opened Kfrag
  import opened KfragReads
  import opened Merge

  // ---- Fragments read from text ----

  /** What every fragment that has been read satisfies. */
  ghost predicate WellRead(p: ParsedKfrag) {
    && (forall x :: x in p.disables ==> IsSymbol(x))
    && (forall x :: x in p.assignments ==>
          IsSymbol(x) && NoBreak(p.assignments[x]) && CleanEdges(p.assignments[x], IsQuote))
  }

  lemma ReadLineWellRead(line: string)
    requires NoBreak(line)
    ensures WellRead(ReadLine(line))
  {
    var s := RStrip(line);
    TrimNoBreak(line, IsSpace);
    if s != "" && UnsetSymbol(s).None? && s[0] != '#' && SetParts(s).Some? {
      var raw := SetParts(s).value.1;
      assert NoBreak(raw);
      TrimNoBreak(raw, IsSpace);
      TrimNoBreak(Strip(raw), IsQuote);
      TrimIdentity(Strip(raw), IsQuote);
    }
  }

  lemma {:induction false} ParsedWellRead(ls: seq<string>)
    requires AllNoBreak(ls)
    ensures WellRead(ParseLines(ls))
  {
    if ls != [] {
      ParsedWellRead(ls[..|ls| - 1]);
      assert ls[|ls| - 1] in ls;
      ReadLineWellRead(ls[|ls| - 1]);
    }
  }

  /** The assignments `merge_kfrag` takes from a fragment text. */
  function FragOf(fragText: string): (frag: Assignments)
    ensures forall x :: x in frag ==> NoBreak(frag[x]) && CleanEdges(frag[x], IsQuote)
  {
    ParsedWellRead(SplitLines(fragText));
    FragValues(ParseLines(SplitLines(fragText)))
  }

  // ---- The report ----

  datatype MergeReport = MergeReport(
    overrides: seq<(string, string, string)>, noOps: seq<string>, fragmentOnly: seq<string>, baseOnlyCount: nat)

  /** What one base line adds to the report. */
  function Counted(r: MergeReport, line: string, frag: Assignments): MergeReport {
    match NormalizeValue(line)
    case None => r
    case Some((x, v)) =>
      if x !in frag then r.(baseOnlyCount := r.baseOnlyCount + 1)
      else if frag[x] == v then r.(noOps := r.noOps + [x])
      else r.(overrides := r.overrides + [(x, v, frag[x])])
  }

  function BaseReport(base: seq<string>, frag: Assignments): MergeReport {
    if base == [] then MergeReport([], [], [], 0)
    else Counted(BaseReport(base[..|base| - 1], frag), base[|base| - 1], frag)
  }

  function SettingCount(base: seq<string>): nat {
    if base == [] then 0
    else SettingCount(base[..|base| - 1]) + if NormalizeValue(base[|base| - 1]).Some? then 1 else 0
  }

  lemma {:induction false} SettingsAreCounted(base: seq<string>, frag: Assignments)
    ensures
      var r := BaseReport(base, frag);
      |r.overrides| + |r.noOps| + r.baseOnlyCount == SettingCount(base)
  {
    if base != [] { SettingsAreCounted(base[..|base| - 1], frag); }
  }

  /** o is a base value that the fragment replaces by another one. */
  ghost predicate Overrides(base: seq<string>, frag: Assignments, o: (string, string, string)) {
    exists l :: l in base && NormalizeValue(l) == Some((o.0, o.1)) && o.0 in frag && frag[o.0] == o.2 && o.2 != o.1
  }

  lemma {:induction false} OverridesExactly(base: seq<string>, frag: Assignments, o: (string, string, string))
    ensures o in BaseReport(base, frag).overrides <==> Overrides(base, frag, o)
  {
    if base != [] {
      OverridesExactly(base[..|base| - 1], frag, o);
      assert base == base[..|base| - 1] + [base[|base| - 1]];
    }
  }

  /** Every setting of the base is reported once, and an override names exactly a base
      value that the fragment replaces by another one. */
  lemma ReportAccountsForBase(base: seq<string>, frag: Assignments)
    ensures
      var r := BaseReport(base, frag);
      && |r.overrides| + |r.noOps| + r.baseOnlyCount == SettingCount(base)
      && (forall o :: o in r.overrides <==> Overrides(base, frag, o))
  {
    SettingsAreCounted(base, frag);
    forall o ensures o in BaseReport(base, frag).overrides <==> Overrides(base, frag, o) {
      OverridesExactly(base, frag, o);
    }
  }

  /** The settings reported as no change are those the base already has. */
  lemma {:induction false} NoOpsExactly(base: seq<string>, frag: Assignments, x: string)
    ensures x in BaseReport(base, frag).noOps <==>
      x in frag && exists l :: l in base && NormalizeValue(l) == Some((x, frag[x]))
  {
    if base != [] {
      NoOpsExactly(base[..|base| - 1], frag, x);
      assert base == base[..|base| - 1] + [base[|base| - 1]];
    }
  }

  /** The fragment's symbols that some line sets. */
  ghost function Seen(ls: seq<string>, frag: Assignments): set<string> {
    set x | x in frag && Value(ls, x).Some?
  }

  lemma BaseStep(base: seq<string>, i: nat, frag: Assignments)
    requires i < |base|
    ensures MergeBase(base[..i + 1], frag) == MergeBase(base[..i], frag) + [MergeLine(base[i], frag)]
    ensures BaseReport(base[..i + 1], frag) == Counted(BaseReport(base[..i], frag), base[i], frag)
    ensures
      var nv := NormalizeValue(base[i]);
      Seen(base[..i + 1], frag) == Seen(base[..i], frag) + if nv.Some? && nv.value.0 in frag then {nv.value.0} else {}
  {
    assert base[..i + 1][..i] == base[..i];
    var nv := NormalizeValue(base[i]);
    forall x
      ensures Value(base[..i + 1], x) == if nv.Some? && nv.value.0 == x then Some(nv.value.1) else Value(base[..i], x)
    {
    }
  }

  /** The first loop of `merge_kfrag`, over the base. */
  method MergeBaseLines(base: seq<string>, frag: Assignments)
      returns (outLines: seq<string>, report: MergeReport, seenInBase: set<string>)
    ensures outLines == MergeBase(base, frag) && report == BaseReport(base, frag)
    ensures frag.Keys - seenInBase == Unseen(base, frag)
  {
    outLines, seenInBase := [], {};
    report := MergeReport([], [], [], 0);
    for i := 0 to |base|
      invariant outLines == MergeBase(base[..i], frag)
      invariant report == BaseReport(base[..i], frag)
      invariant seenInBase == Seen(base[..i], frag)
    {
      BaseStep(base, i, frag);
      var nv := NormalizeValue(base[i]);
      if nv.None? {
        outLines := outLines + [base[i]];
        continue;
      }
      var (x, baseVal) := nv.value;
      if x in frag {
        if frag[x] == baseVal {
          report := report.(noOps := report.noOps + [x]);
          outLines := outLines + [base[i]];
        } else {
          report := report.(overrides := report.overrides + [(x, baseVal, frag[x])]);
          outLines := outLines + [Merge.FormatAssignment(x, frag[x])];
        }
        seenInBase := seenInBase + {x};
      } else {
        report := report.(baseOnlyCount := report.baseOnlyCount + 1);
        outLines := outLines + [base[i]];
      }
    }
    assert base[..|base|] == base;
  }

  /** The second loop, over the symbols the base does not set. */
  method AppendLines(lines: seq<string>, xs: seq<string>, frag: Assignments) returns (outLines: seq<string>)
    requires forall x :: x in xs ==> x in frag
    ensures outLines == lines + Appendix(xs, frag)
  {
    outLines := lines;
    if xs != [] {
      outLines := outLines + ["", Banner()];
      for k := 0 to |xs|
        invariant outLines == lines + ["", Banner()] + FormatAll(xs[..k], frag)
      {
        assert xs[..k + 1][..k] == xs[..k];
        assert xs[k] in xs;
        outLines := outLines + [Merge.FormatAssignment(xs[k], frag[xs[k]])];
      }
      assert xs[..|xs|] == xs;
      Assoc(lines, ["", Banner()], FormatAll(xs, frag));
    }
  }

  /** `merge_kfrag`. */
  method MergeKfrag(baseText: string, fragText: string) returns (text: string, report: MergeReport)
    ensures IsAppended(report.fragmentOnly, SplitLines(baseText), FragOf(fragText))
    ensures text == JoinLines(Merged(SplitLines(baseText), FragOf(fragText), report.fragmentOnly)) + "\n"
    ensures report == BaseReport(SplitLines(baseText), FragOf(fragText)).(fragmentOnly := report.fragmentOnly)
  {
    var parsed := ParseKfrag(fragText);
    ParsedWellRead(SplitLines(fragText));
    var frag: Assignments := FragValues(parsed);
    var base := SplitLines(baseText);
    var outLines, baseReport, seenInBase := MergeBaseLines(base, frag);
    LexLeqIsTotalOrder();
    var appended := Sort(frag.Keys - seenInBase, LexLeq);
    report := baseReport.(fragmentOnly := appended);
    outLines := AppendLines(outLines, appended, frag);
    text := JoinLines(outLines) + "\n";
  }

  // ---- Idempotence on texts ----

  lemma FormatNoBreak(x: string, v: string)
    requires IsSymbol(x) && NoBreak(v)
    ensures NoBreak(Merge.FormatAssignment(x, v))
  {
    assert NoBreak(UNSET);
  }

  lemma {:induction false} MergeBaseNoBreak(base: seq<string>, frag: Assignments)
    requires AllNoBreak(base) && forall x :: x in frag ==> NoBreak(frag[x])
    ensures AllNoBreak(MergeBase(base, frag))
  {
    if base != [] {
      MergeBaseNoBreak(base[..|base| - 1], frag);
      var l := base[|base| - 1];
      assert l in base;
      if NormalizeValue(l).Some? && NormalizeValue(l).value.0 in frag {
        FormatNoBreak(NormalizeValue(l).value.0, frag[NormalizeValue(l).value.0]);
      }
    }
  }

  lemma {:induction false} FormatAllNoBreak(xs: seq<string>, frag: Assignments)
    requires forall x :: x in xs ==> x in frag && NoBreak(frag[x])
    ensures AllNoBreak(FormatAll(xs, frag))
  {
    if xs != [] {
      FormatAllNoBreak(xs[..|xs| - 1], frag);
      FormatNoBreak(xs[|xs| - 1], frag[xs[|xs| - 1]]);
    }
  }

  lemma MergedNoBreak(base: seq<string>, frag: Assignments, xs: seq<string>)
    requires AllNoBreak(base) && forall x :: x in frag ==> NoBreak(frag[x])
    requires forall x :: x in xs ==> x in frag
    ensures AllNoBreak(Merged(base, frag, xs))
  {
    MergeBaseNoBreak(base, frag);
    FormatAllNoBreak(xs, frag);
    assert NoBreak("autokernel: appended from kfrag");
    assert NoBreak(Banner());
  }

  /** Merging the same fragment into the merged text returns the identical text. */
  lemma MergeTextIdempotent(base: seq<string>, frag: Assignments, xs: seq<string>)
    requires AllNoBreak(base) && IsAppended(xs, base, frag) && forall x :: x in frag ==> NoBreak(frag[x])
    ensures
      var text := JoinLines(Merged(base, frag, xs)) + "\n";
      var again := SplitLines(text);
      IsAppended([], again, frag) && JoinLines(Merged(again, frag, [])) + "\n" == text
  {
    var out := Merged(base, frag, xs);
    MergedNoBreak(base, frag, xs);
    MergeIdempotent(base, frag, xs);
    if out != [] {
      SplitJoin(out);
    } else {
      EmptyTextAgain(frag);
    }
  }

  /** The empty base and fragment: the text is one line break, and stays so. */
  lemma EmptyTextAgain(frag: Assignments)
    requires IsAppended([], [], frag)
    ensures SplitLines("" + "\n") == [""] && IsAppended([], [""], frag) && Merged([""], frag, []) == [""]
  {
    assert "" + "\n" == "\n";
    assert "\n"[1..] == "" && "\n"[..0] == "";
    BannerSetsNothing();
    assert [""][..0] == [];
    assert Unseen([""], frag) == Unseen([], frag);
  }

  // ---- Validation ----

  datatype Finding = Finding(symbol: string, actualValue: string, reason: string)

  predicate IsOn(v: Option<string>) { v == Some("y") || v == Some("m") }

  /** The same, said of the set of values. */
  ghost predicate On(v: Option<string>) { v.Some? && v.value in {"y", "m"} }

  /** Whether the merge has switched off a symbol that the base had on; without a base,
      whether the symbol is off. */
  predicate Downgraded(merged: map<string, string>, base: Option<map<string, string>>, x: string) {
    !IsOn(Lookup(merged, x)) && (base.Some? ==> IsOn(Lookup(base.value, x)))
  }

  function Findings(symbols: seq<string>, reasons: map<string, string>, merged: map<string, string>, base: Option<map<string, string>>): seq<Finding>
    requires forall x :: x in symbols ==> x in reasons
  {
    if symbols == [] then []
    else
      var rest, x := Findings(symbols[..|symbols| - 1], reasons, merged, base), symbols[|symbols| - 1];
      if Downgraded(merged, base, x)
      then rest + [Finding(x, if x in merged then merged[x] else "missing", reasons[x])]
      else rest
  }

  /** The base a text stands for; an empty text counts as none. */
  function BaseOf(baseText: Option<string>): Option<map<string, string>> {
    if baseText.Some? && baseText.value != "" then Some(Dict(SplitLines(baseText.value))) else None
  }

  /** `validate_load_bearing`; `symbols` lists the keys of `reasons` in their order. */
  method ValidateLoadBearing(mergedText: string, symbols: seq<string>, reasons: map<string, string>, baseText: Option<string>)
      returns (findings: seq<Finding>)
    requires forall x :: x in symbols ==> x in reasons
    ensures findings == Findings(symbols, reasons, Dict(SplitLines(mergedText)), BaseOf(baseText))
  {
    var merged := ConfigTextToDict(mergedText);
    var base: Option<map<string, string>> := None;
    if baseText.Some? && baseText.value != "" {
      var d := ConfigTextToDict(baseText.value);
      base := Some(d);
    }
    findings := [];
    for i := 0 to |symbols|
      invariant findings == Findings(symbols[..i], reasons, merged, base)
    {
      assert symbols[..i + 1][..i] == symbols[..i];
      var x := symbols[i];
      if IsOn(Lookup(merged, x)) {
        continue;
      }
      if base.Some? && !IsOn(Lookup(base.value, x)) {
        continue;
      }
      findings := findings + [Finding(x, if x in merged then merged[x] else "missing", reasons[x])];
    }
    assert symbols[..|symbols|] == symbols;
  }

  ghost predicate Reported(findings: seq<Finding>, x: string) { exists f :: f in findings && f.symbol == x }

  lemma BaseOfText(baseText: string)
    ensures BaseOf(Some(baseText)) == if SplitLines(baseText) == [] then None else Some(Dict(SplitLines(baseText)))
  {
  }

  /** Exactly the downgraded load-bearing symbols are reported. */
  lemma {:induction false} FindingsExact(symbols: seq<string>, reasons: map<string, string>, merged: map<string, string>, base: Option<map<string, string>>, x: string)
    requires forall y :: y in symbols ==> y in reasons
    ensures Reported(Findings(symbols, reasons, merged, base), x) <==> x in symbols && Downgraded(merged, base, x)
  {
    if symbols != [] {
      var rest, y := symbols[..|symbols| - 1], symbols[|symbols| - 1];
      FindingsExact(rest, reasons, merged, base, x);
      assert symbols == rest + [y];
      if Downgraded(merged, base, y) {
        var fs := Findings(symbols, reasons, merged, base);
        assert fs[|fs| - 1] in fs && fs[|fs| - 1].symbol == y;
        assert forall f :: f in Findings(rest, reasons, merged, base) ==> f in fs;
      }
    }
  }

  lemma DowngradedIs(mergedText: string, baseText: string, x: string)
    ensures
      var merged, base := SplitLines(mergedText), SplitLines(baseText);
      Downgraded(Dict(merged), BaseOf(Some(baseText)), x) <==> !On(Value(merged, x)) && (base == [] || On(Value(base, x)))
  {
    BaseOfText(baseText);
    DictLookup(SplitLines(mergedText), x);
    DictLookup(SplitLines(baseText), x);
  }

  /** A symbol in the list is reported exactly when it is not on in the merged text, and was in
      the base (or the base is empty).  So a configuration for which nothing is reported keeps
      every listed symbol on that was on, for any base and any merged text. */
  lemma ReportedExactly(mergedText: string, symbols: seq<string>, reasons: map<string, string>, baseText: string, x: string)
    requires forall y :: y in symbols ==> y in reasons
    ensures
      var merged, base := SplitLines(mergedText), SplitLines(baseText);
      var findings := Findings(symbols, reasons, Dict(merged), BaseOf(Some(baseText)));
      && (Reported(findings, x) <==>
            x in symbols && !On(Value(merged, x)) && (base == [] || On(Value(base, x))))
      && (findings == [] && x in symbols && On(Value(base, x)) ==> On(Value(merged, x)))
  {
    DowngradedIs(mergedText, baseText, x);
    FindingsExact(symbols, reasons, Dict(SplitLines(mergedText)), BaseOf(Some(baseText)), x);
  }

  /** A finding tells the value the symbol ends up with, or that it is missing, and why it is
      load-bearing. */
  lemma {:induction false} FindingsTell(symbols: seq<string>, reasons: map<string, string>, merged: map<string, string>,
                                       base: Option<map<string, string>>, f: Finding)
    requires (forall y :: y in symbols ==> y in reasons) && f in Findings(symbols, reasons, merged, base)
    ensures f.symbol in symbols && f.reason == reasons[f.symbol]
    ensures f.actualValue == if f.symbol in merged.Keys then merged[f.symbol] else "missing"
  {
    var rest, x := symbols[..|symbols| - 1], symbols[|symbols| - 1];
    assert symbols == rest + [x];
    if f in Findings(rest, reasons, merged, base) { FindingsTell(rest, reasons, merged, base, f); }
  }

  // ---- The overlay on texts ----

  /** A value that is written bare and loses its trailing blanks when it is read. */
  predicate LosesBlanks(v: string) { "0x" <= v && IsSpace(v[|v| - 1]) }

  /** For the values of a fragment that has been read, quotes are no concern: the merge is the
      overlay exactly when no value that loses blanks is new to the base. */
  lemma TextMergeIsOverlay(base: seq<string>, fragText: string, xs: seq<string>)
    requires IsAppended(xs, base, FragOf(fragText))
    ensures
      var frag := FragOf(fragText);
      Dict(Merged(base, frag, xs)) == Dict(base) + frag
      <==> forall x :: x in frag && LosesBlanks(frag[x]) ==> Value(base, x) == Some(frag[x])
  {
    var frag := FragOf(fragText);
    MergeIsOverlay(base, frag, xs);
    forall x ensures Kept(base, frag, x) <==> (x in frag && LosesBlanks(frag[x]) ==> Value(base, x) == Some(frag[x])) {
    }
  }

  lemma QuotedValue(v: string)
    requires CleanEdges(v, IsQuote)
    ensures ReadValue(RStrip(['"'] + v + ['"'])) == v
  {
    var raw := ['"'] + v + ['"'];
    TrimIdentity(raw, IsSpace);
    StripStarted(raw);
    TrimQuoted(v);
    TrimIdentity(v, IsQuote);
  }

  lemma FragOfLine(text: string, x: string, v: string)
    requires NoBreak(text) && text != "" && ReadLine(text) == EMPTY.(assignments := map[x := v])
    ensures FragOf(text) == map[x := v]
  {
    OneLine(text);
    ParseOne(text);
  }

  lemma ReadQuoted(x: string, v: string)
    requires IsSymbol(x) && NoBreak(v) && CleanEdges(v, IsQuote)
    ensures FragOf(SetLine(x, ['"'] + v + ['"'])) == map[x := v]
  {
    var raw := ['"'] + v + ['"'];
    ReadSet(x, raw);
    QuotedValue(v);
    LineFormsNoBreak(x, raw);
    FragOfLine(SetLine(x, raw), x, v);
  }

  lemma OneLine(text: string)
    requires NoBreak(text) && text != ""
    ensures SplitLines(text) == [text]
  {
    assert BreakPos(text) == |text| && text[..|text|] == text;
  }

  /** A quoted fragment value that looks hexadecimal and ends in a blank is read with its blank,
      written bare by the merge, and read again without it. */
  lemma QuotedHexLosesBlanks(x: string, v: string, xs: seq<string>)
    requires IsSymbol(x) && NoBreak(v) && LosesBlanks(v)
    requires IsAppended(xs, [], FragOf(SetLine(x, ['"'] + v + ['"'])))
    ensures
      var frag := FragOf(SetLine(x, ['"'] + v + ['"']));
      && frag == map[x := v]
      && Value(Merged([], frag, xs), x) == Some(Stored(v)) != Some(v)
      && Dict(Merged([], frag, xs)) != Dict([]) + frag
  {
    assert "0x"[0] == '0';
    ReadQuoted(x, v);
    var frag: Assignments := map[x := v];
    MergedValue([], frag, xs, x);
    StoredExactly(v);
    DictLookup(Merged([], frag, xs), x);
  }

  lemma InstanceLosesBlanks()
    ensures IsSymbol("CONFIG_X") && NoBreak("0x1 ") && LosesBlanks("0x1 ")
  {
    assert "0x1 "[3] == ' ' && "0x1 "[..2] == "0x";
  }

  /** For instance CONFIG_X="0x1 ". */
  lemma QuotedHexInstance(xs: seq<string>)
    requires IsAppended(xs, [], FragOf(SetLine("CONFIG_X", ['"'] + "0x1 " + ['"'])))
    ensures
      var frag := FragOf(SetLine("CONFIG_X", ['"'] + "0x1 " + ['"']));
      Dict(Merged([], frag, xs)) != Dict([]) + frag
  {
    InstanceLosesBlanks();
    QuotedHexLosesBlanks("CONFIG_X", "0x1 ", xs);
  }
}
