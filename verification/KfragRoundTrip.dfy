/** The round trip: what `parse_kfrag` reads back from the text `write_kfrag` writes. */
module KfragRoundTrip {
  import opened Option
  import opened Chars
  import opened Lines
  import opened ConfigLines
  import opened Models
  import opened Kfrag
  import opened KfragReads

  // ---- The whole file ----

  lemma SectionSettings(title: string, rs: seq<Reviewed>, note: Reviewed -> string)
    requires IsComment(title, true) && Symbols(rs)
    ensures Settings(ParseLines(Firsts(Section(title, rs, note)))) == (AllUnsets(rs), AllAssigned(rs))
  {
    if rs != [] {
      ReadEntries(rs, note);
      ReadFirst(title);
      FirstsAppend([title], Entries(rs, note));
      ParseAppend(Firsts([title]), Firsts(Entries(rs, note)));
      CombineSettings(ReadLine(FirstLine(title)), ParseLines(Firsts(Entries(rs, note))));
    }
  }

  lemma {:induction false} EffectsAppend(a: seq<Reviewed>, b: seq<Reviewed>)
    ensures AllUnsets(a + b) == AllUnsets(a) + AllUnsets(b)
    ensures AllAssigned(a + b) == AllAssigned(a) + AllAssigned(b)
    decreases |b|
  {
    if b == [] {
      assert a + b == a;
    } else {
      var b', r := b[..|b| - 1], b[|b| - 1];
      EffectsAppend(a, b');
      assert (a + b)[..|a + b| - 1] == a + b' && (a + b)[|a + b| - 1] == r;
      Assoc(AllUnsets(a), AllUnsets(b'), Unsets(r.proposal));
      var A, B, x := AllAssigned(a), AllAssigned(b'), r.proposal.config;
      assert AssignedValue(r.proposal).Some? ==>
        (A + B)[x := AssignedValue(r.proposal).value] == A + B[x := AssignedValue(r.proposal).value];
    }
  }

  /** One more section: the settings read so far are extended by its effects. */
  lemma AddSection(lines: seq<string>, before: seq<Reviewed>, title: string, rs: seq<Reviewed>, note: Reviewed -> string)
    requires Settings(ParseLines(Firsts(lines))) == (AllUnsets(before), AllAssigned(before))
    requires IsComment(title, true) && Symbols(rs)
    ensures Settings(ParseLines(Firsts(lines + Section(title, rs, note))))
         == (AllUnsets(before + rs), AllAssigned(before + rs))
  {
    FirstsAppend(lines, Section(title, rs, note));
    ParseAppend(Firsts(lines), Firsts(Section(title, rs, note)));
    SectionSettings(title, rs, note);
    EffectsAppend(before, rs);
  }

  lemma SelectedSymbols(rs: ReviewSet)
    requires Symbols(rs.accepted)
    ensures Symbols(Select(rs.accepted, Enable)) && Symbols(Select(rs.accepted, Disable))
    ensures Symbols(Select(rs.accepted, Demote)) && Symbols(Select(rs.accepted, Other))
  {
    SelectWithin(rs.accepted, Enable); SelectWithin(rs.accepted, Disable);
    SelectWithin(rs.accepted, Demote); SelectWithin(rs.accepted, Other);
  }

  /** The first lines of what is written give exactly the effects of the accepted proposals, in
      the order enables, disables, demotions, others. */
  lemma LinesRoundTrip(h: Provenance, rs: ReviewSet, note: Reviewed -> string)
    requires Symbols(rs.accepted)
    ensures Settings(ParseLines(Firsts(KfragLines(h, rs, note)))) == (AllUnsets(InOrder(rs)), AllAssigned(InOrder(rs)))
  {
    var E, D, M, O := Select(rs.accepted, Enable), Select(rs.accepted, Disable), Select(rs.accepted, Demote), Select(rs.accepted, Other);
    var top := HeaderLines(h, rs) + [""];
    HeaderSetsNothing(h, rs);
    TitlesAreComments();
    SelectedSymbols(rs);
    assert [] + E == E;
    AddSection(top, [], EnablesTitle(), E, note);
    var l1 := top + Section(EnablesTitle(), E, note);
    AddSection(l1, E, DisablesTitle(), D, note);
    var l2 := l1 + Section(DisablesTitle(), D, note);
    AddSection(l2, E + D, DemotionsTitle(), M, note);
    AddSection(l2 + Section(DemotionsTitle(), M, note), E + D + M, OthersTitle(), O, note);
  }

  // ---- Lines and text ----

  /** A list of lines that ends in an empty one. */
  predicate EndsEmpty(ls: seq<string>) { ls != [] && ls[|ls| - 1] == "" }

  lemma SectionEndsEmpty(lines: seq<string>, title: string, rs: seq<Reviewed>, note: Reviewed -> string)
    requires EndsEmpty(lines)
    ensures EndsEmpty(lines + Section(title, rs, note))
  {
    if rs != [] { assert EndsEmpty(Entries(rs, note)); }
  }

  lemma KfragEndsEmpty(h: Provenance, rs: ReviewSet, note: Reviewed -> string)
    ensures EndsEmpty(KfragLines(h, rs, note))
  {
    var top := HeaderLines(h, rs) + [""];
    var E, D, M, O := Select(rs.accepted, Enable), Select(rs.accepted, Disable), Select(rs.accepted, Demote), Select(rs.accepted, Other);
    SectionEndsEmpty(top, EnablesTitle(), E, note);
    var l1 := top + Section(EnablesTitle(), E, note);
    SectionEndsEmpty(l1, DisablesTitle(), D, note);
    var l2 := l1 + Section(DisablesTitle(), D, note);
    SectionEndsEmpty(l2, DemotionsTitle(), M, note);
    SectionEndsEmpty(l2 + Section(DemotionsTitle(), M, note), OthersTitle(), O, note);
  }

  /** Reading a joined list of lines that ends in an empty one loses only that one. */
  lemma ReadJoined(ls: seq<string>)
    requires EndsEmpty(ls) && AllNoBreak(ls)
    ensures ParseLines(SplitLines(JoinLines(ls))) == ParseLines(ls)
  {
    var init := ls[..|ls| - 1];
    assert ls == init + [""];
    CombineOne(ParseLines(init), "", "");
    if init != [] {
      JoinTrailingEmpty(init);
      SplitJoin(init);
    }
  }

  /** What the reader sees of the text: every line with its breaks taken as such. */
  lemma TextIsFlat(h: Provenance, rs: ReviewSet, note: Reviewed -> string)
    ensures ParseLines(SplitLines(JoinLines(KfragLines(h, rs, note)))) == ParseLines(Flat(KfragLines(h, rs, note)))
  {
    var ls := KfragLines(h, rs, note);
    KfragEndsEmpty(h, rs, note);
    JoinFlat(ls);
    FirstLineOfNoBreak("");
    ReadJoined(Flat(ls));
  }

  // ---- Strays ----

  /** The unsets of all, of its first parts and of its strays. */
  ghost predicate UnsetsAgree(all: seq<string>, firsts: seq<string>, strays: seq<string>) {
    && |all| == |firsts| + |strays|
    && (strays == [] ==> all == firsts)
    && (forall x :: x in all <==> x in firsts || x in strays)
  }

  /** First parts and strays, read separately, against both read as they stand. */
  lemma {:induction false} FlatDisables(ls: seq<string>)
    ensures UnsetsAgree(ParseLines(Flat(ls)).disables, ParseLines(Firsts(ls)).disables, ParseLines(Strays(ls)).disables)
  {
    if ls != [] {
      var front, l := ls[..|ls| - 1], ls[|ls| - 1];
      FlatDisables(front);
      assert Pieces(l) == [FirstLine(l)] + AfterBreak(l);
      ParseAppend(Flat(front), Pieces(l));
      ParseAppend([FirstLine(l)], AfterBreak(l));
      ParseAppend(Firsts(front), [FirstLine(l)]);
      ParseAppend(Strays(front), AfterBreak(l));
      UnsetsJoin(ParseLines(Flat(front)).disables, ParseLines(Firsts(front)).disables, ParseLines(Strays(front)).disables,
                 ParseLines([FirstLine(l)]).disables, ParseLines(AfterBreak(l)).disables);
    }
  }

  lemma UnsetsJoin(all: seq<string>, firsts: seq<string>, strays: seq<string>, f: seq<string>, r: seq<string>)
    requires UnsetsAgree(all, firsts, strays)
    ensures UnsetsAgree(all + (f + r), firsts + f, strays + r)
  {
    if strays + r == [] { assert f + r == f; }
    forall x ensures x in all + (f + r) <==> x in firsts + f || x in strays + r {
      assert x in all <==> x in firsts || x in strays;
    }
  }

  function Assigned(p: ParsedKfrag, x: string): Option<string> {
    if x in p.assignments then Some(p.assignments[x]) else None
  }

  /** The later value, if there is one. */
  function Over(a: Option<string>, b: Option<string>): Option<string> { if b.Some? then b else a }

  lemma AssignedCombine(p: ParsedKfrag, q: ParsedKfrag, x: string)
    ensures Assigned(Combine(p, q), x) == Over(Assigned(p, x), Assigned(q, x))
  {
  }

  /** The value of all, when only one of its parts has one. */
  predicate PartsAgree(all: Option<string>, first: Option<string>, stray: Option<string>) {
    && (stray.None? ==> all == first)
    && (first.None? ==> all == stray)
    && (all.None? ==> first.None? && stray.None?)
  }

  lemma {:induction false} FlatAssigned(ls: seq<string>, x: string)
    ensures PartsAgree(Assigned(ParseLines(Flat(ls)), x), Assigned(ParseLines(Firsts(ls)), x), Assigned(ParseLines(Strays(ls)), x))
  {
    if ls != [] {
      var front, l := ls[..|ls| - 1], ls[|ls| - 1];
      FlatAssigned(front, x);
      AssignedParts(Flat(front), Firsts(front), Strays(front), l, x);
    }
  }

  /** One more line: its first part and what follows its first break. */
  lemma AssignedParts(all: seq<string>, firsts: seq<string>, strays: seq<string>, l: string, x: string)
    requires PartsAgree(Assigned(ParseLines(all), x), Assigned(ParseLines(firsts), x), Assigned(ParseLines(strays), x))
    ensures PartsAgree(Assigned(ParseLines(all + Pieces(l)), x), Assigned(ParseLines(firsts + [FirstLine(l)]), x),
                       Assigned(ParseLines(strays + AfterBreak(l)), x))
  {
    assert Pieces(l) == [FirstLine(l)] + AfterBreak(l);
    ParseAppend(all, Pieces(l));
    ParseAppend([FirstLine(l)], AfterBreak(l));
    ParseAppend(firsts, [FirstLine(l)]);
    ParseAppend(strays, AfterBreak(l));
    var f, r := ParseLines([FirstLine(l)]), ParseLines(AfterBreak(l));
    AssignedCombine(f, r, x);
    AssignedCombine(ParseLines(all), Combine(f, r), x);
    AssignedCombine(ParseLines(firsts), f, x);
    AssignedCombine(ParseLines(strays), r, x);
  }

  /** The strays of a fragment: the lines after a break of a header text, of an accepted
      rationale, or of a value. */
  function KfragStrays(h: Provenance, rs: ReviewSet, note: Reviewed -> string): seq<string> {
    Strays(KfragLines(h, rs, note))
  }

  lemma PayloadStrays(p: Proposal)
    requires IsSymbol(p.config)
    ensures Strays(Payload(p)) == if KindOf(p).Other? then AfterBreak(RightHandSide(p.config, p.proposedValue)) else []
  {
    var x := p.config;
    match KindOf(p)
    case Enable => LineFormsNoBreak(x, "y"); NoStrays(Payload(p));
    case Disable => LineFormsNoBreak(x, ""); NoStrays(Payload(p));
    case Demote => LineFormsNoBreak(x, "m"); NoStrays(Payload(p));
    case Other =>
      var raw := RightHandSide(x, p.proposedValue);
      FirstLineOfSet(x, raw);
      FirstsOne(SetLine(x, raw));
      if PreviousChoice(p).Some? {
        var u := UnsetLine(PreviousChoice(p).value);
        LineFormsNoBreak(PreviousChoice(p).value, "");
        NoStrays([u]);
        StraysAppend([u], [SetLine(x, raw)]);
        assert [] + AfterBreak(raw) == AfterBreak(raw);
      } else {
        assert [] + [SetLine(x, raw)] == [SetLine(x, raw)];
      }
  }

  /** What follows a break of the rationale of r, and of its value. */
  function StraysOf(r: Reviewed, note: Reviewed -> string): seq<string> {
    AfterBreak(note(r)) +
    if KindOf(r.proposal).Other? then AfterBreak(RightHandSide(r.proposal.config, r.proposal.proposedValue)) else []
  }

  function AllStrays(rs: seq<Reviewed>, note: Reviewed -> string): seq<string> {
    if rs == [] then [] else AllStrays(rs[..|rs| - 1], note) + StraysOf(rs[|rs| - 1], note)
  }

  lemma {:induction false} AllStraysAppend(a: seq<Reviewed>, b: seq<Reviewed>, note: Reviewed -> string)
    ensures AllStrays(a + b, note) == AllStrays(a, note) + AllStrays(b, note)
    decreases |b|
  {
    if b == [] {
      assert a + b == a;
    } else {
      assert (a + b)[..|a + b| - 1] == a + b[..|b| - 1];
      AllStraysAppend(a, b[..|b| - 1], note);
      AssocLines(AllStrays(a, note), AllStrays(b[..|b| - 1], note), StraysOf(b[|b| - 1], note));
    }
  }

  lemma EntryStrays(r: Reviewed, note: Reviewed -> string)
    requires IsSymbol(r.proposal.config)
    ensures Strays(Entry(r, note)) == StraysOf(r, note)
  {
    var rationale, payload := RationaleLine(r.proposal.config, note(r)), Payload(r.proposal);
    RationaleParts(r.proposal.config, note(r));
    FirstsOne(rationale);
    PayloadStrays(r.proposal);
    FirstLineOfNoBreak("");
    FirstsOne("");
    StraysAppend([rationale], payload);
    StraysAppend([rationale] + payload, [""]);
  }

  lemma {:induction false} EntriesStrays(rs: seq<Reviewed>, note: Reviewed -> string)
    requires Symbols(rs)
    ensures Strays(Entries(rs, note)) == AllStrays(rs, note)
  {
    if rs != [] {
      EntriesStrays(rs[..|rs| - 1], note);
      EntryStrays(rs[|rs| - 1], note);
      StraysAppend(Entries(rs[..|rs| - 1], note), Entry(rs[|rs| - 1], note));
    }
  }

  lemma TitleStrays(title: string, ls: seq<string>)
    requires NoBreak(title)
    ensures Strays([title] + ls) == Strays(ls)
  {
    FirstLineOfNoBreak(title);
    FirstsOne(title);
    StraysAppend([title], ls);
  }

  lemma SectionStrays(lines: seq<string>, title: string, rs: seq<Reviewed>, note: Reviewed -> string)
    requires NoBreak(title) && Symbols(rs)
    ensures Strays(lines + Section(title, rs, note)) == Strays(lines) + AllStrays(rs, note)
  {
    StraysAppend(lines, Section(title, rs, note));
    if rs != [] {
      EntriesStrays(rs, note);
      TitleStrays(title, Entries(rs, note));
    }
  }

  lemma TitlesNoBreak()
    ensures NoBreak(EnablesTitle()) && NoBreak(DisablesTitle()) && NoBreak(DemotionsTitle()) && NoBreak(OthersTitle())
  {
    TitlesAreComments();
  }

  lemma SectionsStrays(top: seq<string>, E: seq<Reviewed>, D: seq<Reviewed>, M: seq<Reviewed>, O: seq<Reviewed>,
                       note: Reviewed -> string)
    requires Symbols(E) && Symbols(D) && Symbols(M) && Symbols(O)
    ensures Strays(top + Section(EnablesTitle(), E, note) + Section(DisablesTitle(), D, note)
                   + Section(DemotionsTitle(), M, note) + Section(OthersTitle(), O, note))
         == Strays(top) + AllStrays(E, note) + AllStrays(D, note) + AllStrays(M, note) + AllStrays(O, note)
  {
    TitlesNoBreak();
    SectionStrays(top, EnablesTitle(), E, note);
    var l1 := top + Section(EnablesTitle(), E, note);
    SectionStrays(l1, DisablesTitle(), D, note);
    var l2 := l1 + Section(DisablesTitle(), D, note);
    SectionStrays(l2, DemotionsTitle(), M, note);
    SectionStrays(l2 + Section(DemotionsTitle(), M, note), OthersTitle(), O, note);
  }

  lemma AllStraysFour(header: seq<string>, E: seq<Reviewed>, D: seq<Reviewed>, M: seq<Reviewed>, O: seq<Reviewed>,
                      note: Reviewed -> string)
    ensures header + AllStrays(E, note) + AllStrays(D, note) + AllStrays(M, note) + AllStrays(O, note)
         == header + AllStrays(E + D + M + O, note)
  {
    AllStraysAppend(E, D, note);
    AllStraysAppend(E + D, M, note);
    AllStraysAppend(E + D + M, O, note);
    AssocLines(header, AllStrays(E, note), AllStrays(D, note));
    AssocLines(header, AllStrays(E + D, note), AllStrays(M, note));
    AssocLines(header, AllStrays(E + D + M, note), AllStrays(O, note));
  }

  lemma EmptyEndStrays(ls: seq<string>)
    ensures Strays(ls + [""]) == Strays(ls)
  {
    FirstLineOfNoBreak("");
    FirstsOne("");
    StraysAppend(ls, [""]);
  }

  /** The strays in the order of the text: those of the header, then those of each accepted
      proposal. */
  lemma StraySources(h: Provenance, rs: ReviewSet, note: Reviewed -> string)
    requires Symbols(rs.accepted)
    ensures KfragStrays(h, rs, note) == Strays(HeaderLines(h, rs)) + AllStrays(InOrder(rs), note)
  {
    var E, D, M, O := Select(rs.accepted, Enable), Select(rs.accepted, Disable), Select(rs.accepted, Demote), Select(rs.accepted, Other);
    SelectedSymbols(rs);
    EmptyEndStrays(HeaderLines(h, rs));
    SectionsStrays(HeaderLines(h, rs) + [""], E, D, M, O, note);
    AllStraysFour(Strays(HeaderLines(h, rs)), E, D, M, O, note);
  }

  /** The fragment round trip, text to text, for any texts in it.  The unsets come back exactly
      when no stray reads as one; and when no stray reads as a setting, the assignments do too. */
  lemma RoundTrip(h: Provenance, rs: ReviewSet, note: Reviewed -> string)
    requires Symbols(rs.accepted)
    ensures
      var read := ParseLines(SplitLines(JoinLines(KfragLines(h, rs, note))));
      var strays := ParseLines(KfragStrays(h, rs, note));
      && (read.disables == AllUnsets(InOrder(rs)) <==> strays.disables == [])
      && (NoSettings(strays) ==> Settings(read) == (AllUnsets(InOrder(rs)), AllAssigned(InOrder(rs))))
  {
    var ls := KfragLines(h, rs, note);
    TextIsFlat(h, rs, note);
    LinesRoundTrip(h, rs, note);
    FlatDisables(ls);
    if NoSettings(ParseLines(Strays(ls))) { AssignmentsKept(ls); }
  }

  lemma AssignmentsKept(ls: seq<string>)
    requires ParseLines(Strays(ls)).assignments == map[]
    ensures ParseLines(Flat(ls)).assignments == ParseLines(Firsts(ls)).assignments
  {
    var all, firsts := ParseLines(Flat(ls)), ParseLines(Firsts(ls));
    forall x ensures Assigned(all, x) == Assigned(firsts, x) { FlatAssigned(ls, x); }
    assert forall x :: x in all.assignments <==> Assigned(all, x).Some?;
    assert forall x :: x in firsts.assignments <==> Assigned(firsts, x).Some?;
  }

  /** Symbol by symbol: what the strays do not set is read as the accepted proposals have it,
      and what those do not set is read as the strays have it. */
  lemma RoundTripAt(h: Provenance, rs: ReviewSet, note: Reviewed -> string, x: string)
    requires Symbols(rs.accepted)
    ensures
      var read := ParseLines(SplitLines(JoinLines(KfragLines(h, rs, note))));
      var strays := ParseLines(KfragStrays(h, rs, note));
      var wanted := AllAssigned(InOrder(rs));
      && (x in read.disables <==> x in AllUnsets(InOrder(rs)) || x in strays.disables)
      && PartsAgree(Assigned(read, x), if x in wanted then Some(wanted[x]) else None, Assigned(strays, x))
  {
    TextIsFlat(h, rs, note);
    LinesRoundTrip(h, rs, note);
    FlatDisables(KfragLines(h, rs, note));
    FlatAssigned(KfragLines(h, rs, note), x);
  }

  lemma {:induction false} NoneStray(rs: seq<Reviewed>, note: Reviewed -> string)
    requires Unbroken(rs, note)
    ensures AllStrays(rs, note) == []
  {
    if rs != [] {
      var r := rs[|rs| - 1];
      NoneStray(rs[..|rs| - 1], note);
      assert r in rs;
      FirstLineOfNoBreak(note(r));
      TrimNoBreak(r.proposal.proposedValue, IsSpace);
      FirstLineOfNoBreak(RightHandSide(r.proposal.config, r.proposal.proposedValue));
    }
  }

  lemma InOrderWithin(rs: ReviewSet, r: Reviewed)
    ensures r in InOrder(rs) <==> r in rs.accepted && r.decision.Accept?
  {
    SelectMembers(rs.accepted, Enable, r);
    SelectMembers(rs.accepted, Disable, r);
    SelectMembers(rs.accepted, Demote, r);
    SelectMembers(rs.accepted, Other, r);
  }

  /** Without line breaks in what is written there are no strays, and everything comes back. */
  lemma UnbrokenRoundTrip(h: Provenance, rs: ReviewSet, note: Reviewed -> string)
    requires Symbols(rs.accepted) && PlainHeader(h) && Unbroken(rs.accepted, note)
    ensures KfragStrays(h, rs, note) == []
    ensures Settings(ParseLines(SplitLines(JoinLines(KfragLines(h, rs, note)))))
         == (AllUnsets(InOrder(rs)), AllAssigned(InOrder(rs)))
  {
    StraySources(h, rs, note);
    HeaderSetsNothing(h, rs);
    NoStrays(HeaderLines(h, rs));
    forall r ensures r in InOrder(rs) ==> r in rs.accepted { InOrderWithin(rs, r); }
    NoneStray(InOrder(rs), note);
    RoundTrip(h, rs, note);
  }

  // ---- What the recovered settings say about the proposals ----

  /** A symbol is unset exactly when an accepted proposal disables it or is a choice that
      unsets it as the previous option. */
  lemma UnsetMeaning(rs: seq<Reviewed>, x: string)
    ensures x in AllUnsets(rs) <==> exists r :: r in rs && x in Unsets(r.proposal)
  {
    GatherMembers(rs, Unsets, x);
  }

  lemma {:induction false} GatherMembers(rs: seq<Reviewed>, f: Proposal -> seq<string>, x: string)
    ensures x in Gather(rs, f) <==> exists r :: r in rs && x in f(r.proposal)
  {
    if rs != [] {
      GatherMembers(rs[..|rs| - 1], f, x);
      assert rs == rs[..|rs| - 1] + [rs[|rs| - 1]];
    }
  }

  /** A symbol is assigned exactly when an accepted proposal assigns it, and its value is
      that of one such proposal. */
  lemma {:induction false} AssignedMeaning(rs: seq<Reviewed>, x: string)
    ensures x in AllAssigned(rs) <==> exists r :: r in rs && r.proposal.config == x && AssignedValue(r.proposal).Some?
    ensures x in AllAssigned(rs) ==>
      exists r :: r in rs && r.proposal.config == x && AssignedValue(r.proposal) == Some(AllAssigned(rs)[x])
  {
    if rs != [] {
      AssignedMeaning(rs[..|rs| - 1], x);
      assert rs == rs[..|rs| - 1] + [rs[|rs| - 1]];
    }
  }
}
