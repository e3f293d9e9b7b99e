/** The whole way from proposals to a final configuration: policy, review, fragment, merge
    and validation, and what it may and may not change. */
module Pipeline {
  import opened Option
  import opened Chars
  import opened Lines
  import opened ConfigLines
  import opened Models
  import opened Policy
  import opened Review
  import opened Kfrag
  import opened KfragReads
  import opened KfragRoundTrip
  import opened KfragText
  import opened Merge
  import opened Apply

  // ---- The review glue ----

  /** Auto-applied proposals enter the review as accepted. */
  function PreAccepted(ps: seq<Proposal>, who: Reviewer): seq<Reviewed> {
    if ps == [] then []
    else PreAccepted(ps[..|ps| - 1], who) + [Reviewed(ps[|ps| - 1], Accept, who, Some("propose-auto"))]
  }

  datatype Session = Session(
    proposals: seq<Proposal>, level: Autonomy, loadBearing: set<string>, rules: seq<Rule>, oracles: Oracles, who: Reviewer)
  {
    function Review(): ReviewSet {
      var auto := Choose(proposals, level, loadBearing, AutoApplied);
      var open := Choose(proposals, level, loadBearing, NeedsReview);
      ReviewSet(
        PreAccepted(auto, who) + Decided(open, rules, oracles, who, Accept),
        Decided(open, rules, oracles, who, Reject),
        Decided(open, rules, oracles, who, Defer))
    }

    /** Applied without asking, or accepted by the rules. */
    predicate Applies(p: Proposal) {
      && p in proposals
      && (|| Decide(p, level, loadBearing) == AutoApplied
          || (Decide(p, level, loadBearing) == NeedsReview && Judge(rules, p, oracles).0 == Accept))
    }
  }

  lemma {:induction false} PreAcceptedMembers(ps: seq<Proposal>, who: Reviewer, r: Reviewed)
    ensures r in PreAccepted(ps, who) <==> r.proposal in ps && r == Reviewed(r.proposal, Accept, who, Some("propose-auto"))
  {
    if ps != [] {
      PreAcceptedMembers(ps[..|ps| - 1], who, r);
      assert ps == ps[..|ps| - 1] + [ps[|ps| - 1]];
    }
  }

  /** The accepted list holds exactly the proposals that apply, none of them load-bearing. */
  lemma AcceptedExactly(s: Session, p: Proposal)
    ensures (exists r :: r in s.Review().accepted && r.decision.Accept? && r.proposal == p) <==> s.Applies(p)
    ensures s.Applies(p) ==> p.config !in s.loadBearing
  {
    var auto := Choose(s.proposals, s.level, s.loadBearing, AutoApplied);
    var open := Choose(s.proposals, s.level, s.loadBearing, NeedsReview);
    ChooseMembers(s.proposals, s.level, s.loadBearing, AutoApplied, p);
    ChooseMembers(s.proposals, s.level, s.loadBearing, NeedsReview, p);
    var pre, byRule := Reviewed(p, Accept, s.who, Some("propose-auto")), Verdict(s.rules, p, s.oracles, s.who);
    PreAcceptedMembers(auto, s.who, pre);
    DecidedMembers(open, s.rules, s.oracles, s.who, Accept, byRule);
    forall r | r in s.Review().accepted && r.proposal == p ensures s.Applies(p) {
      PreAcceptedMembers(auto, s.who, r);
      DecidedMembers(open, s.rules, s.oracles, s.who, Accept, r);
    }
  }

  // ---- The fragment of a session ----

  /** Some applied proposal unsets x, as its own symbol or as the previous choice. */
  ghost predicate Unset(s: Session, x: string) {
    exists p :: s.Applies(p) && x in Unsets(p)
  }

  /** Some applied proposal assigns v to x. */
  ghost predicate Assigns(s: Session, x: string, v: string) {
    exists p :: s.Applies(p) && p.config == x && AssignedValue(p) == Some(v)
  }

  lemma UnsetIff(s: Session, x: string)
    ensures x in AllUnsets(InOrder(s.Review())) <==> Unset(s, x)
  {
    var rs := s.Review();
    UnsetMeaning(InOrder(rs), x);
    if x in AllUnsets(InOrder(rs)) {
      var r :| r in InOrder(rs) && x in Unsets(r.proposal);
      InOrderWithin(rs, r);
      AcceptedExactly(s, r.proposal);
    }
    if Unset(s, x) {
      var p :| s.Applies(p) && x in Unsets(p);
      AcceptedExactly(s, p);
      var r :| r in rs.accepted && r.decision.Accept? && r.proposal == p;
      InOrderWithin(rs, r);
    }
  }

  lemma AssignsIff(s: Session, x: string)
    ensures x in AllAssigned(InOrder(s.Review())) <==> exists v :: Assigns(s, x, v)
    ensures x in AllAssigned(InOrder(s.Review())) ==> Assigns(s, x, AllAssigned(InOrder(s.Review()))[x])
  {
    var rs := s.Review();
    AssignedMeaning(InOrder(rs), x);
    if x in AllAssigned(InOrder(rs)) {
      var r :| r in InOrder(rs) && r.proposal.config == x && AssignedValue(r.proposal) == Some(AllAssigned(InOrder(rs))[x]);
      InOrderWithin(rs, r);
      AcceptedExactly(s, r.proposal);
      assert Assigns(s, x, AllAssigned(InOrder(rs))[x]);
    }
    if exists v :: Assigns(s, x, v) {
      var v :| Assigns(s, x, v);
      var p :| s.Applies(p) && p.config == x && AssignedValue(p) == Some(v);
      AcceptedExactly(s, p);
      var r :| r in rs.accepted && r.decision.Accept? && r.proposal == p;
      InOrderWithin(rs, r);
    }
  }

  /** Proposals are about symbols. */
  ghost predicate AboutSymbols(s: Session) { forall p :: p in s.proposals ==> IsSymbol(p.config) }

  /** The text of the session's fragment. */
  ghost function FragText(s: Session, h: Provenance, note: Reviewed -> string): string {
    JoinLines(KfragLines(h, s.Review(), note))
  }

  /** The settings read from its strays: the lines after a break of a header text, of an accepted
      rationale or of a value. */
  ghost function StrayFrag(s: Session, h: Provenance, note: Reviewed -> string): map<string, string> {
    FragValues(ParseLines(KfragStrays(h, s.Review(), note)))
  }

  /** The fragment as `merge_kfrag` sees it: x is in it exactly when an applied proposal
      unsets or assigns x, and an assignment overrides an unset. */
  ghost predicate Carries(s: Session, frag: Assignments, x: string) {
    && (x in frag <==> Unset(s, x) || exists v :: Assigns(s, x, v))
    && (x in frag && (exists v :: Assigns(s, x, v)) ==> Assigns(s, x, frag[x]))
    && (x in frag && (forall v :: !Assigns(s, x, v)) ==> frag[x] == "n")
  }

  /** No applied proposal unsets or assigns x. */
  ghost predicate Silent(s: Session, x: string) { !Unset(s, x) && forall v :: !Assigns(s, x, v) }

  /** What the fragment has at x: the proposals' setting when no stray sets x, the strays'
      setting when no proposal does. */
  ghost predicate Written(s: Session, strays: map<string, string>, frag: Assignments, x: string) {
    && (x !in strays ==> Carries(s, frag, x))
    && (Silent(s, x) ==> Lookup(frag, x) == Lookup(strays, x))
  }

  /** The value a fragment gives to x, if it has one. */
  function FragAt(p: ParsedKfrag, x: string): Option<string> {
    if Assigned(p, x).Some? then Assigned(p, x) else if x in p.disables then Some("n") else None
  }

  lemma FragValuesAt(p: ParsedKfrag, x: string)
    ensures Lookup(FragValues(p), x) == FragAt(p, x)
  {
  }

  lemma FragmentMeaning(s: Session, h: Provenance, note: Reviewed -> string, x: string)
    requires AboutSymbols(s)
    ensures Written(s, StrayFrag(s, h, note), FragOf(FragText(s, h, note)), x)
  {
    var rs := s.Review();
    forall r | r in rs.accepted ensures IsSymbol(r.proposal.config) { AcceptedAreProposals(s, r); }
    RoundTripAt(h, rs, note, x);
    FragValuesAt(ParseLines(SplitLines(FragText(s, h, note))), x);
    FragValuesAt(ParseLines(KfragStrays(h, rs, note)), x);
    UnsetIff(s, x);
    AssignsIff(s, x);
  }

  lemma AcceptedAreProposals(s: Session, r: Reviewed)
    requires r in s.Review().accepted
    ensures r.proposal in s.proposals
  {
    var auto := Choose(s.proposals, s.level, s.loadBearing, AutoApplied);
    var open := Choose(s.proposals, s.level, s.loadBearing, NeedsReview);
    PreAcceptedMembers(auto, s.who, r);
    DecidedMembers(open, s.rules, s.oracles, s.who, Accept, r);
    ChooseMembers(s.proposals, s.level, s.loadBearing, AutoApplied, r.proposal);
    ChooseMembers(s.proposals, s.level, s.loadBearing, NeedsReview, r.proposal);
  }

  // ---- What the final configuration may differ in ----

  /** x is the symbol of an applied proposal, or the option an applied choice replaces. */
  ghost predicate MayChange(s: Session, x: string) {
    exists p :: s.Applies(p) && (p.config == x || PreviousChoice(p) == Some(x))
  }

  lemma UnsetsOf(p: Proposal, x: string)
    ensures x in Unsets(p) <==>
      (KindOf(p).Disable? && p.config == x) || (KindOf(p).Other? && PreviousChoice(p) == Some(x))
  {
  }

  /** Frame: the final configuration differs from the base only at symbols of applied
      proposals and at the options that applied choices replace. */
  lemma FinalDiffersOnlyWhereAsked(s: Session, frag: Assignments, base: seq<string>, xs: seq<string>, x: string)
    requires Carries(s, frag, x) && IsAppended(xs, base, frag)
    requires Value(Merged(base, frag, xs), x) != Value(base, x)
    ensures MayChange(s, x)
  {
    MergedValue(base, frag, xs, x);
    if Unset(s, x) {
      var p :| s.Applies(p) && x in Unsets(p);
      UnsetsOf(p, x);
    } else {
      var v :| Assigns(s, x, v);
      var p :| s.Applies(p) && p.config == x && AssignedValue(p) == Some(v);
    }
  }

  /** x is switched off as the previous option of an applied choice. */
  ghost predicate ReplacedChoice(s: Session, x: string) {
    exists p :: s.Applies(p) && KindOf(p).Other? && PreviousChoice(p) == Some(x)
  }

  lemma NothingAssignsLoadBearing(s: Session, x: string)
    requires x in s.loadBearing
    ensures forall v :: !Assigns(s, x, v)
  {
    forall p | s.Applies(p) ensures p.config != x { AcceptedExactly(s, p); }
  }

  lemma LoadBearingUnset(s: Session, x: string)
    requires x in s.loadBearing
    ensures Unset(s, x) <==> ReplacedChoice(s, x)
  {
    if Unset(s, x) {
      var p :| s.Applies(p) && x in Unsets(p);
      UnsetsOf(p, x);
      AcceptedExactly(s, p);
    }
    if ReplacedChoice(s, x) {
      var p :| s.Applies(p) && KindOf(p).Other? && PreviousChoice(p) == Some(x);
      UnsetsOf(p, x);
    }
  }

  /** A setting of x that a merge would carry into the base. */
  ghost predicate ChangesAt(base: seq<string>, strays: map<string, string>, x: string) {
    x in strays &&
    (Value(base, x).None? || (strays[x] != Value(base, x).value && Stored(strays[x]) != Value(base, x).value))
  }

  lemma NothingAsked(s: Session, x: string)
    requires !MayChange(s, x)
    ensures Silent(s, x)
  {
    forall p | s.Applies(p) ensures x !in Unsets(p) { UnsetsOf(p, x); }
  }

  /** The frame, exactly: it holds at x unless no applied proposal may change x and a stray line
      reads as a setting that does. */
  lemma FrameExactly(s: Session, strays: map<string, string>, frag: Assignments, base: seq<string>, xs: seq<string>, x: string)
    requires Written(s, strays, frag, x) && IsAppended(xs, base, frag)
    ensures (Value(Merged(base, frag, xs), x) != Value(base, x) ==> MayChange(s, x))
       <==> MayChange(s, x) || !ChangesAt(base, strays, x)
  {
    if !MayChange(s, x) {
      NothingAsked(s, x);
      MergedValue(base, frag, xs, x);
    }
  }

  /** A load-bearing symbol ends up off exactly when the base had it off or an applied
      choice replaces it; no other stage can touch it. */
  lemma LoadBearingOffExactly(s: Session, frag: Assignments, base: seq<string>, xs: seq<string>, x: string)
    requires Carries(s, frag, x) && IsAppended(xs, base, frag) && x in s.loadBearing
    ensures !On(Value(Merged(base, frag, xs), x)) <==> !On(Value(base, x)) || ReplacedChoice(s, x)
  {
    MergedValue(base, frag, xs, x);
    NothingAssignsLoadBearing(s, x);
    LoadBearingUnset(s, x);
    assert x in frag <==> ReplacedChoice(s, x);
    assert x in frag ==> frag[x] == "n" && Stored(frag[x]) == "n";
  }

  // ---- What is proposed comes out ----

  /** No other applied proposal has to do with the symbol of p. */
  ghost predicate Unopposed(s: Session, p: Proposal) {
    forall q :: s.Applies(q) && q != p ==> q.config != p.config && PreviousChoice(q) != Some(p.config)
  }

  /** The value p asks for: a tristate as it stands, y when it is the name of the option itself,
      and any other value that has nothing to be trimmed. */
  function Wanted(p: Proposal): Option<string> {
    var v := p.proposedValue;
    if v == "y" || v == "m" || v == "n" then Some(v)
    else if p.config == "CONFIG_" + Strip(v) then Some("y")
    else if IsPlainValue(v) then Some(v)
    else None
  }

  lemma PlainIsRestorable(v: string)
    requires IsPlainValue(v) || v == "y" || v == "m" || v == "n"
    ensures Stored(v) == v
  {
    StoredExactly(v);
    assert "0x"[0] == '0';
  }

  lemma WantedIsSaid(p: Proposal, unset: bool, value: Option<string>)
    requires IsSymbol(p.config) && SaysProposed(p, unset, value) && Wanted(p).Some?
    ensures Wanted(p) == if unset then Some("n") else value
  {
    var v := p.proposedValue;
    if IsPlainValue(v) { TrimIdentity(v, IsSpace); }
  }

  lemma WantedIsCarried(s: Session, strays: map<string, string>, frag: Assignments, p: Proposal)
    requires Written(s, strays, frag, p.config) && p.config !in strays && IsSymbol(p.config)
    requires s.Applies(p) && Unopposed(s, p) && Wanted(p).Some?
    ensures Lookup(frag, p.config) == Wanted(p)
  {
    var x := p.config;
    ProposedMeaning(p);
    WantedIsSaid(p, x in Unsets(p), AssignedValue(p));
    forall q | s.Applies(q) && x in Unsets(q) ensures q == p { UnsetsOwnOrPrevious(q, x); }
    assert Unset(s, x) <==> x in Unsets(p);
    if AssignedValue(p).Some? {
      assert Assigns(s, x, AssignedValue(p).value);
    }
    forall v | Assigns(s, x, v) ensures AssignedValue(p) == Some(v) {
      var q :| s.Applies(q) && q.config == x && AssignedValue(q) == Some(v);
    }
  }

  /** The symbol of p ends up with the value p asks for, and unless the base had it already, a
      line of the final configuration says so. */
  ghost predicate Delivered(base: seq<string>, final: seq<string>, p: Proposal) {
    Wanted(p).Some? ==>
      && Value(final, p.config) == Wanted(p)
      && (Value(base, p.config) != Wanted(p) ==> exists l :: l in final && IsKernelLine(l, p.config, Wanted(p).value))
  }

  lemma WantedIsFinal(s: Session, strays: map<string, string>, frag: Assignments, base: seq<string>, xs: seq<string>, p: Proposal)
    requires Written(s, strays, frag, p.config) && p.config !in strays && IsSymbol(p.config)
    requires s.Applies(p) && Unopposed(s, p) && IsAppended(xs, base, frag)
    ensures Delivered(base, Merged(base, frag, xs), p)
  {
    if Wanted(p).Some? {
      WantedIsCarried(s, strays, frag, p);
      MergedValue(base, frag, xs, p.config);
      PlainIsRestorable(Wanted(p).value);
      if Value(base, p.config) != Wanted(p) { FragmentLineIsWritten(base, frag, xs, p.config); }
    }
  }

  lemma WantedIsRead(base: seq<string>, frag: Assignments, xs: seq<string>, finalText: string, p: Proposal)
    requires AllNoBreak(base) && IsAppended(xs, base, frag) && forall y :: y in frag ==> NoBreak(frag[y])
    requires finalText == JoinLines(Merged(base, frag, xs)) + "\n"
    requires Delivered(base, Merged(base, frag, xs), p)
    ensures Delivered(base, SplitLines(finalText), p)
  {
    FinalValue(base, frag, xs, finalText, p.config);
    MergedNoBreak(base, frag, xs);
    if Merged(base, frag, xs) != [] { SplitJoin(Merged(base, frag, xs)); }
  }

  /** At EXPLAIN nothing applies. */
  lemma ExplainAppliesNothing(s: Session, p: Proposal)
    requires s.level == Explain
    ensures !s.Applies(p)
  {
    ExplainExactly(s.proposals, s.loadBearing, p);
    ChooseMembers(s.proposals, s.level, s.loadBearing, AutoApplied, p);
    ChooseMembers(s.proposals, s.level, s.loadBearing, NeedsReview, p);
  }

  // ---- The commands in sequence ----

  method PreAccept(ps: seq<Proposal>, who: Reviewer) returns (out: seq<Reviewed>)
    ensures out == PreAccepted(ps, who)
  {
    out := [];
    for i := 0 to |ps|
      invariant out == PreAccepted(ps[..i], who)
    {
      assert ps[..i + 1][..i] == ps[..i];
      out := out + [Reviewed(ps[i], Accept, who, Some("propose-auto"))];
    }
    assert ps[..|ps|] == ps;
  }

  /** What a run promises about a symbol x.  The frame holds at x exactly when an applied
      proposal may change x or no stray does.  It is reported exactly when it is load-bearing and
      off, and was on (an empty base text counts as none, and then being off is enough); without
      a stray at x, that is when an applied choice replaces it.  And when nothing is reported, a
      load-bearing x that was on still is. */
  ghost predicate Promised(s: Session, strays: map<string, string>, base: seq<string>, final: seq<string>,
                           findings: seq<Finding>, x: string) {
    && ((Value(final, x) != Value(base, x) ==> MayChange(s, x)) <==> MayChange(s, x) || !ChangesAt(base, strays, x))
    && (Reported(findings, x) <==>
          x in s.loadBearing && !On(Value(final, x)) && (base == [] || On(Value(base, x))))
    && (x !in strays ==>
          (Reported(findings, x) <==>
             x in s.loadBearing && (base == [] || (On(Value(base, x)) && ReplacedChoice(s, x)))))
    && (findings == [] && x in s.loadBearing && On(Value(base, x)) ==> On(Value(final, x)))
  }

  /** `propose`, `review` and `apply` with the same load-bearing set: the final text and
      the findings of the validation. */
  method Run(proposals: seq<Proposal>, level: Autonomy, lb: LoadBearingSet, rules: seq<Rule>, oracles: Oracles, who: Reviewer,
             h: Provenance, note: Reviewed -> string, baseText: string)
      returns (finalText: string, findings: seq<Finding>)
    requires lb.Valid()
    requires AboutSymbols(Session(proposals, level, lb.symbols, rules, oracles, who))
    ensures
      var s := Session(proposals, level, lb.symbols, rules, oracles, who);
      && (forall x :: Promised(s, StrayFrag(s, h, note), SplitLines(baseText), SplitLines(finalText), findings, x))
      && (forall p :: s.Applies(p) && Unopposed(s, p) && p.config !in StrayFrag(s, h, note) ==>
           Delivered(SplitLines(baseText), SplitLines(finalText), p))
      && (level == Explain ==> forall x :: x !in StrayFrag(s, h, note) ==>
           Value(SplitLines(finalText), x) == Value(SplitLines(baseText), x))
  {
    ghost var s := Session(proposals, level, lb.symbols, rules, oracles, who);
    var policy := ApplyPolicy(proposals, level, lb);
    var reviewed := ApplyRules(policy.needsReview, rules, oracles, who);
    var pre := PreAccept(policy.autoApplied, who);
    var rs := ReviewSet(pre + reviewed.accepted, reviewed.rejected, reviewed.deferred);
    assert rs == s.Review();
    var fragText := WriteKfrag(h, rs, note);
    var report;
    finalText, report := MergeKfrag(baseText, fragText);
    findings := ValidateLoadBearing(finalText, lb.order, lb.reasons, Some(baseText));
    SessionPromises(s, h, note, baseText, report.fragmentOnly, finalText, lb.order, lb.reasons, findings);
    SessionDelivers(s, h, note, baseText, report.fragmentOnly, finalText);
    if level == Explain {
      forall x | x !in StrayFrag(s, h, note)
        ensures Value(SplitLines(finalText), x) == Value(SplitLines(baseText), x)
      {
        ExplainKeeps(s, StrayFrag(s, h, note), SplitLines(baseText), SplitLines(finalText), findings, x);
      }
    }
  }

  lemma ExplainKeeps(s: Session, strays: map<string, string>, base: seq<string>, final: seq<string>,
                     findings: seq<Finding>, x: string)
    requires s.level == Explain && x !in strays && Promised(s, strays, base, final, findings, x)
    ensures Value(final, x) == Value(base, x)
  {
    forall p ensures !s.Applies(p) { ExplainAppliesNothing(s, p); }
  }

  lemma SessionDelivers(s: Session, h: Provenance, note: Reviewed -> string, baseText: string, xs: seq<string>, finalText: string)
    requires AboutSymbols(s)
    requires IsAppended(xs, SplitLines(baseText), FragOf(FragText(s, h, note)))
    requires finalText == JoinLines(Merged(SplitLines(baseText), FragOf(FragText(s, h, note)), xs)) + "\n"
    ensures forall p :: s.Applies(p) && Unopposed(s, p) && p.config !in StrayFrag(s, h, note) ==>
      Delivered(SplitLines(baseText), SplitLines(finalText), p)
  {
    var frag, base, strays := FragOf(FragText(s, h, note)), SplitLines(baseText), StrayFrag(s, h, note);
    forall p | s.Applies(p) && Unopposed(s, p) && p.config !in strays
      ensures Delivered(base, SplitLines(finalText), p)
    {
      FragmentMeaning(s, h, note, p.config);
      WantedIsFinal(s, strays, frag, base, xs, p);
      WantedIsRead(base, frag, xs, finalText, p);
    }
  }

  lemma SessionPromises(s: Session, h: Provenance, note: Reviewed -> string, baseText: string, xs: seq<string>, finalText: string,
                        order: seq<string>, reasons: map<string, string>, findings: seq<Finding>)
    requires AboutSymbols(s)
    requires IsAppended(xs, SplitLines(baseText), FragOf(FragText(s, h, note)))
    requires finalText == JoinLines(Merged(SplitLines(baseText), FragOf(FragText(s, h, note)), xs)) + "\n"
    requires (forall y :: y in order <==> y in s.loadBearing) && reasons.Keys == s.loadBearing
    requires findings == Findings(order, reasons, Dict(SplitLines(finalText)), BaseOf(Some(baseText)))
    ensures forall x :: Promised(s, StrayFrag(s, h, note), SplitLines(baseText), SplitLines(finalText), findings, x)
  {
    var frag := FragOf(FragText(s, h, note));
    forall x ensures Promised(s, StrayFrag(s, h, note), SplitLines(baseText), SplitLines(finalText), findings, x) {
      FragmentMeaning(s, h, note, x);
      RunPromises(s, StrayFrag(s, h, note), frag, baseText, xs, finalText, order, reasons, findings, x);
    }
  }

  lemma RunPromises(s: Session, strays: map<string, string>, frag: Assignments, baseText: string, xs: seq<string>,
                    finalText: string, order: seq<string>, reasons: map<string, string>, findings: seq<Finding>, x: string)
    requires Written(s, strays, frag, x)
    requires forall y :: y in frag ==> NoBreak(frag[y])
    requires IsAppended(xs, SplitLines(baseText), frag)
    requires finalText == JoinLines(Merged(SplitLines(baseText), frag, xs)) + "\n"
    requires (forall y :: y in order <==> y in s.loadBearing) && reasons.Keys == s.loadBearing
    requires findings == Findings(order, reasons, Dict(SplitLines(finalText)), BaseOf(Some(baseText)))
    ensures Promised(s, strays, SplitLines(baseText), SplitLines(finalText), findings, x)
  {
    var base := SplitLines(baseText);
    FinalValue(base, frag, xs, finalText, x);
    ReportedExactly(finalText, order, reasons, baseText, x);
    Keeps(s, strays, frag, base, xs, SplitLines(finalText), findings, x);
  }

  lemma Keeps(s: Session, strays: map<string, string>, frag: Assignments, base: seq<string>, xs: seq<string>,
              final: seq<string>, findings: seq<Finding>, x: string)
    requires Written(s, strays, frag, x) && IsAppended(xs, base, frag) && Value(final, x) == Value(Merged(base, frag, xs), x)
    requires Reported(findings, x) <==> x in s.loadBearing && !On(Value(final, x)) && (base == [] || On(Value(base, x)))
    requires findings == [] && x in s.loadBearing && On(Value(base, x)) ==> On(Value(final, x))
    ensures Promised(s, strays, base, final, findings, x)
  {
    FrameExactly(s, strays, frag, base, xs, x);
    if x !in strays && x in s.loadBearing {
      LoadBearingOffExactly(s, frag, base, xs, x);
    }
  }

  /** Writing the merged lines and reading them again changes no value. */
  lemma FinalValue(base: seq<string>, frag: Assignments, xs: seq<string>, finalText: string, x: string)
    requires AllNoBreak(base) && IsAppended(xs, base, frag) && forall y :: y in frag ==> NoBreak(frag[y])
    requires finalText == JoinLines(Merged(base, frag, xs)) + "\n"
    ensures Value(SplitLines(finalText), x) == Value(Merged(base, frag, xs), x)
  {
    var out := Merged(base, frag, xs);
    MergedNoBreak(base, frag, xs);
    if out != [] {
      SplitJoin(out);
    } else {
      EmptyTextAgain(frag);
      BannerSetsNothing();
      assert [""][..0] == [];
    }
  }

  // ---- Strays in the rationale ----

  /** When no text written has a line break there are no strays, so the frame holds everywhere. */
  lemma UnbrokenHasNoStrays(s: Session, h: Provenance, note: Reviewed -> string)
    requires AboutSymbols(s) && PlainHeader(h) && Unbroken(s.Review().accepted, note)
    ensures StrayFrag(s, h, note) == map[]
  {
    forall r | r in s.Review().accepted ensures IsSymbol(r.proposal.config) { AcceptedAreProposals(s, r); }
    UnbrokenRoundTrip(h, s.Review(), note);
  }
}
