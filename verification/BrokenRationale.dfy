/** A rationale ends in the proposal's reason, which is any text a model returns.  One with a line
    break can change a symbol that no proposal names. */
module BrokenRationale {
  import opened Option
  import opened Lines
  import opened ConfigLines
  import opened Models
  import opened Policy
  import opened Review
  import opened Kfrag
  import opened KfragReads
  import opened KfragRoundTrip
  import opened Merge
  import Apply
  import opened Pipeline

  /** A session with one proposal and no rules. */
  function Alone(p: Proposal, o: Oracles, who: Reviewer): Session { Session([p], AutoBold, {}, [], o, who) }

  function AutoAccepted(p: Proposal, who: Reviewer): Reviewed { Reviewed(p, Accept, who, Some("propose-auto")) }

  lemma AloneChosen(p: Proposal, b: Bucket)
    ensures Choose([p], AutoBold, {}, b) == if Decide(p, AutoBold, {}) == b then [p] else []
  {
    assert [p][..0] == [];
  }

  lemma OnePreAccepted(p: Proposal, who: Reviewer)
    ensures PreAccepted([p], who) == [AutoAccepted(p, who)]
  {
    assert [p][..0] == [];
  }

  /** A session that applies everything and has nothing to ask about. */
  lemma NothingOpen(s: Session, ps: seq<Proposal>)
    requires Choose(s.proposals, s.level, s.loadBearing, AutoApplied) == ps
    requires Choose(s.proposals, s.level, s.loadBearing, NeedsReview) == []
    ensures s.Review() == ReviewSet(PreAccepted(ps, s.who), [], [])
  {
    assert PreAccepted(ps, s.who) + [] == PreAccepted(ps, s.who);
  }

  lemma AloneReview(p: Proposal, o: Oracles, who: Reviewer)
    requires p.risk.Low?
    ensures Alone(p, o, who).Review() == ReviewSet([AutoAccepted(p, who)], [], [])
  {
    AloneChosen(p, AutoApplied);
    AloneChosen(p, NeedsReview);
    NothingOpen(Alone(p, o, who), [p]);
    OnePreAccepted(p, who);
  }

  lemma SelectOne(r: Reviewed, k: Kind)
    requires r.decision.Accept?
    ensures Select([r], k) == if KindOf(r.proposal) == k then [r] else []
  {
    assert [r][..0] == [];
  }

  lemma OneInOrder(r: Reviewed)
    requires r.decision.Accept? && KindOf(r.proposal).Disable?
    ensures InOrder(ReviewSet([r], [], [])) == [r]
  {
    SelectOne(r, Enable); SelectOne(r, Disable); SelectOne(r, Demote); SelectOne(r, Other);
  }

  lemma BrokenText(front: string, line: string)
    requires NoBreak(front) && NoBreak(line)
    ensures AfterBreak(front + ("\n" + line)) == [line]
  {
    var rest := "\n" + line;
    PiecesAfter(front, rest);
    assert BreakPos(rest) == 0 && rest[1..] == line;
    FirstLineOfNoBreak(line);
  }

  lemma StraysOfOne(r: Reviewed, note: Reviewed -> string)
    requires r.decision.Accept? && KindOf(r.proposal).Disable?
    ensures AllStrays(InOrder(ReviewSet([r], [], [])), note) == AfterBreak(note(r))
  {
    OneInOrder(r);
    assert [r][..0] == [];
    assert [] + (AfterBreak(note(r)) + []) == AfterBreak(note(r));
  }

  lemma NoHeaderStrays(h: Provenance, rs: ReviewSet)
    requires PlainHeader(h)
    ensures Strays(HeaderLines(h, rs)) == []
  {
    HeaderSetsNothing(h, rs);
    NoStrays(HeaderLines(h, rs));
  }

  /** The only stray is the line after the break. */
  lemma OneStray(h: Provenance, r: Reviewed, note: Reviewed -> string, front: string, line: string)
    requires PlainHeader(h) && r.decision.Accept? && KindOf(r.proposal).Disable? && IsSymbol(r.proposal.config)
    requires NoBreak(front) && NoBreak(line) && note(r) == front + ("\n" + line)
    ensures KfragStrays(h, ReviewSet([r], [], []), note) == [line]
  {
    StraySources(h, ReviewSet([r], [], []), note);
    NoHeaderStrays(h, ReviewSet([r], [], []));
    StraysOfOne(r, note);
    BrokenText(front, line);
  }

  lemma StrayAssigns(y: string)
    requires IsSymbol(y)
    ensures FragValues(ParseLines([SetLine(y, "m")])) == map[y := "m"]
  {
    ReadSet(y, "m");
    ReadLetter('m');
    ParseOne(SetLine(y, "m"));
  }

  lemma NotAsked(p: Proposal, y: string, o: Oracles, who: Reviewer)
    requires p.source.Llm? && y != p.config
    ensures !MayChange(Alone(p, o, who), y)
  {
    forall q | Alone(p, o, who).Applies(q) ensures q.config != y && PreviousChoice(q) != Some(y) { assert q == p; }
  }

  lemma StrayFragIs(p: Proposal, y: string, front: string, h: Provenance, note: Reviewed -> string, o: Oracles, who: Reviewer)
    requires p.risk.Low? && KindOf(p).Disable? && IsSymbol(p.config) && IsSymbol(y)
    requires PlainHeader(h) && NoBreak(front) && note(AutoAccepted(p, who)) == front + ("\n" + SetLine(y, "m"))
    ensures StrayFrag(Alone(p, o, who), h, note) == map[y := "m"]
  {
    AloneReview(p, o, who);
    LineFormsNoBreak(y, "m");
    OneStray(h, AutoAccepted(p, who), note, front, SetLine(y, "m"));
    StrayAssigns(y);
  }

  lemma StrayIsMerged(s: Session, frag: Assignments, y: string, base: seq<string>, xs: seq<string>)
    requires Written(s, map[y := "m"], frag, y) && !MayChange(s, y)
    requires Value(base, y) == None && IsAppended(xs, base, frag)
    ensures Value(Merged(base, frag, xs), y) == Some("m")
  {
    NothingAsked(s, y);
    assert Lookup(frag, y) == Some("m");
    MergedValue(base, frag, xs, y);
    StoredExactly("m");
    assert "m"[0] != '0' && "0x"[0] == '0';
  }

  lemma WrittenAlone(p: Proposal, y: string, front: string, h: Provenance, note: Reviewed -> string, o: Oracles, who: Reviewer)
    requires p.risk.Low? && KindOf(p).Disable? && IsSymbol(p.config) && IsSymbol(y)
    requires PlainHeader(h) && NoBreak(front) && note(AutoAccepted(p, who)) == front + ("\n" + SetLine(y, "m"))
    ensures Written(Alone(p, o, who), map[y := "m"], Apply.FragOf(FragText(Alone(p, o, who), h, note)), y)
  {
    StrayFragIs(p, y, front, h, note, o, who);
    FragmentMeaning(Alone(p, o, who), h, note, y);
  }

  /** y comes out as m although no applied proposal may change it. */
  lemma StrayBreaksFrame(p: Proposal, y: string, front: string, h: Provenance, note: Reviewed -> string, o: Oracles,
                         who: Reviewer, frag: Assignments, base: seq<string>, xs: seq<string>)
    requires p.risk.Low? && KindOf(p).Disable? && p.source.Llm? && IsSymbol(p.config) && IsSymbol(y) && y != p.config
    requires PlainHeader(h) && NoBreak(front) && note(AutoAccepted(p, who)) == front + ("\n" + SetLine(y, "m"))
    requires frag == Apply.FragOf(FragText(Alone(p, o, who), h, note))
    requires Value(base, y) == None && IsAppended(xs, base, frag)
    ensures Value(Merged(base, frag, xs), y) == Some("m") && !MayChange(Alone(p, o, who), y)
  {
    WrittenAlone(p, y, front, h, note, o, who);
    NotAsked(p, y, o, who);
    StrayIsMerged(Alone(p, o, who), frag, y, base, xs);
  }

  /** A rationale as the writer composes it: something in brackets, a blank, and the reason. */
  function Composed(tag: string): Reviewed -> string { (r: Reviewed) => tag + " " + r.proposal.reason }

  /** For instance the reason "x", a break, and CONFIG_B=m on a proposal about CONFIG_A. */
  predicate IsInstance(p: Proposal, y: string) {
    && p == Proposal("CONFIG_A", "y", "n", "x" + ("\n" + SetLine("CONFIG_B", "m")), Low, 1.0, Llm)
    && y == "CONFIG_B"
  }

  lemma ReasonInstance(p: Proposal, y: string, h: Provenance, o: Oracles, who: Reviewer, tag: string, frag: Assignments,
                       base: seq<string>, xs: seq<string>)
    requires IsInstance(p, y) && PlainHeader(h) && NoBreak(tag)
    requires frag == Apply.FragOf(FragText(Alone(p, o, who), h, Composed(tag)))
    requires Value(base, y) == None && IsAppended(xs, base, frag)
    ensures Value(Merged(base, frag, xs), y) == Some("m") && !MayChange(Alone(p, o, who), y)
  {
    var front := InstanceFacts(p, y, tag, who);
    StrayBreaksFrame(p, y, front, h, Composed(tag), o, who, frag, base, xs);
  }

  lemma InstanceFacts(p: Proposal, y: string, tag: string, who: Reviewer) returns (front: string)
    requires IsInstance(p, y) && NoBreak(tag)
    ensures p.risk.Low? && KindOf(p).Disable? && p.source.Llm? && IsSymbol(p.config) && IsSymbol(y) && y != p.config
    ensures NoBreak(front) && Composed(tag)(AutoAccepted(p, who)) == front + ("\n" + SetLine(y, "m"))
  {
    front := tag + " " + "x";
    var rest := "\n" + SetLine("CONFIG_B", "m");
    assert tag + " " + ("x" + rest) == front + rest;
    assert "CONFIG_A"[7] == 'A' && "CONFIG_B"[7] == 'B';
    assert "n"[0] != "y"[0];
  }
}
