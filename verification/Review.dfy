/** Bulk review: the first rule that matches a proposal decides it. */
module Review {
  import opened Option
  import opened Models

  datatype Rule = Rule(
    verdict: Decision,
    name: string,
    risk: Option<set<RiskLevel>>,
    source: Option<set<ProposalSource>>,
    subsystems: Option<set<string>>,
    nameGlobs: seq<string>,
    minConfidence: Option<real>,
    maxConfidence: Option<real>)

  /** The subsystem classifier and shell-pattern matching. */
  datatype Oracles = Oracles(classify: string -> string, glob: (string, string) -> bool)

  /** `_RuleBase.matches`; None means that the axis is not looked at. */
  predicate Matches(r: Rule, p: Proposal, o: Oracles) {
    && (r.risk.Some? ==> p.risk in r.risk.value)
    && (r.source.Some? ==> p.source in r.source.value)
    && (r.subsystems.Some? ==> o.classify(p.config) in r.subsystems.value)
    && (r.nameGlobs != [] ==> exists i :: 0 <= i < |r.nameGlobs| && o.glob(p.config, r.nameGlobs[i]))
    && (r.minConfidence.Some? ==> p.confidence >= r.minConfidence.value)
    && (r.maxConfidence.Some? ==> p.confidence <= r.maxConfidence.value)
  }

  /** The verdict on p and the name of the rule that gives it. */
  function Judge(rules: seq<Rule>, p: Proposal, o: Oracles): (Decision, string) {
    if rules == [] then (Defer, "unmatched")
    else if Matches(rules[0], p, o) then (rules[0].verdict, rules[0].name)
    else Judge(rules[1..], p, o)
  }

  function Verdict(rules: seq<Rule>, p: Proposal, o: Oracles, who: Reviewer): Reviewed {
    var (d, name) := Judge(rules, p, o);
    Reviewed(p, d, who, Some(name))
  }

  /** The conditions a rule puts on a proposal, axis by axis. */
  ghost predicate Meets(r: Rule, p: Proposal, o: Oracles) {
    && (r.risk == None || p.risk in r.risk.value)
    && (r.source == None || p.source in r.source.value)
    && (r.subsystems == None || o.classify(p.config) in r.subsystems.value)
    && (r.nameGlobs == [] || exists g :: g in r.nameGlobs && o.glob(p.config, g))
    && (r.minConfidence == None || r.minConfidence.value <= p.confidence)
    && (r.maxConfidence == None || p.confidence <= r.maxConfidence.value)
  }

  /** The first rule whose conditions a proposal meets decides it, and without one it is deferred. */
  lemma {:induction false} FirstMetDecides(rules: seq<Rule>, p: Proposal, o: Oracles, k: nat)
    requires k <= |rules| && (forall j :: 0 <= j < k ==> !Meets(rules[j], p, o)) && (k < |rules| ==> Meets(rules[k], p, o))
    ensures Judge(rules, p, o) == if k < |rules| then (rules[k].verdict, rules[k].name) else (Defer, "unmatched")
    decreases |rules|
  {
    if rules != [] {
      var gs := rules[0].nameGlobs;
      assert forall i :: 0 <= i < |gs| ==> gs[i] in gs;
      assert Matches(rules[0], p, o) <==> Meets(rules[0], p, o);
      if k > 0 { FirstMetDecides(rules[1..], p, o, k - 1); }
    }
  }

  /** The proposals with one verdict, in order. */
  function Decided(ps: seq<Proposal>, rules: seq<Rule>, o: Oracles, who: Reviewer, d: Decision): seq<Reviewed> {
    if ps == [] then []
    else
      var rest, p := Decided(ps[..|ps| - 1], rules, o, who, d), ps[|ps| - 1];
      if Judge(rules, p, o).0 == d then rest + [Verdict(rules, p, o, who)] else rest
  }

  lemma {:induction false} DecidedMembers(ps: seq<Proposal>, rules: seq<Rule>, o: Oracles, who: Reviewer, d: Decision, r: Reviewed)
    ensures r in Decided(ps, rules, o, who, d)
       <==> r.proposal in ps && Judge(rules, r.proposal, o).0 == d && r == Verdict(rules, r.proposal, o, who)
  {
    if ps != [] {
      DecidedMembers(ps[..|ps| - 1], rules, o, who, d, r);
      assert ps == ps[..|ps| - 1] + [ps[|ps| - 1]];
    }
  }

  /** The search for the deciding rule. */
  method FindRule(rules: seq<Rule>, p: Proposal, o: Oracles) returns (chosen: Option<Rule>)
    ensures chosen.None? ==> Judge(rules, p, o) == (Defer, "unmatched")
    ensures chosen.Some? ==> Judge(rules, p, o) == (chosen.value.verdict, chosen.value.name)
  {
    chosen := None;
    assert rules[0..] == rules;
    for i := 0 to |rules|
      invariant chosen.None? && Judge(rules, p, o) == Judge(rules[i..], p, o)
    {
      if Matches(rules[i], p, o) {
        chosen := Some(rules[i]);
        break;
      }
    }
  }

  /** `apply_rules`. */
  method ApplyRules(proposals: seq<Proposal>, rules: seq<Rule>, o: Oracles, who: Reviewer) returns (out: ReviewSet)
    ensures out.accepted == Decided(proposals, rules, o, who, Accept)
    ensures out.rejected == Decided(proposals, rules, o, who, Reject)
    ensures out.deferred == Decided(proposals, rules, o, who, Defer)
  {
    out := ReviewSet([], [], []);
    for i := 0 to |proposals|
      invariant out.accepted == Decided(proposals[..i], rules, o, who, Accept)
      invariant out.rejected == Decided(proposals[..i], rules, o, who, Reject)
      invariant out.deferred == Decided(proposals[..i], rules, o, who, Defer)
    {
      assert proposals[..i + 1][..i] == proposals[..i];
      var p := proposals[i];
      var chosen := FindRule(rules, p, o);
      if chosen.None? {
        out := out.(deferred := out.deferred + [Reviewed(p, Defer, who, Some("unmatched"))]);
        continue;
      }
      var rp := Reviewed(p, chosen.value.verdict, who, Some(chosen.value.name));
      match chosen.value.verdict {
        case Accept => out := out.(accepted := out.accepted + [rp]);
        case Reject => out := out.(rejected := out.rejected + [rp]);
        case Defer => out := out.(deferred := out.deferred + [rp]);
      }
    }
    assert proposals[..|proposals|] == proposals;
  }

  function Proposals(rs: seq<Reviewed>): seq<Proposal> {
    if rs == [] then [] else Proposals(rs[..|rs| - 1]) + [rs[|rs| - 1].proposal]
  }

  /** How often p occurs among the proposals with verdict d. */
  function Occurrences(ps: seq<Proposal>, rules: seq<Rule>, o: Oracles, who: Reviewer, d: Decision, p: Proposal): nat {
    multiset(Proposals(Decided(ps, rules, o, who, d)))[p]
  }

  lemma OccurrencesStep(ps: seq<Proposal>, rules: seq<Rule>, o: Oracles, who: Reviewer, d: Decision, p: Proposal)
    requires ps != []
    ensures Occurrences(ps, rules, o, who, d, p)
         == Occurrences(ps[..|ps| - 1], rules, o, who, d, p)
            + if ps[|ps| - 1] == p && Judge(rules, p, o).0 == d then 1 else 0
  {
    var now, was := Decided(ps, rules, o, who, d), Decided(ps[..|ps| - 1], rules, o, who, d);
    if Judge(rules, ps[|ps| - 1], o).0 == d {
      assert now[..|now| - 1] == was;
    }
  }

  /** No proposal is lost or decided twice: each occurs under its own verdict as often as
      it came, and under no other. */
  lemma {:induction false} ReviewPartitions(ps: seq<Proposal>, rules: seq<Rule>, o: Oracles, who: Reviewer, d: Decision, p: Proposal)
    ensures Occurrences(ps, rules, o, who, d, p) == if Judge(rules, p, o).0 == d then multiset(ps)[p] else 0
  {
    if ps != [] {
      ReviewPartitions(ps[..|ps| - 1], rules, o, who, d, p);
      OccurrencesStep(ps, rules, o, who, d, p);
      assert ps == ps[..|ps| - 1] + [ps[|ps| - 1]];
    }
  }

  ghost predicate Vetoed(vetoes: seq<Rule>, p: Proposal, o: Oracles) {
    exists r :: r in vetoes && Matches(r, p, o)
  }

  /** Vetoes come first: what one of them matches is rejected, whatever would accept it later;
      and the rest is left to the later rules. */
  lemma {:induction false} VetoWins(vetoes: seq<Rule>, later: seq<Rule>, p: Proposal, o: Oracles)
    requires forall r :: r in vetoes ==> r.verdict == Reject
    ensures Judge(vetoes + later, p, o).0 == if Vetoed(vetoes, p, o) then Reject else Judge(later, p, o).0
    ensures !Vetoed(vetoes, p, o) ==> Judge(vetoes + later, p, o) == Judge(later, p, o)
  {
    if vetoes == [] {
      assert vetoes + later == later;
    } else {
      assert (vetoes + later)[1..] == vetoes[1..] + later;
      assert vetoes == [vetoes[0]] + vetoes[1..];
      assert vetoes[0] in vetoes;
      VetoWins(vetoes[1..], later, p, o);
    }
  }

  // ---- Presets ----

  const ANY := Rule(Accept, "", None, None, None, [], None, None)

  const ACCEPT_RECOMMENDED := [
    ANY.(name := "accept-recommended-not-high-risk", risk := Some({Low, Medium})),
    ANY.(verdict := Defer, name := "defer-high-risk", risk := Some({High}))]

  const ACCEPT_LOW_RISK := [ANY.(name := "accept-low-risk", risk := Some({Low}))]

  const ACCEPT_DETERMINISTIC := [ANY.(name := "accept-deterministic", source := Some({Deterministic}))]

  /** With any vetoes in front, accepting what is recommended accepts exactly the proposals
      that no veto matches and that are not of high risk, and leaves these undecided; */
  lemma AcceptRecommendedExactly(vetoes: seq<Rule>, p: Proposal, o: Oracles)
    requires forall r :: r in vetoes ==> r.verdict == Reject
    ensures Judge(vetoes + ACCEPT_RECOMMENDED, p, o).0
         == if Vetoed(vetoes, p, o) then Reject else if p.risk.High? then Defer else Accept
    ensures !Vetoed(vetoes, p, o) ==>
      Judge(vetoes + ACCEPT_RECOMMENDED, p, o).1 == if p.risk.High? then "defer-high-risk" else "accept-recommended-not-high-risk"
  {
    VetoWins(vetoes, ACCEPT_RECOMMENDED, p, o);
    assert ACCEPT_RECOMMENDED[1..][1..] == [];
  }

  /** accepting low risk accepts exactly those of low risk, */
  lemma AcceptLowRiskExactly(vetoes: seq<Rule>, p: Proposal, o: Oracles)
    requires forall r :: r in vetoes ==> r.verdict == Reject
    ensures Judge(vetoes + ACCEPT_LOW_RISK, p, o).0
         == if Vetoed(vetoes, p, o) then Reject else if p.risk.Low? then Accept else Defer
    ensures !Vetoed(vetoes, p, o) ==>
      Judge(vetoes + ACCEPT_LOW_RISK, p, o).1 == if p.risk.Low? then "accept-low-risk" else "unmatched"
  {
    VetoWins(vetoes, ACCEPT_LOW_RISK, p, o);
    assert ACCEPT_LOW_RISK[1..] == [];
  }

  /** and accepting deterministic ones exactly those from the deterministic rules. */
  lemma AcceptDeterministicExactly(vetoes: seq<Rule>, p: Proposal, o: Oracles)
    requires forall r :: r in vetoes ==> r.verdict == Reject
    ensures Judge(vetoes + ACCEPT_DETERMINISTIC, p, o).0
         == if Vetoed(vetoes, p, o) then Reject else if p.source.Deterministic? then Accept else Defer
    ensures !Vetoed(vetoes, p, o) ==>
      Judge(vetoes + ACCEPT_DETERMINISTIC, p, o).1 == if p.source.Deterministic? then "accept-deterministic" else "unmatched"
  {
    VetoWins(vetoes, ACCEPT_DETERMINISTIC, p, o);
    assert ACCEPT_DETERMINISTIC[1..] == [];
  }

  // ---- The command ----

  function RejectSubsystems(subsystems: seq<string>): Rule {
    ANY.(verdict := Reject, name := "reject-subsystems", subsystems := Some(set s | s in subsystems))
  }

  function RejectPatterns(patterns: seq<string>): Rule {
    ANY.(verdict := Reject, name := "reject-pattern", nameGlobs := patterns)
  }

  /** The rules the command puts together from its options. */
  method ComposeRules(subsystems: seq<string>, patterns: seq<string>, deterministic: bool, lowRisk: bool, recommended: bool)
    returns (rules: seq<Rule>)
    ensures rules == CommandRules(subsystems, patterns, deterministic, lowRisk, recommended)
  {
    rules := [];
    if subsystems != [] {
      rules := rules + [RejectSubsystems(subsystems)];
    }
    NoMore([]);
    NoMore(rules);
    if patterns != [] {
      rules := rules + [RejectPatterns(patterns)];
    }
    NoMore(rules);
    if deterministic {
      rules := rules + ACCEPT_DETERMINISTIC;
    }
    NoMore(rules);
    if lowRisk {
      rules := rules + ACCEPT_LOW_RISK;
    }
    NoMore(rules);
    if recommended {
      rules := rules + ACCEPT_RECOMMENDED;
    }
  }

  lemma NoMore(rules: seq<Rule>)
    ensures rules + [] == rules
  {
  }

  function CommandVetoes(subsystems: seq<string>, patterns: seq<string>): seq<Rule> {
    [] + (if subsystems != [] then [RejectSubsystems(subsystems)] else [])
    + (if patterns != [] then [RejectPatterns(patterns)] else [])
  }

  function CommandRules(subsystems: seq<string>, patterns: seq<string>, deterministic: bool, lowRisk: bool,
                        recommended: bool): seq<Rule> {
    CommandVetoes(subsystems, patterns)
    + (if deterministic then ACCEPT_DETERMINISTIC else [])
    + (if lowRisk then ACCEPT_LOW_RISK else [])
    + (if recommended then ACCEPT_RECOMMENDED else [])
  }

  /** The symbol is in a rejected subsystem, or fits a rejected pattern. */
  ghost predicate Rejected(subsystems: seq<string>, patterns: seq<string>, p: Proposal, o: Oracles) {
    o.classify(p.config) in subsystems || exists g :: g in patterns && o.glob(p.config, g)
  }

  lemma VetoedByCommand(subsystems: seq<string>, patterns: seq<string>, p: Proposal, o: Oracles)
    ensures Vetoed(CommandVetoes(subsystems, patterns), p, o) <==> Rejected(subsystems, patterns, p, o)
    ensures forall r :: r in CommandVetoes(subsystems, patterns) ==> r.verdict == Reject
  {
    var vs := CommandVetoes(subsystems, patterns);
    assert subsystems != [] ==> RejectSubsystems(subsystems) in vs;
    assert patterns != [] ==> RejectPatterns(patterns) in vs;
    assert forall r :: r in vs ==> r == RejectSubsystems(subsystems) || r == RejectPatterns(patterns);
    assert forall i :: 0 <= i < |patterns| ==> patterns[i] in patterns;
  }

  /** Judging by two lists of accepting rules, one after the other. */
  lemma {:induction false} JudgeEither(a: seq<Rule>, b: seq<Rule>, p: Proposal, o: Oracles)
    requires forall r :: r in a ==> r.verdict == Accept
    ensures Judge(a + b, p, o).0 == if Vetoed(a, p, o) then Accept else Judge(b, p, o).0
  {
    if a == [] {
      assert a + b == b;
    } else {
      assert (a + b)[1..] == a[1..] + b && a == [a[0]] + a[1..] && a[0] in a;
      JudgeEither(a[1..], b, p, o);
    }
  }

  lemma AcceptsOf(deterministic: bool, lowRisk: bool, p: Proposal, o: Oracles)
    ensures
      var a, b := if deterministic then ACCEPT_DETERMINISTIC else [], if lowRisk then ACCEPT_LOW_RISK else [];
      && (Vetoed(a, p, o) <==> deterministic && p.source == Deterministic)
      && (Vetoed(b, p, o) <==> lowRisk && p.risk == Low)
  {
    assert ACCEPT_DETERMINISTIC[0] in ACCEPT_DETERMINISTIC && ACCEPT_LOW_RISK[0] in ACCEPT_LOW_RISK;
  }

  lemma RecommendedAlone(recommended: bool, p: Proposal, o: Oracles)
    ensures Judge(if recommended then ACCEPT_RECOMMENDED else [], p, o).0
         == if recommended && p.risk in {Low, Medium} then Accept else Defer
  {
    if recommended {
      AcceptRecommendedExactly([], p, o);
      assert [] + ACCEPT_RECOMMENDED == ACCEPT_RECOMMENDED;
    }
  }

  /** Vetoes, two lists of accepting rules, and a last list. */
  lemma JudgeInTurn(vs: seq<Rule>, a: seq<Rule>, b: seq<Rule>, c: seq<Rule>, p: Proposal, o: Oracles)
    requires forall r :: r in vs ==> r.verdict == Reject
    requires forall r :: r in a || r in b ==> r.verdict == Accept
    ensures Judge(vs + a + b + c, p, o).0
         == if Vetoed(vs, p, o) then Reject else if Vetoed(a, p, o) || Vetoed(b, p, o) then Accept else Judge(c, p, o).0
  {
    assert vs + a + b + c == vs + (a + (b + c));
    VetoWins(vs, a + (b + c), p, o);
    JudgeEither(a, b + c, p, o);
    JudgeEither(b, c, p, o);
  }

  /** What the command does with a proposal: it rejects those of the given subsystems and patterns;
      of the rest it accepts what one of the given options accepts; and it leaves the others. */
  lemma CommandDecides(subsystems: seq<string>, patterns: seq<string>, deterministic: bool, lowRisk: bool, recommended: bool,
                       p: Proposal, o: Oracles)
    ensures Judge(CommandRules(subsystems, patterns, deterministic, lowRisk, recommended), p, o).0
         == if Rejected(subsystems, patterns, p, o) then Reject
            else if (deterministic && p.source == Deterministic) || (lowRisk && p.risk == Low) ||
                    (recommended && p.risk in {Low, Medium}) then Accept
            else Defer
  {
    VetoedByCommand(subsystems, patterns, p, o);
    AcceptsOf(deterministic, lowRisk, p, o);
    RecommendedAlone(recommended, p, o);
    JudgeInTurn(CommandVetoes(subsystems, patterns), if deterministic then ACCEPT_DETERMINISTIC else [],
                if lowRisk then ACCEPT_LOW_RISK else [], if recommended then ACCEPT_RECOMMENDED else [], p, o);
  }
}
