/** The autonomy policy: which proposals are applied, reviewed, annotated or blocked. */
module Policy {
  import opened Option
  import opened Models

  /** The per-snapshot blocklist.  `order` is the insertion order a Python dict keeps. */
  class LoadBearingSet {
    var symbols: set<string>
    var reasons: map<string, string>
    var order: seq<string>

    ghost predicate Valid()
      reads this
    {
      && reasons.Keys == symbols
      && (forall x :: x in order <==> x in symbols)
      && (forall i, j :: 0 <= i < j < |order| ==> order[i] != order[j])
    }

    constructor ()
      ensures Valid() && symbols == {}
    {
      symbols, reasons, order := {}, map[], [];
    }

    /** The first reason given for a symbol stays. */
    method Add(sym: string, reason: string)
      requires Valid()
      modifies this
      ensures Valid() && symbols == old(symbols) + {sym}
      ensures forall x :: x in old(symbols) ==> reasons[x] == old(reasons[x])
      ensures sym !in old(symbols) ==> reasons[sym] == reason
      ensures order == if sym in old(symbols) then old(order) else old(order) + [sym]
    {
      if sym !in symbols {
        symbols := symbols + {sym};
        reasons := reasons[sym := reason];
        order := order + [sym];
      }
    }

    method Contains(sym: string) returns (found: bool, reason: Option<string>)
      requires Valid()
      ensures found <==> sym in symbols
      ensures reason == if sym in symbols then Some(reasons[sym]) else None
    {
      found := sym in symbols;
      reason := if sym in reasons then Some(reasons[sym]) else None;
    }
  }

  datatype Autonomy = Explain | Advise | AutoSafe | AutoBold

  datatype Bucket = AutoApplied | NeedsReview | Blocked | Annotated

  datatype PolicyResult = PolicyResult(
    autoApplied: seq<Proposal>, needsReview: seq<Proposal>,
    blocked: seq<(Proposal, string)>, annotations: seq<Proposal>)

  const DETERMINISTIC_AUTO_CONFIDENCE := 0.95

  /** Where a proposal that is not load-bearing goes. */
  function DecideFree(p: Proposal, level: Autonomy): Bucket {
    match level
    case Explain => Annotated
    case Advise =>
      if (p.source.Deterministic? || p.source.Microarch?) && p.confidence >= DETERMINISTIC_AUTO_CONFIDENCE
      then AutoApplied else NeedsReview
    case AutoSafe => if p.risk.Low? && p.confidence >= 0.9 then AutoApplied else NeedsReview
    case AutoBold => if p.risk.High? then NeedsReview else AutoApplied
  }

  function Decide(p: Proposal, level: Autonomy, loadBearing: set<string>): Bucket {
    if p.config in loadBearing then Blocked else DecideFree(p, level)
  }

  /** The proposals of one bucket, in their order. */
  function Choose(ps: seq<Proposal>, level: Autonomy, loadBearing: set<string>, b: Bucket): seq<Proposal> {
    if ps == [] then []
    else
      var rest, p := Choose(ps[..|ps| - 1], level, loadBearing, b), ps[|ps| - 1];
      if Decide(p, level, loadBearing) == b then rest + [p] else rest
  }

  lemma {:induction false} ChooseMembers(ps: seq<Proposal>, level: Autonomy, lb: set<string>, b: Bucket, p: Proposal)
    ensures p in Choose(ps, level, lb, b) <==> p in ps && Decide(p, level, lb) == b
  {
    if ps != [] {
      ChooseMembers(ps[..|ps| - 1], level, lb, b, p);
      assert ps == ps[..|ps| - 1] + [ps[|ps| - 1]];
    }
  }

  /** The blocked proposals, each with why it is blocked. */
  function BlockedWhy(ps: seq<Proposal>, reasons: map<string, string>): seq<(Proposal, string)> {
    if ps == [] then []
    else
      var rest, p := BlockedWhy(ps[..|ps| - 1], reasons), ps[|ps| - 1];
      if p.config in reasons then rest + [(p, "load-bearing: " + reasons[p.config])] else rest
  }

  /** They are the blocked bucket. */
  lemma {:induction false} BlockedWhyIsBlocked(ps: seq<Proposal>, level: Autonomy, reasons: map<string, string>)
    ensures
      var out, blocked := BlockedWhy(ps, reasons), Choose(ps, level, reasons.Keys, Blocked);
      && |out| == |blocked|
      && forall i :: 0 <= i < |out| ==>
           out[i].0 == blocked[i] && out[i].0.config in reasons && out[i].1 == "load-bearing: " + reasons[out[i].0.config]
  {
    if ps != [] {
      BlockedWhyIsBlocked(ps[..|ps| - 1], level, reasons);
    }
  }

  lemma ChooseStep(ps: seq<Proposal>, i: nat, level: Autonomy, lb: set<string>, b: Bucket)
    requires i < |ps|
    ensures Choose(ps[..i + 1], level, lb, b)
         == if Decide(ps[i], level, lb) == b then Choose(ps[..i], level, lb, b) + [ps[i]] else Choose(ps[..i], level, lb, b)
  {
    assert ps[..i + 1][..i] == ps[..i];
  }

  /** The branches of `apply_policy` below the load-bearing check. */
  method Place(p: Proposal, level: Autonomy) returns (b: Bucket)
    ensures b == DecideFree(p, level)
  {
    match level {
      case Explain =>
        b := Annotated;
      case Advise =>
        if (p.source == Deterministic || p.source == Microarch) && p.confidence >= DETERMINISTIC_AUTO_CONFIDENCE {
          b := AutoApplied;
        } else {
          b := NeedsReview;
        }
      case AutoSafe =>
        if p.risk == Low && p.confidence >= 0.9 {
          b := AutoApplied;
        } else {
          b := NeedsReview;
        }
      case AutoBold =>
        if p.risk == High {
          b := NeedsReview;
        } else {
          b := AutoApplied;
        }
    }
  }

  /** `apply_policy`. */
  method ApplyPolicy(proposals: seq<Proposal>, level: Autonomy, lb: LoadBearingSet) returns (out: PolicyResult)
    requires lb.Valid()
    ensures out.autoApplied == Choose(proposals, level, lb.symbols, AutoApplied)
    ensures out.needsReview == Choose(proposals, level, lb.symbols, NeedsReview)
    ensures out.annotations == Choose(proposals, level, lb.symbols, Annotated)
    ensures out.blocked == BlockedWhy(proposals, lb.reasons)
    ensures level == Explain ==> out.autoApplied == [] && out.needsReview == []
    ensures level == Advise ==> forall p :: p in out.autoApplied <==>
      p in proposals && p.config !in lb.symbols && p.source in {Deterministic, Microarch} && p.confidence >= 0.95
    ensures level == AutoSafe ==> forall p :: p in out.autoApplied <==>
      p in proposals && p.config !in lb.symbols && p.risk == Low && p.confidence >= 0.9
    ensures level == AutoBold ==> forall p :: p in out.autoApplied <==>
      p in proposals && p.config !in lb.symbols && p.risk != High
  {
    out := PolicyResult([], [], [], []);
    for i := 0 to |proposals|
      invariant out.autoApplied == Choose(proposals[..i], level, lb.symbols, AutoApplied)
      invariant out.needsReview == Choose(proposals[..i], level, lb.symbols, NeedsReview)
      invariant out.annotations == Choose(proposals[..i], level, lb.symbols, Annotated)
      invariant out.blocked == BlockedWhy(proposals[..i], lb.reasons)
    {
      var p := proposals[i];
      ChooseStep(proposals, i, level, lb.symbols, AutoApplied);
      ChooseStep(proposals, i, level, lb.symbols, NeedsReview);
      ChooseStep(proposals, i, level, lb.symbols, Annotated);
      assert proposals[..i + 1][..i] == proposals[..i];
      var isLb, reason := lb.Contains(p.config);
      if isLb {
        out := out.(blocked := out.blocked + [(p, "load-bearing: " + reason.value)]);
        continue;
      }
      var b := Place(p, level);
      match b {
        case AutoApplied => out := out.(autoApplied := out.autoApplied + [p]);
        case NeedsReview => out := out.(needsReview := out.needsReview + [p]);
        case _ => out := out.(annotations := out.annotations + [p]);
      }
    }
    assert proposals[..|proposals|] == proposals;
    LevelMembers(proposals, level, lb.symbols);
  }

  lemma LevelMembers(ps: seq<Proposal>, level: Autonomy, lb: set<string>)
    ensures level == Explain ==> Choose(ps, level, lb, AutoApplied) == [] && Choose(ps, level, lb, NeedsReview) == []
    ensures level == Advise ==> forall p :: p in Choose(ps, level, lb, AutoApplied) <==>
      p in ps && p.config !in lb && p.source in {Deterministic, Microarch} && p.confidence >= 0.95
    ensures level == AutoSafe ==> forall p :: p in Choose(ps, level, lb, AutoApplied) <==>
      p in ps && p.config !in lb && p.risk == Low && p.confidence >= 0.9
    ensures level == AutoBold ==> forall p :: p in Choose(ps, level, lb, AutoApplied) <==>
      p in ps && p.config !in lb && p.risk != High
  {
    forall p
      ensures InBuckets(ps, level, lb, p, DecideFree(p, level) == AutoApplied, DecideFree(p, level) == NeedsReview)
    {
      FourBuckets(ps, level, lb, p);
    }
  }

  /** The buckets are a partition: every proposal is in exactly one, as often as it came. */
  lemma {:induction false} BucketsPartition(ps: seq<Proposal>, level: Autonomy, lb: set<string>)
    ensures multiset(Choose(ps, level, lb, AutoApplied)) + multiset(Choose(ps, level, lb, NeedsReview))
          + multiset(Choose(ps, level, lb, Annotated)) + multiset(Choose(ps, level, lb, Blocked)) == multiset(ps)
  {
    if ps != [] {
      BucketsPartition(ps[..|ps| - 1], level, lb);
      assert ps == ps[..|ps| - 1] + [ps[|ps| - 1]];
    }
  }

  // ---- What each level does, in terms of the proposal alone ----

  predicate InBuckets(ps: seq<Proposal>, level: Autonomy, lb: set<string>, p: Proposal, applied: bool, asked: bool) {
    && (p in Choose(ps, level, lb, AutoApplied) <==> p in ps && p.config !in lb && applied)
    && (p in Choose(ps, level, lb, NeedsReview) <==> p in ps && p.config !in lb && asked)
    && (p in Choose(ps, level, lb, Annotated) <==> p in ps && p.config !in lb && !applied && !asked)
    && (p in Choose(ps, level, lb, Blocked) <==> p in ps && p.config in lb)
  }

  lemma FourBuckets(ps: seq<Proposal>, level: Autonomy, lb: set<string>, p: Proposal)
    ensures InBuckets(ps, level, lb, p, DecideFree(p, level) == AutoApplied, DecideFree(p, level) == NeedsReview)
  {
    ChooseMembers(ps, level, lb, AutoApplied, p);
    ChooseMembers(ps, level, lb, NeedsReview, p);
    ChooseMembers(ps, level, lb, Annotated, p);
    ChooseMembers(ps, level, lb, Blocked, p);
  }

  /** EXPLAIN applies nothing and asks nothing; */
  lemma ExplainExactly(ps: seq<Proposal>, lb: set<string>, p: Proposal)
    ensures InBuckets(ps, Explain, lb, p, false, false)
  {
    FourBuckets(ps, Explain, lb, p);
  }

  /** ADVISE applies what is not load-bearing, comes from the deterministic or microarchitecture
      rules and has a confidence of at least 0.95, and asks about the rest; */
  lemma AdviseExactly(ps: seq<Proposal>, lb: set<string>, p: Proposal)
    ensures
      var applied := p.source in {Deterministic, Microarch} && p.confidence >= 0.95;
      InBuckets(ps, Advise, lb, p, applied, !applied)
  {
    FourBuckets(ps, Advise, lb, p);
  }

  /** AUTO_SAFE applies what is not load-bearing, of low risk and of a confidence of at least 0.9; */
  lemma AutoSafeExactly(ps: seq<Proposal>, lb: set<string>, p: Proposal)
    ensures
      var applied := p.risk == Low && p.confidence >= 0.9;
      InBuckets(ps, AutoSafe, lb, p, applied, !applied)
  {
    FourBuckets(ps, AutoSafe, lb, p);
  }

  /** AUTO_BOLD applies what is not load-bearing and not of high risk. */
  lemma AutoBoldExactly(ps: seq<Proposal>, lb: set<string>, p: Proposal)
    ensures InBuckets(ps, AutoBold, lb, p, p.risk != High, p.risk == High)
  {
    FourBuckets(ps, AutoBold, lb, p);
  }

  /** Place of a level on the documented scale from least to most autonomous. */
  function Scale(level: Autonomy): nat {
    match level
    case Explain => 0
    case Advise => 1
    case AutoSafe => 2
    case AutoBold => 3
  }

  /** What a more autonomous level no longer applies: only something ADVISE applies, namely for
      AUTO_SAFE all that is not of low risk, and for AUTO_BOLD what is of high risk. */
  lemma WithdrawnExactly(ps: seq<Proposal>, a: Autonomy, b: Autonomy, lb: set<string>, p: Proposal)
    requires Scale(a) < Scale(b) && p in Choose(ps, a, lb, AutoApplied)
    ensures p !in Choose(ps, b, lb, AutoApplied) <==> a.Advise? && if b.AutoSafe? then !p.risk.Low? else p.risk.High?
  {
    ChooseMembers(ps, a, lb, AutoApplied, p);
    ChooseMembers(ps, b, lb, AutoApplied, p);
  }

  /** For instance this one. */
  lemma LevelsAreNotMonotone()
    ensures
      var p := Proposal("CONFIG_X", "y", "n", "", High, 1.0, Deterministic);
      && Choose([p], Advise, {}, AutoApplied) == [p]
      && Choose([p], AutoSafe, {}, AutoApplied) == [] == Choose([p], AutoBold, {}, AutoApplied)
  {
    var p := Proposal("CONFIG_X", "y", "n", "", High, 1.0, Deterministic);
    assert [p][..0] == [];
  }

  /** b applies whatever a applies, on all proposals. */
  ghost predicate AppliesMore(a: Autonomy, b: Autonomy) {
    forall ps, lb, p :: p in Choose(ps, a, lb, AutoApplied) ==> p in Choose(ps, b, lb, AutoApplied)
  }

  /** So a step up the scale never withdraws anything exactly when it does not start at ADVISE. */
  lemma ScaleIsMonotoneExactly(a: Autonomy, b: Autonomy)
    requires Scale(a) < Scale(b)
    ensures AppliesMore(a, b) <==> !a.Advise?
  {
    if !a.Advise? {
      forall ps, lb, p | p in Choose(ps, a, lb, AutoApplied) ensures p in Choose(ps, b, lb, AutoApplied) {
        WithdrawnExactly(ps, a, b, lb, p);
      }
    } else {
      LevelsAreNotMonotone();
      var p := Proposal("CONFIG_X", "y", "n", "", High, 1.0, Deterministic);
      assert p in Choose([p], a, {}, AutoApplied) && p !in Choose([p], b, {}, AutoApplied);
    }
  }
}
