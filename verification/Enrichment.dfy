/** One batch of records sent to the enrichment model: whatever comes back, only validated
    enrichments are kept, one for each record. */
module Enrichment {
  import opened Option

  datatype Record = Record(symbol: string, factHash: string)

  /** An evidence reference is the path it cites; "" cites no file. */
  datatype Enriched = Enriched(symbol: string, factHash: string, evidence: seq<string>, body: string)

  /** What one call of the model gives; None when the call raises. */
  type Answer = Option<seq<Enriched>>

  /** Whether a path resolves to a file inside the source tree. */
  type Sources = string -> bool

  /** `validate_enrichment` passes. */
  predicate Valid(e: Enriched, r: Record, sources: Sources) {
    && e.symbol == r.symbol
    && e.factHash == r.factHash
    && e.evidence != []
    && forall path :: path in e.evidence ==> path == "" || sources(path)
  }

  /** What a kept enrichment is: about the record and its facts, with evidence, and every piece of
      it cites no file or one in the source tree. */
  ghost predicate IsSound(e: Enriched, r: Record, sources: Sources) {
    && e.symbol == r.symbol && e.factHash == r.factHash
    && |e.evidence| > 0
    && forall i :: 0 <= i < |e.evidence| ==> e.evidence[i] == "" || sources(e.evidence[i])
  }

  lemma ValidIsSound(e: Enriched, r: Record, sources: Sources)
    ensures Valid(e, r, sources) <==> IsSound(e, r, sources)
  {
    assert forall i :: 0 <= i < |e.evidence| ==> e.evidence[i] in e.evidence;
  }

  predicate DistinctSymbols(rs: seq<Record>) {
    forall i, j :: 0 <= i < j < |rs| ==> rs[i].symbol != rs[j].symbol
  }

  /** The first answer that is valid for r. */
  function FirstValid(r: Record, answers: seq<Enriched>, sources: Sources): Option<Enriched> {
    if answers == [] then None
    else
      var before := FirstValid(r, answers[..|answers| - 1], sources);
      var last := answers[|answers| - 1];
      if before.Some? then before else if Valid(last, r, sources) then Some(last) else None
  }

  lemma {:induction false} FirstValidIff(r: Record, answers: seq<Enriched>, sources: Sources)
    ensures FirstValid(r, answers, sources).Some? <==> exists e :: e in answers && Valid(e, r, sources)
    ensures FirstValid(r, answers, sources).Some? ==>
      FirstValid(r, answers, sources).value in answers && Valid(FirstValid(r, answers, sources).value, r, sources)
  {
    if answers != [] {
      FirstValidIff(r, answers[..|answers| - 1], sources);
      assert answers == answers[..|answers| - 1] + [answers[|answers| - 1]];
    }
  }

  /** Once found, an answer is not replaced by later ones. */
  lemma {:induction false} FirstValidStable(r: Record, answers: seq<Enriched>, more: seq<Enriched>, sources: Sources)
    requires FirstValid(r, answers, sources).Some?
    ensures FirstValid(r, answers + more, sources) == FirstValid(r, answers, sources)
    decreases |more|
  {
    if more == [] {
      assert answers + more == answers;
    } else {
      var front := more[..|more| - 1];
      FirstValidStable(r, answers, front, sources);
      assert (answers + more)[..|answers + more| - 1] == answers + front;
    }
  }

  /** How many of the first n calls succeed before one raises. */
  function Usable(outputs: seq<Answer>, n: nat): (k: nat)
    requires n <= |outputs|
    ensures k <= n && (forall a :: 0 <= a < k ==> outputs[a].Some?) && (k < n ==> outputs[k].None?)
  {
    if n == 0 then 0
    else
      var k := Usable(outputs, n - 1);
      if k == n - 1 && outputs[n - 1].Some? then n else k
  }

  /** All answers of the first n attempts, in order. */
  function Answers(outputs: seq<Answer>, n: nat): seq<Enriched>
    requires n <= |outputs|
  {
    if n == 0 then [] else Answers(outputs, n - 1) + if outputs[n - 1].Some? then outputs[n - 1].value else []
  }

  lemma {:induction false} AnswersGrow(outputs: seq<Answer>, n: nat, m: nat) returns (more: seq<Enriched>)
    requires n <= m <= |outputs|
    ensures Answers(outputs, m) == Answers(outputs, n) + more
    decreases m
  {
    if n == m {
      more := [];
      assert Answers(outputs, n) + [] == Answers(outputs, n);
    } else {
      var front := AnswersGrow(outputs, n, m - 1);
      var last := if outputs[m - 1].Some? then outputs[m - 1].value else [];
      more := front + last;
      assert Answers(outputs, n) + front + last == Answers(outputs, n) + more;
    }
  }

  lemma {:induction false} AnswerMembers(outputs: seq<Answer>, n: nat, e: Enriched)
    requires n <= |outputs|
    ensures e in Answers(outputs, n) <==> exists a | 0 <= a < n :: outputs[a].Some? && e in outputs[a].value
  {
    if n > 0 { AnswerMembers(outputs, n - 1, e); }
  }

  /** What a batch amounts to: the first valid answer for each record, or failure when some
      record has none before the attempts are used up or a call raises.  outputs[a] is what the
      model gives at attempt a + 1. */
  function EnrichBatch(rs: seq<Record>, outputs: seq<Answer>, maxAttempts: int, sources: Sources): Option<seq<Enriched>>
    requires maxAttempts <= |outputs|
  {
    if rs == [] then Some([])
    else if maxAttempts < 1 || !DistinctSymbols(rs) then None
    else
      var answers := Answers(outputs, Usable(outputs, maxAttempts));
      if forall r :: r in rs ==> FirstValid(r, answers, sources).Some? then
        Some(seq(|rs|, i requires 0 <= i < |rs| => FirstValid(rs[i], answers, sources).value))
      else None
  }

  /** r gets a valid answer at an attempt before which, and at which, no call raises. */
  ghost predicate Answered(r: Record, outputs: seq<Answer>, maxAttempts: nat, sources: Sources)
    requires maxAttempts <= |outputs|
  {
    exists a | 0 <= a < maxAttempts ::
      (forall b :: 0 <= b <= a ==> outputs[b].Some?) && exists e :: e in outputs[a].value && IsSound(e, r, sources)
  }

  lemma AnsweredIff(r: Record, outputs: seq<Answer>, maxAttempts: nat, sources: Sources)
    requires maxAttempts <= |outputs|
    ensures FirstValid(r, Answers(outputs, Usable(outputs, maxAttempts)), sources).Some? <==>
      Answered(r, outputs, maxAttempts, sources)
  {
    var k := Usable(outputs, maxAttempts);
    FirstValidIff(r, Answers(outputs, k), sources);
    forall e ensures e in Answers(outputs, k) <==> exists a | 0 <= a < k :: outputs[a].Some? && e in outputs[a].value {
      AnswerMembers(outputs, k, e);
    }
    forall e ensures Valid(e, r, sources) <==> IsSound(e, r, sources) { ValidIsSound(e, r, sources); }
  }

  /** A batch succeeds exactly when its symbols are distinct and every record gets a valid
      answer within the attempts, whatever else the model returns. */
  lemma BatchSucceedsExactly(rs: seq<Record>, outputs: seq<Answer>, maxAttempts: int, sources: Sources)
    requires maxAttempts <= |outputs|
    ensures EnrichBatch(rs, outputs, maxAttempts, sources).Some? <==>
      rs == [] || (1 <= maxAttempts && DistinctSymbols(rs) && forall r :: r in rs ==> Answered(r, outputs, maxAttempts, sources))
  {
    if 1 <= maxAttempts {
      forall r { AnsweredIff(r, outputs, maxAttempts, sources); }
    }
  }

  /** es answers rs one for one, in order, and every answer is valid for its record. */
  ghost predicate AnswersEach(es: seq<Enriched>, rs: seq<Record>, sources: Sources) {
    |es| == |rs| && forall i :: 0 <= i < |rs| ==> IsSound(es[i], rs[i], sources)
  }

  lemma BatchIsValid(rs: seq<Record>, outputs: seq<Answer>, maxAttempts: int, sources: Sources)
    requires maxAttempts <= |outputs| && EnrichBatch(rs, outputs, maxAttempts, sources).Some?
    ensures AnswersEach(EnrichBatch(rs, outputs, maxAttempts, sources).value, rs, sources)
  {
    if rs != [] {
      var es := EnrichBatch(rs, outputs, maxAttempts, sources).value;
      forall i | 0 <= i < |rs| ensures IsSound(es[i], rs[i], sources) {
        FirstValidIff(rs[i], Answers(outputs, Usable(outputs, maxAttempts)), sources);
        ValidIsSound(es[i], rs[i], sources);
      }
    }
  }

  // ---- The loop ----

  /** accepted holds, for each record, its first valid answer among those seen. */
  ghost predicate Holds(accepted: map<string, Enriched>, rs: seq<Record>, seen: seq<Enriched>, sources: Sources) {
    forall r :: r in rs ==>
      FirstValid(r, seen, sources) == (if r.symbol in accepted then Some(accepted[r.symbol]) else None)
  }

  predicate NonePending(accepted: map<string, Enriched>, rs: seq<Record>) {
    forall r :: r in rs ==> r.symbol in accepted
  }

  /** The accepted answers in the order of the records. */
  function InOrder(accepted: map<string, Enriched>, rs: seq<Record>): seq<Enriched>
    requires NonePending(accepted, rs)
  {
    seq(|rs|, i requires 0 <= i < |rs| => accepted[rs[i].symbol])
  }

  /** The answers of one attempt. */
  method AcceptAnswers(before: map<string, Enriched>, rs: seq<Record>, bySymbol: map<string, Record>,
                       output: seq<Enriched>, ghost seen: seq<Enriched>, sources: Sources)
    returns (accepted: map<string, Enriched>)
    requires forall r :: r in rs ==> r.symbol in bySymbol && bySymbol[r.symbol] == r
    requires forall s :: s in bySymbol ==> bySymbol[s] in rs && bySymbol[s].symbol == s
    requires Holds(before, rs, seen, sources)
    ensures Holds(accepted, rs, seen + output, sources)
  {
    accepted := before;
    assert seen + output[..0] == seen;
    for i := 0 to |output|
      invariant Holds(accepted, rs, seen + output[..i], sources)
    {
      var e := output[i];
      ghost var sofar := seen + output[..i + 1];
      assert sofar[..|sofar| - 1] == seen + output[..i] && sofar[|sofar| - 1] == e;
      if e.symbol in bySymbol && e.symbol !in accepted && Valid(e, bySymbol[e.symbol], sources) {
        accepted := accepted[e.symbol := e];
      }
    }
    assert output[..|output|] == output;
  }

  /** The dictionary from symbols to records. */
  method BySymbol(rs: seq<Record>) returns (m: map<string, Record>)
    ensures forall s :: s in m ==> m[s] in rs && m[s].symbol == s
    ensures forall r :: r in rs ==> r.symbol in m
    ensures DistinctSymbols(rs) ==> forall r :: r in rs ==> m[r.symbol] == r
  {
    m := map[];
    for i := 0 to |rs|
      invariant forall s :: s in m ==> m[s] in rs[..i] && m[s].symbol == s
      invariant forall r :: r in rs[..i] ==> r.symbol in m
    {
      m := m[rs[i].symbol := rs[i]];
    }
    assert rs[..|rs|] == rs;
  }

  /** The attempts, until no record is pending or a call raises. */
  method Attempt(rs: seq<Record>, outputs: seq<Answer>, maxAttempts: nat, sources: Sources)
    returns (result: Option<seq<Enriched>>)
    requires rs != [] && DistinctSymbols(rs) && 1 <= maxAttempts <= |outputs|
    ensures result == EnrichBatch(rs, outputs, maxAttempts, sources)
  {
    var bySymbol := BySymbol(rs);
    var accepted: map<string, Enriched> := map[];
    assert rs[0] in rs && rs[0].symbol !in accepted;
    for attempt := 0 to maxAttempts
      invariant Holds(accepted, rs, Answers(outputs, attempt), sources)
      invariant !NonePending(accepted, rs)
      invariant attempt <= Usable(outputs, maxAttempts)
    {
      if outputs[attempt].None? {
        Unsettled(accepted, rs, outputs, maxAttempts, sources);
        return None;
      }
      accepted := AcceptAnswers(accepted, rs, bySymbol, outputs[attempt].value, Answers(outputs, attempt), sources);
      if NonePending(accepted, rs) {
        Settled(accepted, rs, outputs, attempt + 1, maxAttempts, sources);
        return Some(InOrder(accepted, rs));
      }
    }
    Unsettled(accepted, rs, outputs, maxAttempts, sources);
    return None;
  }

  /** `enrich_records`; None stands for any exception. */
  method EnrichRecords(rs: seq<Record>, outputs: seq<Answer>, maxAttempts: int, sources: Sources)
    returns (result: Option<seq<Enriched>>)
    requires maxAttempts <= |outputs|
    ensures result == EnrichBatch(rs, outputs, maxAttempts, sources)
  {
    if rs == [] {
      return Some([]);
    }
    if maxAttempts < 1 || !DistinctSymbols(rs) {
      return None;
    }
    result := Attempt(rs, outputs, maxAttempts, sources);
  }

  lemma Unsettled(accepted: map<string, Enriched>, rs: seq<Record>, outputs: seq<Answer>, maxAttempts: nat, sources: Sources)
    requires 1 <= maxAttempts <= |outputs| && DistinctSymbols(rs)
    requires Holds(accepted, rs, Answers(outputs, Usable(outputs, maxAttempts)), sources)
    requires !NonePending(accepted, rs)
    ensures EnrichBatch(rs, outputs, maxAttempts, sources) == None
  {
  }

  /** When every record has an answer, further attempts would not change any. */
  lemma Settled(accepted: map<string, Enriched>, rs: seq<Record>, outputs: seq<Answer>, n: nat, maxAttempts: nat,
                sources: Sources)
    requires 1 <= maxAttempts <= |outputs| && n <= Usable(outputs, maxAttempts) && DistinctSymbols(rs) && rs != []
    requires Holds(accepted, rs, Answers(outputs, n), sources)
    requires NonePending(accepted, rs)
    ensures EnrichBatch(rs, outputs, maxAttempts, sources) == Some(InOrder(accepted, rs))
  {
    var k := Usable(outputs, maxAttempts);
    var more := AnswersGrow(outputs, n, k);
    forall r | r in rs ensures FirstValid(r, Answers(outputs, k), sources) == Some(accepted[r.symbol]) {
      FirstValidStable(r, Answers(outputs, n), more, sources);
    }
    assert EnrichBatch(rs, outputs, maxAttempts, sources).value == InOrder(accepted, rs);
  }
}
