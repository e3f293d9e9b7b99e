/** The enrichment command: what is left to do, batches in flight, and runs cut short. */
module Scheduler {
  import opened Option
  import opened Enrichment

  /** Attempts per batch. */
  const ATTEMPTS := 3

  /** outputs(i)[a] is what the model returns for batch i at attempt a + 1. */
  type Outputs = nat -> seq<Answer>

  // ---- The file ----

  /** A line of the enrichments file: one enrichment, blanks, a JSON object of something else,
      JSON that is no object, or text that is not JSON. */
  datatype Line = Entry(e: Enriched) | Blank | Other | NotObject | Garbage

  /** The lines; `open` says that the last one is not ended by a line break. */
  datatype File = File(lines: seq<Line>, open: bool)

  function ToLines(es: seq<Enriched>): seq<Line> { seq(|es|, i requires 0 <= i < |es| => Entry(es[i])) }

  /** What an open line becomes when an enrichment is written right behind it: only blanks do no
      harm, two JSON texts on one line are not JSON. */
  function Join(l: Line, e: Enriched): Line { if l.Blank? then Entry(e) else Garbage }

  predicate Joins(f: File) { f.open && f.lines != [] }

  /** The lines an append leaves alone, and the line it begins with. */
  function Kept(f: File): seq<Line> { if Joins(f) then f.lines[..|f.lines| - 1] else f.lines }

  function FirstAppended(f: File, e: Enriched): Line { if Joins(f) then Join(f.lines[|f.lines| - 1], e) else Entry(e) }

  /** `write_enrichments`: every enrichment and its line break are appended. */
  function AppendAll(f: File, es: seq<Enriched>): File {
    if es == [] then f else File(Kept(f) + ([FirstAppended(f, es[0])] + ToLines(es[1..])), false)
  }

  lemma ToLinesConcat(a: seq<Enriched>, b: seq<Enriched>)
    ensures ToLines(a + b) == ToLines(a) + ToLines(b)
  {
  }

  lemma ToLinesFirst(es: seq<Enriched>)
    requires es != []
    ensures ToLines(es) == [Entry(es[0])] + ToLines(es[1..])
  {
  }

  /** A file that ends in a line break grows by the lines. */
  lemma AppendToClosed(f: File, es: seq<Enriched>)
    requires !f.open
    ensures AppendAll(f, es) == File(f.lines + ToLines(es), false)
  {
    if es == [] {
      assert f.lines + [] == f.lines;
    } else {
      ToLinesFirst(es);
    }
  }

  lemma RegroupLines(k: seq<Line>, l: Line, a: seq<Line>, b: seq<Line>)
    ensures (k + ([l] + a)) + b == k + ([l] + (a + b))
  {
  }

  lemma AppendAllTwice(f: File, a: seq<Enriched>, b: seq<Enriched>)
    ensures AppendAll(AppendAll(f, a), b) == AppendAll(f, a + b)
    ensures AppendAll(f, a + []) == AppendAll(f, a)
  {
    assert a + [] == a;
    if a == [] {
      assert a + b == b;
    } else {
      AppendToClosed(AppendAll(f, a), b);
      assert (a + b)[1..] == a[1..] + b;
      ToLinesConcat(a[1..], b);
      RegroupLines(Kept(f), FirstAppended(f, a[0]), ToLines(a[1..]), ToLines(b));
    }
  }

  // ---- The schedule ----

  type Results = seq<Option<seq<Enriched>>>

  /** A batch is handed to a worker; its enrichments are written; or its failure is raised,
      which ends the run. */
  datatype Event = Submitted(i: nat) | Written(i: nat) | Raised(i: nat)

  /** What happened so far, the latest event outermost. */
  datatype Trace = Start | Then(before: Trace, last: Event)

  function Submissions(t: Trace): nat {
    if t.Start? then 0 else Submissions(t.before) + if t.last.Submitted? then 1 else 0
  }

  function InFlight(t: Trace): set<nat> {
    match t
    case Start => {}
    case Then(b, Submitted(i)) => InFlight(b) + {i}
    case Then(b, Written(i)) => InFlight(b) - {i}
    case Then(b, Raised(i)) => InFlight(b) - {i}
  }

  predicate Halted(t: Trace) { t.Then? && t.last.Raised? }

  /** How often an event happened. */
  function Times(t: Trace, e: Event): nat {
    if t.Start? then 0 else Times(t.before, e) + if t.last == e then 1 else 0
  }

  /** A schedule for these batches: each is submitted in its turn, only while fewer than
      `width` are in flight; a completion is waited for only with `width` in flight or nothing
      left to submit; and nothing follows a raised failure. */
  predicate Legal(t: Trace, results: Results, width: nat) {
    match t
    case Start => true
    case Then(b, e) =>
      && Legal(b, results, width) && !Halted(b)
      && match e {
           case Submitted(i) => i == Submissions(b) && i < |results| && |InFlight(b)| < width
           case Written(i) => i in InFlight(b) && i < |results| && results[i].Some? && Busy(b, results, width)
           case Raised(i) => i in InFlight(b) && i < |results| && results[i].None? && Busy(b, results, width)
         }
  }

  predicate Busy(t: Trace, results: Results, width: nat) {
    |InFlight(t)| == width || Submissions(t) == |results|
  }

  predicate Complete(t: Trace, results: Results) {
    Submissions(t) == |results| && InFlight(t) == {} && !Halted(t)
  }

  /** At most `width` batches are ever in flight. */
  lemma {:induction false} InFlightBounded(t: Trace, results: Results, width: nat)
    requires Legal(t, results, width)
    ensures |InFlight(t)| <= width && Submissions(t) <= |results|
  {
    if t.Then? {
      InFlightBounded(t.before, results, width);
      if t.last.Submitted? { InFlightGrows(InFlight(t.before), t.last.i); } else { InFlightShrinks(InFlight(t.before), t.last.i); }
    }
  }

  lemma InFlightGrows(s: set<nat>, i: nat)
    ensures |s + {i}| <= |s| + 1 && (i !in s ==> |s + {i}| == |s| + 1)
  {
    if i in s { assert s + {i} == s; }
  }

  lemma InFlightShrinks(s: set<nat>, i: nat)
    ensures |s - {i}| <= |s| && (i in s ==> |s - {i}| == |s| - 1)
  {
    if i !in s { assert s - {i} == s; }
  }

  /** Where one batch stands: not submitted, in flight, or finished, and each at most once. */
  lemma {:induction false} BatchStatus(t: Trace, results: Results, width: nat, i: nat)
    requires Legal(t, results, width)
    ensures Times(t, Submitted(i)) == if i < Submissions(t) then 1 else 0
    ensures Times(t, Submitted(i)) == Times(t, Written(i)) + Times(t, Raised(i)) + if i in InFlight(t) then 1 else 0
    ensures Times(t, Raised(i)) > 0 ==> Halted(t)
  {
    if t.Then? { BatchStatus(t.before, results, width, i); }
  }

  /** A complete schedule submits and writes every batch exactly once. */
  lemma CompleteWritesEach(t: Trace, results: Results, width: nat, i: nat)
    requires Legal(t, results, width) && Complete(t, results) && i < |results|
    ensures Times(t, Submitted(i)) == 1 && Times(t, Written(i)) == 1
  {
    BatchStatus(t, results, width, i);
  }

  /** How many batches have been collected, written or failed. */
  function Collected(t: Trace): nat {
    if t.Start? then 0 else Collected(t.before) + if t.last.Submitted? then 0 else 1
  }

  lemma {:induction false} InFlightCount(t: Trace, results: Results, width: nat)
    requires Legal(t, results, width)
    ensures |InFlight(t)| + Collected(t) == Submissions(t) && forall i :: i in InFlight(t) ==> i < Submissions(t)
  {
    if t.Then? {
      InFlightCount(t.before, results, width);
      if t.last.Submitted? { InFlightGrows(InFlight(t.before), t.last.i); } else { InFlightShrinks(InFlight(t.before), t.last.i); }
    }
  }

  /** The pool is kept full: whenever a batch is collected, as many have been submitted as the
      width allows beyond those collected before, or all of them. */
  lemma PoolIsKeptFull(t: Trace, e: Event, results: Results, width: nat)
    requires Legal(Then(t, e), results, width) && !e.Submitted?
    ensures Submissions(t) == if Collected(t) + width <= |results| then Collected(t) + width else |results|
  {
    InFlightCount(t, results, width);
    InFlightBounded(t, results, width);
  }

  function BatchOutput(results: Results, i: nat): seq<Enriched> {
    if i < |results| && results[i].Some? then results[i].value else []
  }

  /** What a schedule writes: the enrichments of each batch as it completes. */
  function Output(t: Trace, results: Results): seq<Enriched> {
    if t.Start? then []
    else Output(t.before, results) + if t.last.Written? then BatchOutput(results, t.last.i) else []
  }

  /** The outcome of each batch, whenever its worker runs. */
  ghost predicate AreResults(results: Results, chunks: seq<seq<Record>>, outputs: Outputs, sources: Sources) {
    && (forall i :: |outputs(i)| >= ATTEMPTS)
    && |results| == |chunks|
    && (forall i :: 0 <= i < |chunks| ==> results[i] == EnrichBatch(chunks[i], outputs(i), ATTEMPTS, sources))
  }

  // ---- The worker loop ----

  /** The outcome of a run of the worker loop: completed, or ended by a failed batch. */
  ghost predicate Ran(t: Trace, ok: bool, results: Results, width: nat) {
    Legal(t, results, width) && if ok then Complete(t, results) else Halted(t)
  }

  /** Waiting for batch i: its lines are written, or its failure ends the run. */
  method Collect(t: Trace, i: nat, chunks: seq<seq<Record>>, outputs: Outputs, sources: Sources, width: nat, file: File,
                 ghost results: Results)
    returns (t': Trace, after: File, ok: bool)
    requires AreResults(results, chunks, outputs, sources)
    requires Legal(t, results, width) && !Halted(t) && i in InFlight(t) && i < |chunks|
    requires Busy(t, results, width)
    ensures Legal(t', results, width) && Halted(t') == !ok
    ensures InFlight(t') == InFlight(t) - {i} && Submissions(t') == Submissions(t)
    ensures after == AppendAll(file, if ok then BatchOutput(results, i) else [])
    ensures t'.Then? && t'.before == t && t'.last == if ok then Written(i) else Raised(i)
  {
    var r := EnrichRecords(chunks[i], outputs(i), ATTEMPTS, sources);
    assert r == results[i];
    if r.None? {
      return Then(t, Raised(i)), file, false;
    }
    return Then(t, Written(i)), AppendAll(file, r.value), true;
  }

  /** One batch on its own. */
  method RunOne(t: Trace, k: nat, chunks: seq<seq<Record>>, outputs: Outputs, sources: Sources, file: File,
                ghost results: Results)
    returns (t': Trace, after: File, ok: bool)
    requires AreResults(results, chunks, outputs, sources)
    requires Legal(t, results, 1) && !Halted(t) && InFlight(t) == {} && Submissions(t) == k < |chunks|
    ensures Legal(t', results, 1) && Halted(t') == !ok && InFlight(t') == {} && Submissions(t') == k + 1
    ensures Output(t', results) == Output(t, results) + if ok then BatchOutput(results, k) else []
    ensures after == AppendAll(file, if ok then BatchOutput(results, k) else [])
  {
    var s := Then(t, Submitted(k));
    assert InFlight(s) == {k};
    assert Output(s, results) == Output(t, results) + [] == Output(t, results);
    t', after, ok := Collect(s, k, chunks, outputs, sources, 1, file, results);
  }

  /** One batch after the other. */
  method RunSerially(chunks: seq<seq<Record>>, outputs: Outputs, sources: Sources, file: File,
                     ghost results: Results)
    returns (t: Trace, after: File, ok: bool)
    requires AreResults(results, chunks, outputs, sources)
    ensures Ran(t, ok, results, 1)
    ensures after == AppendAll(file, Output(t, results))
  {
    t, after, ok := Start, file, true;
    for k := 0 to |chunks|
      invariant Legal(t, results, 1) && !Halted(t) && InFlight(t) == {} && Submissions(t) == k
      invariant after == AppendAll(file, Output(t, results))
      invariant ok
    {
      AppendAllTwice(file, Output(t, results), BatchOutput(results, k));
      t, after, ok := RunOne(t, k, chunks, outputs, sources, after, results);
      if !ok {
        return;
      }
    }
  }

  /** `submit_next`. */
  method SubmitNext(t: Trace, n: nat, futures: set<nat>, next: nat, width: nat, ghost results: Results)
    returns (t': Trace, futures': set<nat>, next': nat)
    requires Legal(t, results, width) && !Halted(t) && n == |results|
    requires futures == InFlight(t) && next == Submissions(t) && |futures| < width && next <= n
    ensures Legal(t', results, width) && !Halted(t')
    ensures futures' == InFlight(t') && next' == Submissions(t') <= n
    ensures Output(t', results) == Output(t, results)
    ensures if next == n then t' == t else next' == next + 1 && |futures'| == |futures| + 1
  {
    t', futures', next' := t, futures, next;
    if next < n {
      BatchStatus(t, results, width, next);
      InFlightGrows(futures, next);
      t' := Then(t, Submitted(next));
      futures', next' := futures + {next}, next + 1;
    }
  }

  /** One round of the pool: a completed batch is collected and the next one submitted. */
  method Await(t: Trace, i: nat, chunks: seq<seq<Record>>, outputs: Outputs, sources: Sources, futures: set<nat>, next: nat,
               width: nat, file: File, ghost results: Results)
    returns (t': Trace, after: File, ok: bool, futures': set<nat>, next': nat)
    requires AreResults(results, chunks, outputs, sources)
    requires Legal(t, results, width) && !Halted(t) && Busy(t, results, width)
    requires i in futures && futures == InFlight(t) && next == Submissions(t) <= |chunks|
    ensures Legal(t', results, width) && Halted(t') == !ok
    ensures Output(t', results) == Output(t, results) + if ok then BatchOutput(results, i) else []
    ensures after == AppendAll(file, if ok then BatchOutput(results, i) else [])
    ensures ok ==> futures' == InFlight(t') && next' == Submissions(t') <= |chunks| && Busy(t', results, width)
    ensures ok && next < |chunks| ==> next' == next + 1
    ensures ok && next == |chunks| ==> next' == next && |futures'| < |futures|
  {
    BatchStatus(t, results, width, i);
    InFlightBounded(t, results, width);
    InFlightShrinks(futures, i);
    futures', next' := futures - {i}, next;
    t', after, ok := Collect(t, i, chunks, outputs, sources, width, file, results);
    assert ok ==> Output(t', results) == Output(t, results) + BatchOutput(results, i);
    if ok {
      t', futures', next' := SubmitNext(t', |chunks|, futures', next, width, results);
    }
  }

  /** At most `width` batches at a time, in whatever order they complete. */
  method RunPooled(chunks: seq<seq<Record>>, outputs: Outputs, sources: Sources, width: nat, file: File,
                 ghost results: Results)
    returns (t: Trace, after: File, ok: bool)
    requires AreResults(results, chunks, outputs, sources)
    requires width >= 1
    ensures Ran(t, ok, results, width)
    ensures after == AppendAll(file, Output(t, results))
  {
    var next, futures := 0, {};
    t, after, ok := Start, file, true;
    for k := 0 to if width < |chunks| then width else |chunks|
      invariant Legal(t, results, width) && !Halted(t)
      invariant futures == InFlight(t) && next == Submissions(t) == k == |futures|
      invariant Output(t, results) == []
    {
      t, futures, next := SubmitNext(t, |chunks|, futures, next, width, results);
    }
    while futures != {}
      invariant Legal(t, results, width) && !Halted(t) && Busy(t, results, width)
      invariant futures == InFlight(t) && next == Submissions(t) <= |chunks|
      invariant after == AppendAll(file, Output(t, results))
      invariant ok
      decreases |chunks| - next, |futures|
    {
      var i :| i in futures;
      AppendAllTwice(file, Output(t, results), BatchOutput(results, i));
      t, after, ok, futures, next := Await(t, i, chunks, outputs, sources, futures, next, width, after, results);
      if !ok {
        return;
      }
    }
  }
}
