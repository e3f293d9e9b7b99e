/** Enrichment over several runs: what a run leaves in the file, whether it completes, fails
    or is killed, and what the next one still has to do. */
module EnrichmentRuns {
  import opened Option
  import opened Enrichment
  import opened Scheduler

  type Key = (string, string)

  function KeyOf(r: Record): Key { (r.symbol, r.factHash) }

  predicate IsEntryFor(l: Line, k: Key) { l.Entry? && l.e.symbol == k.0 && l.e.factHash == k.1 }

  /** How often a key is in the file. */
  function CountLines(ls: seq<Line>, k: Key): nat {
    if ls == [] then 0
    else CountLines(ls[..|ls| - 1], k) + if IsEntryFor(ls[|ls| - 1], k) then 1 else 0
  }

  function CountRecords(rs: seq<Record>, k: Key): nat {
    if rs == [] then 0
    else CountRecords(rs[..|rs| - 1], k) + if KeyOf(rs[|rs| - 1]) == k then 1 else 0
  }

  lemma {:induction false} CountLinesAppend(a: seq<Line>, b: seq<Line>, k: Key)
    ensures CountLines(a + b, k) == CountLines(a, k) + CountLines(b, k)
  {
    if b == [] {
      assert a + b == a;
    } else {
      assert (a + b)[..|a + b| - 1] == a + b[..|b| - 1];
      CountLinesAppend(a, b[..|b| - 1], k);
    }
  }

  lemma {:induction false} CountRecordsAppend(a: seq<Record>, b: seq<Record>, k: Key)
    ensures CountRecords(a + b, k) == CountRecords(a, k) + CountRecords(b, k)
  {
    if b == [] {
      assert a + b == a;
    } else {
      assert (a + b)[..|a + b| - 1] == a + b[..|b| - 1];
      CountRecordsAppend(a, b[..|b| - 1], k);
    }
  }

  /** A batch puts each key into the file as often as its records have it. */
  lemma {:induction false} BatchCount(es: seq<Enriched>, rs: seq<Record>, sources: Sources, k: Key)
    requires AnswersEach(es, rs, sources)
    ensures CountLines(ToLines(es), k) == CountRecords(rs, k)
  {
    if rs != [] {
      BatchCount(es[..|es| - 1], rs[..|rs| - 1], sources, k);
      assert ToLines(es)[..|es| - 1] == ToLines(es[..|es| - 1]);
    }
  }

  // ---- What is left to do ----

  /** A line at which the command stops: text that is not JSON is refused with a message, and
      JSON that is no object makes the look-up of its keys raise. */
  predicate Refused(l: Line) { l.Garbage? || l.NotObject? }

  predicate Readable(f: File) { forall l :: l in f.lines ==> !Refused(l) }

  /** The records whose key is not in the file. */
  function Todo(rs: seq<Record>, file: seq<Line>): seq<Record> {
    if rs == [] then []
    else
      var last := rs[|rs| - 1];
      Todo(rs[..|rs| - 1], file) + if CountLines(file, KeyOf(last)) == 0 then [last] else []
  }

  lemma {:induction false} TodoCount(rs: seq<Record>, file: seq<Line>, k: Key)
    ensures CountRecords(Todo(rs, file), k) == if CountLines(file, k) == 0 then CountRecords(rs, k) else 0
  {
    if rs != [] {
      var last := rs[|rs| - 1];
      TodoCount(rs[..|rs| - 1], file, k);
      var added := if CountLines(file, KeyOf(last)) == 0 then [last] else [];
      CountRecordsAppend(Todo(rs[..|rs| - 1], file), added, k);
      assert [last][..0] == [];
    }
  }

  lemma {:induction false} TodoMembers(rs: seq<Record>, file: seq<Line>, r: Record)
    requires r in Todo(rs, file)
    ensures r in rs
  {
    if r in Todo(rs[..|rs| - 1], file) { TodoMembers(rs[..|rs| - 1], file, r); }
  }

  lemma {:induction false} TodoIsNew(rs: seq<Record>, file: seq<Line>, r: Record)
    requires r in Todo(rs, file)
    ensures CountLines(file, KeyOf(r)) == 0
  {
    if r in Todo(rs[..|rs| - 1], file) { TodoIsNew(rs[..|rs| - 1], file, r); }
  }

  /** The keys already in the file; None when it is refused. */
  method ExistingKeys(file: File) returns (keys: Option<set<Key>>)
    ensures keys.None? <==> !Readable(file)
    ensures keys.Some? ==> forall k :: k in keys.value <==> CountLines(file.lines, k) > 0
  {
    var existing: set<Key> := {};
    var ls := file.lines;
    for n := 0 to |ls|
      invariant forall l :: l in ls[..n] ==> !Refused(l)
      invariant forall k :: k in existing <==> CountLines(ls[..n], k) > 0
    {
      assert ls[..n + 1][..n] == ls[..n] && ls[n] in ls;
      match ls[n] {
        case Garbage => return None;
        case NotObject => return None;
        case Blank =>
        case Other =>
        case Entry(e) => existing := existing + {(e.symbol, e.factHash)};
      }
    }
    assert ls[..|ls|] == ls;
    return Some(existing);
  }

  method Unfinished(rs: seq<Record>, existing: set<Key>, ghost file: seq<Line>) returns (todo: seq<Record>)
    requires forall k :: k in existing <==> CountLines(file, k) > 0
    ensures todo == Todo(rs, file)
  {
    todo := [];
    for n := 0 to |rs|
      invariant todo == Todo(rs[..n], file)
    {
      assert rs[..n + 1][..n] == rs[..n];
      if KeyOf(rs[n]) !in existing {
        todo := todo + [rs[n]];
      }
    }
    assert rs[..|rs|] == rs;
  }

  function Flatten(chunks: seq<seq<Record>>): seq<Record> {
    if chunks == [] then [] else Flatten(chunks[..|chunks| - 1]) + chunks[|chunks| - 1]
  }

  /** All records in order, in batches of the given size, the last one perhaps smaller. */
  predicate IsChunking(chunks: seq<seq<Record>>, rs: seq<Record>, size: nat) {
    && Flatten(chunks) == rs
    && forall i :: 0 <= i < |chunks| ==> 0 < |chunks[i]| <= size && (i < |chunks| - 1 ==> |chunks[i]| == size)
  }

  method Chunked(rs: seq<Record>, size: nat) returns (chunks: seq<seq<Record>>)
    requires size >= 1
    ensures IsChunking(chunks, rs, size)
  {
    chunks := [];
    var start := 0;
    while start < |rs|
      invariant start <= |rs| && Flatten(chunks) == rs[..start]
      invariant forall i :: 0 <= i < |chunks| ==> 0 < |chunks[i]| <= size && (start < |rs| || i < |chunks| - 1 ==> |chunks[i]| == size)
    {
      var end := if start + size <= |rs| then start + size else |rs|;
      assert (chunks + [rs[start..end]])[..|chunks|] == chunks;
      assert rs[..start] + rs[start..end] == rs[..end];
      chunks := chunks + [rs[start..end]];
      start := end;
    }
    assert rs[..start] == rs;
  }

  // ---- One run ----

  /** Where a run stopped writing: between two enrichments, inside the text of one, or between
      the text and its line break. */
  datatype Cut = Clean | Torn | Unended

  /** A run: its records and batches, what the model returned, the schedule as far as it got,
      how many of its enrichments reached the file whole, and how the next one did. */
  datatype Run = Run(
    records: seq<Record>,
    size: nat,
    chunks: seq<seq<Record>>,
    width: nat,
    outputs: Outputs,
    results: Results,
    trace: Trace,
    kept: nat,
    cut: Cut)

  function OutputOf(run: Run): seq<Enriched> { Output(run.trace, run.results) }

  predicate CutFits(run: Run) {
    run.kept <= |OutputOf(run)| && (!run.cut.Clean? ==> run.kept < |OutputOf(run)|)
  }

  ghost predicate Possible(run: Run, file: File, sources: Sources) {
    && IsChunking(run.chunks, Todo(run.records, file.lines), run.size)
    && AreResults(run.results, run.chunks, run.outputs, sources)
    && Legal(run.trace, run.results, run.width)
    && CutFits(run)
  }

  /** Part of an enrichment's text is never JSON; without its break the last line stays open. */
  function CutOff(f: File, cut: Cut, next: seq<Enriched>): File
    requires !cut.Clean? ==> next != []
  {
    match cut
    case Clean => f
    case Torn => File(Kept(f) + [Garbage], true)
    case Unended => AppendAll(f, [next[0]]).(open := true)
  }

  /** The file after the run; a file with a line that is refused is left alone. */
  function Leave(run: Run, file: File): File
    requires CutFits(run)
  {
    if !Readable(file) then file
    else CutOff(AppendAll(file, OutputOf(run)[..run.kept]), run.cut, OutputOf(run)[run.kept..])
  }

  /** The run got to its end. */
  predicate Completed(run: Run, file: File) {
    && Readable(file)
    && Complete(run.trace, run.results)
    && run.kept == |OutputOf(run)|
    && run.cut.Clean?
  }

  datatype Status = BadParameter | BadFile | Failed | Finished

  /** `inventory_enrich` without --offline, for records already selected; `run` is the run it
      amounts to. */
  method InventoryEnrich(rs: seq<Record>, file: File, batchSize: int, jobs: int, force: bool, outputs: Outputs, sources: Sources)
    returns (status: Status, after: File, ghost run: Run)
    requires forall i :: |outputs(i)| >= ATTEMPTS
    ensures status.BadParameter? <==> batchSize < 1 || jobs < 1
    ensures status.BadFile? <==> batchSize >= 1 && jobs >= 1 && !force && !Readable(file)
    ensures status.BadParameter? || status.BadFile? ==> after == file
    ensures status.Failed? || status.Finished? ==>
      && run.records == rs && run.width <= jobs && CutFits(run)
      && IsChunking(run.chunks, if force then rs else Todo(rs, file.lines), run.size)
      && AreResults(run.results, run.chunks, run.outputs, sources)
      && Ran(run.trace, status.Finished?, run.results, run.width)
      && after == AppendAll(file, OutputOf(run))
    ensures (status.Failed? || status.Finished?) && !force ==>
      && Possible(run, file, sources) && after == Leave(run, file)
      && (status.Finished? ==> Completed(run, file))
  {
    run := Run(rs, 0, [], 0, outputs, [], Start, 0, Clean);
    if batchSize < 1 || jobs < 1 {
      return BadParameter, file, run;
    }
    var todo := rs;
    if !force {
      var existing := ExistingKeys(file);
      if existing.None? {
        return BadFile, file, run;
      }
      todo := Unfinished(rs, existing.value, file.lines);
    }
    var chunks := Chunked(todo, batchSize);
    ghost var results := seq(|chunks|, i requires 0 <= i < |chunks| => EnrichBatch(chunks[i], outputs(i), ATTEMPTS, sources));
    var t, ok;
    var width := if jobs == 1 || |chunks| <= 1 then 1 else jobs;
    if width == 1 {
      t, after, ok := RunSerially(chunks, outputs, sources, file, results);
    } else {
      t, after, ok := RunPooled(chunks, outputs, sources, jobs, file, results);
    }
    ghost var out := Output(t, results);
    assert out[..|out|] == out;
    run := Run(rs, batchSize, chunks, width, outputs, results, t, |out|, Clean);
    status := if ok then Finished else Failed;
  }

  // ---- How often a key is written ----

  /** Occurrences of k in the first n batches that have been written. */
  function WrittenCount(t: Trace, chunks: seq<seq<Record>>, k: Key, n: nat): nat
    requires n <= |chunks|
  {
    if n == 0 then 0
    else WrittenCount(t, chunks, k, n - 1) + if Times(t, Written(n - 1)) > 0 then CountRecords(chunks[n - 1], k) else 0
  }

  lemma {:induction false} WrittenCountStep(t: Trace, e: Event, chunks: seq<seq<Record>>, k: Key, n: nat)
    requires n <= |chunks| && (e.Written? ==> Times(t, e) == 0)
    ensures WrittenCount(Then(t, e), chunks, k, n) ==
      WrittenCount(t, chunks, k, n) + if e.Written? && e.i < n then CountRecords(chunks[e.i], k) else 0
  {
    if n > 0 { WrittenCountStep(t, e, chunks, k, n - 1); }
  }

  lemma {:induction false} WrittenCountStart(chunks: seq<seq<Record>>, k: Key, n: nat)
    requires n <= |chunks|
    ensures WrittenCount(Start, chunks, k, n) == 0
  {
    if n > 0 { WrittenCountStart(chunks, k, n - 1); }
  }

  lemma {:induction false} WrittenCountTotal(t: Trace, chunks: seq<seq<Record>>, k: Key, n: nat)
    requires n <= |chunks|
    ensures WrittenCount(t, chunks, k, n) <= CountRecords(Flatten(chunks[..n]), k)
    ensures (forall i :: 0 <= i < n ==> Times(t, Written(i)) > 0) ==>
      WrittenCount(t, chunks, k, n) == CountRecords(Flatten(chunks[..n]), k)
  {
    if n > 0 {
      WrittenCountTotal(t, chunks, k, n - 1);
      assert chunks[..n][..n - 1] == chunks[..n - 1];
      CountRecordsAppend(Flatten(chunks[..n - 1]), chunks[n - 1], k);
    }
  }

  /** The lines of a schedule hold k as often as the batches written so far. */
  lemma {:induction false} LinesCount(t: Trace, results: Results, width: nat, chunks: seq<seq<Record>>, outputs: Outputs,
                                      sources: Sources, k: Key)
    requires Legal(t, results, width) && AreResults(results, chunks, outputs, sources)
    ensures CountLines(ToLines(Output(t, results)), k) == WrittenCount(t, chunks, k, |chunks|)
  {
    match t
    case Start => WrittenCountStart(chunks, k, |chunks|);
    case Then(b, e) =>
      LinesCount(b, results, width, chunks, outputs, sources, k);
      if e.Written? {
        BatchStatus(b, results, width, e.i);
        BatchIsValid(chunks[e.i], outputs(e.i), ATTEMPTS, sources);
        BatchCount(results[e.i].value, chunks[e.i], sources, k);
        ToLinesConcat(Output(b, results), BatchOutput(results, e.i));
        CountLinesAppend(ToLines(Output(b, results)), ToLines(BatchOutput(results, e.i)), k);
      } else {
        assert Output(b, results) + [] == Output(b, results);
      }
      WrittenCountStep(b, e, chunks, k, |chunks|);
  }

  /** What a run has written, against what was left to do. */
  lemma RunWrites(run: Run, file: File, sources: Sources, k: Key)
    requires Possible(run, file, sources)
    ensures
      var written := CountLines(ToLines(OutputOf(run)), k);
      written <= CountRecords(Todo(run.records, file.lines), k) &&
      (Complete(run.trace, run.results) ==> written == CountRecords(Todo(run.records, file.lines), k))
  {
    LinesCount(run.trace, run.results, run.width, run.chunks, run.outputs, sources, k);
    WrittenCountTotal(run.trace, run.chunks, k, |run.chunks|);
    assert run.chunks[..|run.chunks|] == run.chunks;
    if Complete(run.trace, run.results) {
      forall i | 0 <= i < |run.chunks| ensures Times(run.trace, Written(i)) > 0 {
        CompleteWritesEach(run.trace, run.results, run.width, i);
      }
    }
  }

  // ---- Appending behind an open line ----

  /** Appending would destroy the last line. */
  predicate Spoils(f: File) { Joins(f) && !f.lines[|f.lines| - 1].Blank? }

  lemma CountOne(l: Line, k: Key)
    ensures CountLines([l], k) == if IsEntryFor(l, k) then 1 else 0
  {
    assert [l][..0] == [];
  }

  lemma CountKept(f: File, k: Key)
    ensures CountLines(Kept(f), k) <= CountLines(f.lines, k)
    ensures !Spoils(f) ==> CountLines(Kept(f), k) == CountLines(f.lines, k)
  {
  }

  /** How often a key is in the file after an append; an open line that is not blank is lost
      together with the first enrichment. */
  lemma CountAppended(f: File, es: seq<Enriched>, k: Key)
    ensures
      var n, m := CountLines(AppendAll(f, es).lines, k), CountLines(ToLines(es), k);
      if es == [] || !Spoils(f) then n == CountLines(f.lines, k) + m
      else
        n == CountLines(Kept(f), k) + CountLines(ToLines(es[1..]), k) &&
        n <= CountLines(f.lines, k) + m
  {
    if es != [] {
      var first := FirstAppended(f, es[0]);
      CountKept(f, k);
      ToLinesFirst(es);
      CountLinesAppend([first], ToLines(es[1..]), k);
      CountLinesAppend([Entry(es[0])], ToLines(es[1..]), k);
      CountLinesAppend(Kept(f), [first] + ToLines(es[1..]), k);
      CountOne(first, k);
      CountOne(Entry(es[0]), k);
    }
  }

  lemma CountTorn(f: File, k: Key)
    ensures CountLines(Kept(f) + [Garbage], k) <= CountLines(f.lines, k)
    ensures !Spoils(f) ==> CountLines(Kept(f) + [Garbage], k) == CountLines(f.lines, k)
  {
    CountKept(f, k);
    CountLinesAppend(Kept(f), [Garbage], k);
    CountOne(Garbage, k);
  }

  lemma CountSplit(es: seq<Enriched>, n: nat, k: Key)
    requires n <= |es|
    ensures CountLines(ToLines(es), k) == CountLines(ToLines(es[..n]), k) + CountLines(ToLines(es[n..]), k)
  {
    assert es == es[..n] + es[n..];
    ToLinesConcat(es[..n], es[n..]);
    CountLinesAppend(ToLines(es[..n]), ToLines(es[n..]), k);
  }

  /** An enrichment without its line break counts like one with it. */
  lemma CountUnended(g: File, e: Enriched, k: Key)
    ensures
      var n := CountLines(AppendAll(g, [e]).(open := true).lines, k);
      && n <= CountLines(g.lines, k) + CountLines(ToLines([e]), k)
      && (!Spoils(g) ==> CountLines(g.lines, k) <= n)
  {
    CountAppended(g, [e], k);
  }

  /** A cut adds at most the enrichments before it and the one it cut. */
  lemma CountCutOff(f: File, es: seq<Enriched>, kept: nat, cut: Cut, k: Key)
    requires kept <= |es| && (!cut.Clean? ==> kept < |es|)
    ensures
      var n := CountLines(CutOff(AppendAll(f, es[..kept]), cut, es[kept..]).lines, k);
      && n <= CountLines(f.lines, k) + CountLines(ToLines(es), k)
      && (!Spoils(f) ==> CountLines(f.lines, k) <= n)
  {
    var g, rest := AppendAll(f, es[..kept]), es[kept..];
    CountSplit(es, kept, k);
    CountAppended(f, es[..kept], k);
    AppendedIsClosed(f, es[..kept]);
    match cut
    case Clean =>
    case Torn => CountTorn(g, k);
    case Unended =>
      CountUnended(g, rest[0], k);
      CountSplit(rest, 1, k);
      assert rest[..1] == [rest[0]];
  }

  lemma AppendedIsClosed(f: File, es: seq<Enriched>)
    ensures !Spoils(f) ==> !Spoils(AppendAll(f, es))
  {
  }

  /** A run adds a key at most as often as its records have it, and not at all when the file
      has it already; a completed run on a file it does not spoil adds it exactly that often. */
  lemma RunAdds(run: Run, file: File, sources: Sources, k: Key)
    requires Possible(run, file, sources)
    ensures
      var before, after := CountLines(file.lines, k), CountLines(Leave(run, file).lines, k);
      var due := if before == 0 then CountRecords(run.records, k) else 0;
      && after <= before + due
      && (!Spoils(file) ==> before <= after)
      && (!Spoils(file) && Completed(run, file) ==> after == before + due)
  {
    var out := OutputOf(run);
    RunWrites(run, file, sources, k);
    TodoCount(run.records, file.lines, k);
    CountCutOff(file, out, run.kept, run.cut, k);
    if Completed(run, file) {
      assert out[..run.kept] == out;
      CountAppended(file, out, k);
    }
  }

  /** Every enrichment a schedule writes is valid for a record of its batches. */
  lemma {:induction false} OutputIsValid(t: Trace, results: Results, width: nat, chunks: seq<seq<Record>>,
                                         outputs: Outputs, sources: Sources, e: Enriched) returns (i: nat, j: nat)
    requires Legal(t, results, width) && AreResults(results, chunks, outputs, sources) && e in Output(t, results)
    ensures i < |chunks| && j < |chunks[i]| && IsSound(e, chunks[i][j], sources)
  {
    if e in Output(t.before, results) {
      i, j := OutputIsValid(t.before, results, width, chunks, outputs, sources, e);
    } else {
      i := t.last.i;
      BatchIsValid(chunks[i], outputs(i), ATTEMPTS, sources);
      j :| 0 <= j < |results[i].value| && results[i].value[j] == e;
    }
  }

  lemma {:induction false} ChunkMember(chunks: seq<seq<Record>>, i: nat, j: nat)
    requires i < |chunks| && j < |chunks[i]|
    ensures chunks[i][j] in Flatten(chunks)
  {
    if i < |chunks| - 1 { ChunkMember(chunks[..|chunks| - 1], i, j); }
  }
}
