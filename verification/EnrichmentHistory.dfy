/** Enrichment over many runs: when every key ends up in the file exactly once. */
module EnrichmentHistory {
  import opened Option
  import opened Enrichment
  import opened Scheduler
  import opened EnrichmentRuns

  // ---- Exactly once ----

  /** The file has a key at most once, and so have the records. */
  ghost predicate NoRepeats(file: File) { forall k :: CountLines(file.lines, k) <= 1 }

  ghost predicate DistinctKeys(rs: seq<Record>) { forall k :: CountRecords(rs, k) <= 1 }

  lemma {:induction false} CountedRecord(rs: seq<Record>, r: Record)
    requires r in rs
    ensures CountRecords(rs, KeyOf(r)) > 0
  {
    if r in rs[..|rs| - 1] { CountedRecord(rs[..|rs| - 1], r); }
  }

  lemma {:induction false} NotTodo(rs: seq<Record>, file: seq<Line>, r: Record)
    requires r in rs && Todo(rs, file) == []
    ensures CountLines(file, KeyOf(r)) > 0
  {
    if r in rs[..|rs| - 1] { NotTodo(rs[..|rs| - 1], file, r); }
  }

  lemma OutputNeedsTodo(run: Run, file: File, sources: Sources, e: Enriched)
    requires Possible(run, file, sources) && e in OutputOf(run)
    ensures Todo(run.records, file.lines) != []
  {
    var i, j := OutputIsValid(run.trace, run.results, run.width, run.chunks, run.outputs, sources, e);
    ChunkMember(run.chunks, i, j);
  }

  lemma OutputWhenTodo(run: Run, file: File, sources: Sources)
    requires Possible(run, file, sources) && Completed(run, file)
    ensures OutputOf(run) == [] <==> Todo(run.records, file.lines) == []
  {
    var todo := Todo(run.records, file.lines);
    if todo != [] {
      CountedRecord(todo, todo[0]);
      RunWrites(run, file, sources, KeyOf(todo[0]));
      assert CountLines([], KeyOf(todo[0])) == 0;
    }
    if OutputOf(run) != [] {
      OutputNeedsTodo(run, file, sources, OutputOf(run)[0]);
    }
  }

  /** The first enrichment of a completed run that spoils its file is lost. */
  lemma FirstIsLost(run: Run, file: File, sources: Sources) returns (r: Record)
    requires Possible(run, file, sources) && Completed(run, file) && DistinctKeys(run.records)
    requires Spoils(file) && Todo(run.records, file.lines) != []
    ensures r in run.records && CountLines(Leave(run, file).lines, KeyOf(r)) == 0
  {
    OutputWhenTodo(run, file, sources);
    var out := OutputOf(run);
    var i, j := OutputIsValid(run.trace, run.results, run.width, run.chunks, run.outputs, sources, out[0]);
    r := run.chunks[i][j];
    var k := KeyOf(r);
    ChunkMember(run.chunks, i, j);
    TodoMembers(run.records, file.lines, r);
    TodoIsNew(run.records, file.lines, r);
    RunWrites(run, file, sources, k);
    TodoCount(run.records, file.lines, k);
    assert out[..run.kept] == out;
    CountAppended(file, out, k);
    CountKept(file, k);
    ToLinesFirst(out);
    CountLinesAppend([Entry(out[0])], ToLines(out[1..]), k);
    CountOne(Entry(out[0]), k);
  }

  /** Once a run completes, each of its keys is in the file exactly once if and only if the file
      it started from did not end in an open line, or there was nothing left to write.  (An open
      line of blanks does no harm.) */
  lemma CompletedRunExactly(run: Run, file: File, sources: Sources)
    requires Possible(run, file, sources) && Completed(run, file) && NoRepeats(file) && DistinctKeys(run.records)
    ensures (forall r :: r in run.records ==> CountLines(Leave(run, file).lines, KeyOf(r)) == 1)
       <==> !Spoils(file) || Todo(run.records, file.lines) == []
  {
    if Spoils(file) && Todo(run.records, file.lines) != [] {
      var r := FirstIsLost(run, file, sources);
    } else {
      forall r | r in run.records ensures CountLines(Leave(run, file).lines, KeyOf(r)) == 1 {
        CountedRecord(run.records, r);
        if Spoils(file) {
          OutputWhenTodo(run, file, sources);
          NotTodo(run.records, file.lines, r);
        } else {
          RunAdds(run, file, sources, KeyOf(r));
        }
      }
    }
  }

  /** A key the file does not have is written once exactly when the records have it once. */
  lemma WrittenOnceExactly(run: Run, file: File, sources: Sources, k: Key)
    requires Possible(run, file, sources) && Completed(run, file) && !Spoils(file) && CountLines(file.lines, k) == 0
    ensures CountLines(Leave(run, file).lines, k) == 1 <==> CountRecords(run.records, k) == 1
  {
    RunAdds(run, file, sources, k);
  }

  // ---- Many runs ----

  ghost predicate AllCutsFit(runs: seq<Run>) { forall run :: run in runs ==> CutFits(run) }

  ghost function After(file: File, runs: seq<Run>): File
    requires AllCutsFit(runs)
  {
    if runs == [] then file else Leave(runs[|runs| - 1], After(file, runs[..|runs| - 1]))
  }

  /** Each run starts from the file the ones before it left. */
  ghost predicate AllPossible(file: File, runs: seq<Run>, sources: Sources) {
    && AllCutsFit(runs)
    && (runs != [] ==>
          && AllPossible(file, runs[..|runs| - 1], sources)
          && Possible(runs[|runs| - 1], After(file, runs[..|runs| - 1]), sources))
  }

  ghost predicate AllDistinct(runs: seq<Run>) { forall run :: run in runs ==> DistinctKeys(run.records) }

  /** However runs are cut short, no key is written twice. */
  lemma {:induction false} NeverTwice(file: File, runs: seq<Run>, sources: Sources)
    requires AllPossible(file, runs, sources) && NoRepeats(file) && AllDistinct(runs)
    ensures NoRepeats(After(file, runs))
  {
    if runs != [] {
      var front, last := runs[..|runs| - 1], runs[|runs| - 1];
      NeverTwice(file, front, sources);
      assert last in runs;
      forall k ensures CountLines(After(file, runs).lines, k) <= 1 { RunAdds(last, After(file, front), sources, k); }
    }
  }

  /** Whatever runs were cut short before, a run that completes leaves each of its keys in the
      file exactly once if and only if the file it found did not end in an open line, or there was
      nothing left to write. */
  lemma CompletedRunWritesOnce(file: File, runs: seq<Run>, sources: Sources)
    requires AllPossible(file, runs, sources) && runs != [] && NoRepeats(file) && AllDistinct(runs)
    requires Completed(runs[|runs| - 1], After(file, runs[..|runs| - 1]))
    ensures
      var last, found := runs[|runs| - 1], After(file, runs[..|runs| - 1]);
      (forall r :: r in last.records ==> CountLines(After(file, runs).lines, KeyOf(r)) == 1)
      <==> !Spoils(found) || Todo(last.records, found.lines) == []
  {
    var front, last := runs[..|runs| - 1], runs[|runs| - 1];
    assert last in runs;
    NeverTwice(file, front, sources);
    CompletedRunExactly(last, After(file, front), sources);
  }

  /** Only a cut between a text and its line break leaves an open line that can be read. */
  lemma {:induction false} OpenOnlyWhenUnended(file: File, runs: seq<Run>, sources: Sources)
    requires AllPossible(file, runs, sources) && !Spoils(file)
    requires forall run :: run in runs ==> !run.cut.Unended?
    ensures Readable(After(file, runs)) ==> !Spoils(After(file, runs))
  {
    if runs != [] {
      var front, last := runs[..|runs| - 1], runs[|runs| - 1];
      var found := After(file, front);
      OpenOnlyWhenUnended(file, front, sources);
      assert last in runs;
      if Readable(found) {
        AppendedIsClosed(found, OutputOf(last)[..last.kept]);
        if last.cut.Torn? {
          var torn := Leave(last, found);
          assert torn.lines[|torn.lines| - 1].Garbage? && torn.lines[|torn.lines| - 1] in torn.lines;
        }
      }
    }
  }

  /** So when no run is cut there, a completed run leaves each of its keys exactly once. */
  lemma OnceUnlessUnended(file: File, runs: seq<Run>, sources: Sources, r: Record)
    requires AllPossible(file, runs, sources) && runs != [] && NoRepeats(file) && AllDistinct(runs)
    requires Completed(runs[|runs| - 1], After(file, runs[..|runs| - 1])) && !Spoils(file)
    requires forall run :: run in runs ==> !run.cut.Unended?
    requires r in runs[|runs| - 1].records
    ensures CountLines(After(file, runs).lines, KeyOf(r)) == 1
  {
    OpenOnlyWhenUnended(file, runs[..|runs| - 1], sources);
    CompletedRunWritesOnce(file, runs, sources);
  }

  lemma AppendedEntries(f: File, es: seq<Enriched>, e: Enriched)
    requires Entry(e) in AppendAll(f, es).lines
    ensures Entry(e) in f.lines || e in es
  {
    if es != [] {
      if Entry(e) in ToLines(es[1..]) {
        var i :| 0 <= i < |es[1..]| && ToLines(es[1..])[i] == Entry(e);
        assert es[i + 1] == e;
      }
    }
  }

  lemma LeftEntries(run: Run, file: File, e: Enriched)
    requires CutFits(run) && Entry(e) in Leave(run, file).lines
    ensures Entry(e) in file.lines || e in OutputOf(run)
  {
    if Readable(file) {
      var out := OutputOf(run);
      var g := AppendAll(file, out[..run.kept]);
      if Entry(e) in g.lines {
        AppendedEntries(file, out[..run.kept], e);
      } else if run.cut.Unended? {
        AppendedEntries(g, [out[run.kept..][0]], e);
      }
    }
  }

  /** Whatever the model returns, an enrichment in the file was there before or has been
      validated against a record of one of the runs. */
  lemma {:induction false} AllValidated(file: File, runs: seq<Run>, sources: Sources, e: Enriched)
    requires AllPossible(file, runs, sources) && Entry(e) in After(file, runs).lines && Entry(e) !in file.lines
    ensures exists run, r :: run in runs && r in run.records && IsSound(e, r, sources)
  {
    var run, front := runs[|runs| - 1], runs[..|runs| - 1];
    var before := After(file, front);
    if Entry(e) in before.lines {
      AllValidated(file, front, sources, e);
      var q, r :| q in front && r in q.records && IsSound(e, r, sources);
      assert q in runs;
    } else {
      LeftEntries(run, before, e);
      var i, j := OutputIsValid(run.trace, run.results, run.width, run.chunks, run.outputs, sources, e);
      ChunkMember(run.chunks, i, j);
      TodoMembers(run.records, before.lines, run.chunks[i][j]);
      assert run in runs;
    }
  }

  /** A line that is refused stops every later run: the file must be repaired by hand. */
  lemma {:induction false} TornLineStopsRuns(file: File, runs: seq<Run>, sources: Sources)
    requires AllPossible(file, runs, sources) && !Readable(file)
    ensures After(file, runs) == file
    ensures forall run :: !Completed(run, After(file, runs))
  {
    if runs != [] { TornLineStopsRuns(file, runs[..|runs| - 1], sources); }
  }

  // ---- Instances ----

  function AnswerOnly(e: Enriched): seq<Answer> { [Some([e]), Some([]), Some([])] }

  /** A model that answers a batch of one record at the first call. */
  lemma OneAnswer(r: Record, e: Enriched, sources: Sources)
    requires IsSound(e, r, sources)
    ensures EnrichBatch([r], AnswerOnly(e), ATTEMPTS, sources) == Some([e])
  {
    var outputs := AnswerOnly(e);
    assert Usable(outputs, 1) == 1 && Usable(outputs, 2) == 2 && Usable(outputs, 3) == 3;
    assert Answers(outputs, 1) == [] + [e] && Answers(outputs, 2) == [e] && Answers(outputs, 3) == [e];
    assert [e][..0] == [];
    assert FirstValid(r, [e], sources) == Some(e);
    assert EnrichBatch([r], outputs, ATTEMPTS, sources).value == [e];
  }

  /** The first n batches, one after the other. */
  function Serial(n: nat): Trace {
    if n == 0 then Start else Then(Then(Serial(n - 1), Submitted(n - 1)), Written(n - 1))
  }

  function Ones(es: seq<Enriched>): Results { seq(|es|, i requires 0 <= i < |es| => Some([es[i]])) }

  lemma SerialStep(t: Trace, es: seq<Enriched>, n: nat)
    requires n < |es| && Legal(t, Ones(es), 1) && InFlight(t) == {} && Submissions(t) == n && !Halted(t)
    ensures
      var u := Then(Then(t, Submitted(n)), Written(n));
      Legal(u, Ones(es), 1) && InFlight(u) == {} && Submissions(u) == n + 1 && !Halted(u)
  {
    var s := Then(t, Submitted(n));
    assert InFlight(s) == {n} && Legal(s, Ones(es), 1) && !Halted(s);
    assert Busy(s, Ones(es), 1) && Ones(es)[n].Some?;
  }

  lemma {:induction false} SerialIsLegal(es: seq<Enriched>, n: nat)
    requires n <= |es|
    ensures Legal(Serial(n), Ones(es), 1) && InFlight(Serial(n)) == {} && Submissions(Serial(n)) == n && !Halted(Serial(n))
  {
    if n > 0 {
      SerialIsLegal(es, n - 1);
      SerialStep(Serial(n - 1), es, n - 1);
    }
  }

  lemma {:induction false} SerialOutput(es: seq<Enriched>, n: nat)
    requires n <= |es|
    ensures Output(Serial(n), Ones(es)) == es[..n]
  {
    if n > 0 {
      SerialOutput(es, n - 1);
      assert es[..n] == es[..n - 1] + [] + [es[n - 1]];
    }
  }

  function Singles(rs: seq<Record>): seq<seq<Record>> { seq(|rs|, i requires 0 <= i < |rs| => [rs[i]]) }

  lemma {:induction false} FlattenSingles(rs: seq<Record>)
    ensures Flatten(Singles(rs)) == rs
  {
    if rs != [] {
      assert Singles(rs)[..|rs| - 1] == Singles(rs[..|rs| - 1]);
      FlattenSingles(rs[..|rs| - 1]);
      assert rs == rs[..|rs| - 1] + [rs[|rs| - 1]];
    }
  }

  function AnswersOf(es: seq<Enriched>): Outputs {
    (i: nat) => if i < |es| then AnswerOnly(es[i]) else [None, None, None]
  }

  /** A run with --batch-size 1 that has written the first n of the enrichments es for what is
      left to do, all but the last perhaps whole. */
  function OneByOne(rs: seq<Record>, todo: seq<Record>, es: seq<Enriched>, n: nat, kept: nat, cut: Cut): Run {
    Run(rs, 1, Singles(todo), 1, AnswersOf(es), Ones(es), Serial(n), kept, cut)
  }

  lemma OneByOneResults(todo: seq<Record>, es: seq<Enriched>, sources: Sources)
    requires AnswersEach(es, todo, sources)
    ensures AreResults(Ones(es), Singles(todo), AnswersOf(es), sources)
  {
    forall i | 0 <= i < |todo| ensures EnrichBatch([todo[i]], AnswersOf(es)(i), ATTEMPTS, sources) == Some([es[i]]) {
      OneAnswer(todo[i], es[i], sources);
    }
    assert forall i: nat :: |AnswersOf(es)(i)| == 3;
  }

  lemma OneByOnePossible(rs: seq<Record>, file: File, es: seq<Enriched>, n: nat, kept: nat, cut: Cut, sources: Sources)
    requires AnswersEach(es, Todo(rs, file.lines), sources)
    requires kept <= n <= |es| && (!cut.Clean? ==> kept < n)
    ensures
      var run := OneByOne(rs, Todo(rs, file.lines), es, n, kept, cut);
      && Possible(run, file, sources) && OutputOf(run) == es[..n]
      && (n == |es| ==> Complete(run.trace, run.results))
  {
    SerialIsLegal(es, n);
    SerialOutput(es, n);
    FlattenSingles(Todo(rs, file.lines));
    OneByOneResults(Todo(rs, file.lines), es, sources);
  }

  lemma TodoFromNothing(a: Record, b: Record)
    ensures Todo([a, b], []) == [a, b]
  {
    assert [a, b][..1] == [a] && [a][..0] == [];
    assert Todo([a], []) == [] + [a];
  }

  /** One symbol given twice, with --batch-size 1: it is written twice. */
  lemma RepeatedInstance(r: Record, e: Enriched, sources: Sources) returns (run: Run)
    requires IsSound(e, r, sources)
    ensures run.records == [r, r] && run.size == 1
    ensures Possible(run, File([], false), sources) && Completed(run, File([], false))
    ensures CountLines(Leave(run, File([], false)).lines, KeyOf(r)) == 2
  {
    var file := File([], false);
    TodoFromNothing(r, r);
    run := OneByOne([r, r], [r, r], [e, e], 2, 2, Clean);
    OneByOnePossible([r, r], file, [e, e], 2, 2, Clean, sources);
    RunAdds(run, file, sources, KeyOf(r));
    assert [r, r][..1] == [r] && [r][..0] == [];
  }

  lemma UnendedFirst(a: Record, b: Record, ea: Enriched, eb: Enriched, sources: Sources) returns (run: Run)
    requires IsSound(ea, a, sources) && IsSound(eb, b, sources)
    ensures run.records == [a, b] && Possible(run, File([], false), sources)
    ensures Leave(run, File([], false)) == File([Entry(ea)], true)
  {
    var empty := File([], false);
    TodoFromNothing(a, b);
    run := OneByOne([a, b], [a, b], [ea, eb], 1, 0, Unended);
    OneByOnePossible([a, b], empty, [ea, eb], 1, 0, Unended, sources);
    assert [ea, eb][..1] == [ea] && [ea][..0] == [] && [ea][0..] == [ea] && [ea][1..] == [];
    assert AppendAll(empty, [ea]).lines == [Entry(ea)];
  }

  lemma UnendedSecond(a: Record, b: Record, ea: Enriched, eb: Enriched, sources: Sources) returns (run: Run)
    requires a.symbol != b.symbol && IsSound(ea, a, sources) && IsSound(eb, b, sources)
    ensures run.records == [a, b]
    ensures Possible(run, File([Entry(ea)], true), sources) && Completed(run, File([Entry(ea)], true))
    ensures Leave(run, File([Entry(ea)], true)) == File([Garbage], false)
  {
    var left := File([Entry(ea)], true);
    TodoAfterFirst(a, b, ea);
    run := OneByOne([a, b], [b], [eb], 1, 1, Clean);
    OneByOnePossible([a, b], left, [eb], 1, 1, Clean, sources);
    assert [eb][..1] == [eb] && [eb][1..] == [];
    assert Kept(left) == [];
    assert AppendAll(left, [eb]).lines == [Garbage];
  }

  /** A run killed between the first text and its line break, and one that then completes: both
      enrichments are lost, and later runs refuse the file. */
  lemma UnendedInstance(a: Record, b: Record, ea: Enriched, eb: Enriched, sources: Sources) returns (first: Run, second: Run)
    requires a.symbol != b.symbol && IsSound(ea, a, sources) && IsSound(eb, b, sources)
    ensures first.records == second.records == [a, b]
    ensures AllPossible(File([], false), [first, second], sources)
    ensures Completed(second, After(File([], false), [first]))
    ensures After(File([], false), [first]) == File([Entry(ea)], true)
    ensures After(File([], false), [first, second]) == File([Garbage], false)
  {
    first := UnendedFirst(a, b, ea, eb, sources);
    second := UnendedSecond(a, b, ea, eb, sources);
    TwoRuns(File([], false), first, second, sources);
  }

  lemma OneMore(file: File, runs: seq<Run>, run: Run, sources: Sources)
    requires AllPossible(file, runs, sources) && Possible(run, After(file, runs), sources)
    ensures AllPossible(file, runs + [run], sources)
    ensures After(file, runs + [run]) == Leave(run, After(file, runs))
  {
    var all := runs + [run];
    assert all[..|all| - 1] == runs && all[|all| - 1] == run;
    assert forall q :: q in all ==> q in runs || q == run;
  }

  lemma TwoRuns(file: File, first: Run, second: Run, sources: Sources)
    requires Possible(first, file, sources) && Possible(second, Leave(first, file), sources)
    ensures AllPossible(file, [first, second], sources)
    ensures After(file, [first]) == Leave(first, file) && After(file, [first, second]) == Leave(second, Leave(first, file))
  {
    OneMore(file, [], first, sources);
    assert [] + [first] == [first];
    OneMore(file, [first], second, sources);
    assert [first] + [second] == [first, second];
  }

  lemma TodoAfterFirst(a: Record, b: Record, ea: Enriched)
    requires a.symbol != b.symbol && ea.symbol == a.symbol && ea.factHash == a.factHash
    ensures Todo([a, b], [Entry(ea)]) == [b]
  {
    CountOne(Entry(ea), KeyOf(a));
    CountOne(Entry(ea), KeyOf(b));
    assert [a, b][..1] == [a] && [a][..0] == [];
    assert Todo([a], [Entry(ea)]) == [] + [];
  }
}
