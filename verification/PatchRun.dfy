/** The context manager that patches the source tree and restores it, in place: every run of
    it is a run of the state machine in PatchProtocol. */
module PatchRun {
  import opened Option
  import opened PatchProtocol

  /** The steps so far lead from the state `first`, in a run begun on the files `start`, to s. */
  ghost predicate Follows(r: Rules, start: Files, first: State, events: seq<Event>, s: State) {
    && !s.phase.Idle?
    && Exec(r, first, events) == Some(s)
    && RunInv(start, s)
    && forall e :: e in events ==> !e.Kill? && !e.Finish?
  }

  lemma ExecOne(r: Rules, s: State, e: Event)
    ensures Exec(r, s, [e]) == Step(r, s, e)
  {
    assert [e][1..] == [];
  }

  lemma Advance(r: Rules, start: Files, first: State, events: seq<Event>, s: State, e: Event)
    requires Follows(r, start, first, events, s) && Step(r, s, e).Some? && !e.Kill? && !e.Finish?
    ensures Follows(r, start, first, events + [e], Step(r, s, e).value)
  {
    ExecAppend(r, first, events, [e]);
    ExecOne(r, s, e);
    StepKeepsRunInv(r, start, s, e);
  }

  lemma Commence(r: Rules, fs: Files, hits: seq<Path>)
    requires IsScan(r, fs, hits)
    ensures Follows(r, fs, State(fs, Scanning(hits), []), [], State(fs, Scanning(hits), []))
  {
    BeginIsExact(r, State(fs, Idle, []), hits);
  }

  lemma Conclude(r: Rules, fs: Files, hits: seq<Path>, events: seq<Event>, s: State)
    requires IsScan(r, fs, hits) && Follows(r, fs, State(fs, Scanning(hits), []), events, s) && s.phase == Restoring([])
    ensures Exec(r, State(fs, Idle, []), [Begin(hits)] + (events + [Finish])) == Some(s.(phase := Idle))
    ensures (forall e :: e in events ==> !FailsToUndo(e)) ==> s.fs == fs
  {
    var idle := State(fs, Idle, []);
    ExecAppend(r, State(fs, Scanning(hits), []), events, [Finish]);
    ExecOne(r, s, Finish);
    assert ([Begin(hits)] + (events + [Finish]))[1..] == events + [Finish];
    if forall e :: e in events ==> !FailsToUndo(e) {
      CompletedRunRestores(r, idle, hits, events);
    }
  }

  class SourceTree {
    var files: Files

    constructor (files: Files)
      ensures this.files == files
    {
      this.files := files;
    }

    /** One file on the way in.  Every file operation may fail. */
    method PatchFile(r: Rules, p: Path, ghost todo: seq<Path>, ghost edited: seq<Path>, ghost start: Files, ghost first: State,
                     ghost before: seq<Event>)
      returns (done: bool, ghost events: seq<Event>)
      requires todo != [] && p == todo[0] && Follows(r, start, first, before, State(files, Scanning(todo), edited))
      modifies this
      ensures Follows(r, start, first, events, State(files, Scanning(todo[1..]), if done then edited + [p] else edited))
    {
      ghost var s := State(files, Scanning(todo), edited);
      assert Untouched(start, files, p);
      if Bak(p) in files {
        Advance(r, start, first, before, s, Skip);
        return false, before + [Skip];
      }
      var ok: bool := *;
      if !ok {
        Advance(r, start, first, before, s, Backup(false));
        return false, before + [Backup(false)];
      }
      files := files[Bak(p) := files[p]];
      events := before + [Backup(true)];
      Advance(r, start, first, before, s, Backup(true));
      s := State(files, Copied(todo), edited);
      ok := *;
      if ok {
        files := files[p := r.clean(files[p])];
        Advance(r, start, first, events, s, Rewrite(true));
        return true, events + [Rewrite(true)];
      }
      Advance(r, start, first, events, s, Rewrite(false));
      events := events + [Rewrite(false)];
      events := Revert(r, p, todo, edited, start, first, events);
      return false, events;
    }

    /** Undoing a file that could not be rewritten. */
    method Revert(r: Rules, p: Path, ghost todo: seq<Path>, ghost edited: seq<Path>, ghost start: Files, ghost first: State,
                  ghost before: seq<Event>)
      returns (ghost events: seq<Event>)
      requires todo != [] && p == todo[0] && Follows(r, start, first, before, State(files, Reverting(todo), edited))
      modifies this
      ensures Follows(r, start, first, events, State(files, Scanning(todo[1..]), edited))
    {
      ghost var s := State(files, Reverting(todo), edited);
      assert BackedUp(start, files, p);
      var ok: bool := *;
      if !ok {
        Advance(r, start, first, before, s, RevertCopy(false));
        return before + [RevertCopy(false)];
      }
      files := files[p := files[Bak(p)]];
      Advance(r, start, first, before, s, RevertCopy(true));
      events := before + [RevertCopy(true)];
      s := State(files, Reverted(todo), edited);
      ok := *;
      Advance(r, start, first, events, s, RevertUnlink(ok));
      if ok {
        files := files - {Bak(p)};
      }
      events := events + [RevertUnlink(ok)];
    }

    /** One file on the way out. */
    method RestoreFile(r: Rules, p: Path, ghost left: seq<Path>, ghost edited: seq<Path>, ghost start: Files, ghost first: State,
                       ghost before: seq<Event>)
      returns (ghost events: seq<Event>)
      requires left != [] && p == left[0] && Follows(r, start, first, before, State(files, Restoring(left), edited))
      modifies this
      ensures Follows(r, start, first, events, State(files, Restoring(left[1..]), edited))
    {
      ghost var s := State(files, Restoring(left), edited);
      assert p in Outstanding(s) && BackedUp(start, files, p);
      var ok: bool := *;
      if !ok {
        Advance(r, start, first, before, s, RestoreCopy(false));
        return before + [RestoreCopy(false)];
      }
      files := files[p := files[Bak(p)]];
      Advance(r, start, first, before, s, RestoreCopy(true));
      events := before + [RestoreCopy(true)];
      s := State(files, Restored(left), edited);
      ok := *;
      Advance(r, start, first, events, s, RestoreUnlink(ok));
      if ok {
        files := files - {Bak(p)};
      }
      events := events + [RestoreUnlink(ok)];
    }

    /** `_patch_unsupported_kconfig_syntax` around a body that does not touch the files; hits
        is what the scan found.  The files end as some run of the state machine leaves them,
        and exactly as they were when no revert and no restore failed. */
    method PatchAndRestore(r: Rules, hits: seq<Path>) returns (edited: seq<Path>, ghost events: seq<Event>)
      requires IsScan(r, files, hits)
      modifies this
      ensures Exec(r, State(old(files), Idle, []), [Begin(hits)] + (events + [Finish])) == Some(State(files, Idle, edited))
      ensures forall e :: e in events ==> !e.Kill? && !e.Finish?
      ensures (forall e :: e in events ==> !FailsToUndo(e)) ==> files == old(files)
    {
      ghost var start, first := files, State(files, Scanning(hits), []);
      edited, events := [], [];
      Commence(r, files, hits);
      assert hits[0..] == hits;
      for i := 0 to |hits|
        invariant Follows(r, start, first, events, State(files, Scanning(hits[i..]), edited))
      {
        assert hits[i..][0] == hits[i] && hits[i..][1..] == hits[i + 1..];
        var done;
        done, events := PatchFile(r, hits[i], hits[i..], edited, start, first, events);
        if done {
          edited := edited + [hits[i]];
        }
      }
      Advance(r, start, first, events, State(files, Scanning([]), edited), Enter);
      events := events + [Enter];
      Advance(r, start, first, events, State(files, Body, edited), Leave);
      events := events + [Leave];
      assert edited[0..] == edited;
      for i := 0 to |edited|
        invariant Follows(r, start, first, events, State(files, Restoring(edited[i..]), edited))
      {
        assert edited[i..][0] == edited[i] && edited[i..][1..] == edited[i + 1..];
        events := RestoreFile(r, edited[i], edited[i..], edited, start, first, events);
      }
      Conclude(r, start, hits, events, State(files, Restoring([]), edited));
    }
  }
}
