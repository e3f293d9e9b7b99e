/** The edit-and-restore protocol over the user's Kconfig files, as a state machine whose
    steps are the single file operations, so that a run can be killed between any two.

    Copies, writes and removals are atomic: they happen or fail as a whole.  Nothing but
    the protocol touches the files while it runs.
 */
module PatchProtocol {
  import opened Option

  type Text = string

  /** A path is a name that does not end in the backup suffix, followed by the suffix
      `baks` times; FileNamesDistinct shows that this writes every file name one way. */
  datatype Path = Path(name: string, baks: nat)

  type Files = map<Path, Text>

  const SUFFIX := ".autokernel.bak"

  function Bak(p: Path): Path { Path(p.name, p.baks + 1) }

  /** The k-th name in the chain path, path.bak, path.bak.bak, ... */
  function BakN(p: Path, k: nat): Path { Path(p.name, p.baks + k) }

  function FileName(p: Path): string
    decreases p.baks
  {
    if p.baks == 0 then p.name else FileName(Path(p.name, p.baks - 1)) + SUFFIX
  }

  predicate EndsInSuffix(s: string) { |s| >= |SUFFIX| && s[|s| - |SUFFIX|..] == SUFFIX }

  lemma {:induction false} FileNamesDistinct(p: Path, q: Path)
    requires !EndsInSuffix(p.name) && !EndsInSuffix(q.name) && FileName(p) == FileName(q)
    ensures p == q
    decreases p.baks
  {
    if p.baks > 0 || q.baks > 0 {
      assert EndsInSuffix(FileName(p));
      var p', q' := Path(p.name, p.baks - 1), Path(q.name, q.baks - 1);
      assert FileName(p)[..|FileName(p)| - |SUFFIX|] == FileName(p');
      assert FileName(q)[..|FileName(q)| - |SUFFIX|] == FileName(q');
      FileNamesDistinct(p', q');
    }
  }

  /** Which files hold syntax the parser rejects, and the rewriting that removes it. */
  datatype Rules = Rules(unsupported: (Path, Text) -> bool, clean: Text -> Text)

  /** Where a run stands.  The first element of `todo` or `left` is the file at hand:
      Copied       its backup has been written;
      Reverting    reading or rewriting it failed after that;
      Reverted     its backup has been copied back, the backup is still there;
      Restored     the same, on the way out. */
  datatype Phase =
    | Idle
    | Scanning(todo: seq<Path>)
    | Copied(todo: seq<Path>)
    | Reverting(todo: seq<Path>)
    | Reverted(todo: seq<Path>)
    | Body
    | Restoring(left: seq<Path>)
    | Restored(left: seq<Path>)

  datatype State = State(fs: Files, phase: Phase, edited: seq<Path>)

  /** `ok` says whether the file operation of that step succeeds. */
  datatype Event =
    | Begin(hits: seq<Path>)
    | Skip
    | Backup(ok: bool)
    | Rewrite(ok: bool)
    | RevertCopy(ok: bool)
    | RevertUnlink(ok: bool)
    | Enter
    | Leave
    | RestoreCopy(ok: bool)
    | RestoreUnlink(ok: bool)
    | Finish
    | Kill

  predicate Distinct(s: seq<Path>) { forall i, j :: 0 <= i < j < |s| ==> s[i] != s[j] }

  /** What the scan may return: existing files with unsupported syntax, in any order;
      unreadable ones are passed over. */
  predicate IsScan(r: Rules, fs: Files, hits: seq<Path>) {
    Distinct(hits) && forall p :: p in hits ==> p in fs && r.unsupported(p, fs[p])
  }

  /** One step, or None when the event is not possible in the state. */
  function Step(r: Rules, s: State, e: Event): Option<State> {
    if e.Kill? then Some(s.(phase := Idle))
    else match s.phase
      case Idle =>
        if e.Begin? && IsScan(r, s.fs, e.hits) then Some(State(s.fs, Scanning(e.hits), [])) else None
      case Scanning(todo) =>
        if todo == [] then (if e.Enter? then Some(s.(phase := Body)) else None)
        else if todo[0] !in s.fs then None
        else if Bak(todo[0]) in s.fs then (if e.Skip? then Some(s.(phase := Scanning(todo[1..]))) else None)
        else if e == Backup(true) then Some(s.(fs := s.fs[Bak(todo[0]) := s.fs[todo[0]]], phase := Copied(todo)))
        else if e == Backup(false) then Some(s.(phase := Scanning(todo[1..])))
        else None
      case Copied(todo) =>
        if todo == [] || todo[0] !in s.fs then None
        else if e == Rewrite(true) then
          Some(State(s.fs[todo[0] := r.clean(s.fs[todo[0]])], Scanning(todo[1..]), s.edited + [todo[0]]))
        else if e == Rewrite(false) then Some(s.(phase := Reverting(todo)))
        else None
      case Reverting(todo) =>
        if todo == [] || Bak(todo[0]) !in s.fs then None
        else if e == RevertCopy(true) then Some(s.(fs := s.fs[todo[0] := s.fs[Bak(todo[0])]], phase := Reverted(todo)))
        else if e == RevertCopy(false) then Some(s.(phase := Scanning(todo[1..])))
        else None
      case Reverted(todo) =>
        if todo == [] then None
        else if e == RevertUnlink(true) then Some(s.(fs := s.fs - {Bak(todo[0])}, phase := Scanning(todo[1..])))
        else if e == RevertUnlink(false) then Some(s.(phase := Scanning(todo[1..])))
        else None
      case Body =>
        if e.Leave? then Some(s.(phase := Restoring(s.edited))) else None
      case Restoring(left) =>
        if left == [] then (if e.Finish? then Some(s.(phase := Idle)) else None)
        else if Bak(left[0]) !in s.fs then None
        else if e == RestoreCopy(true) then Some(s.(fs := s.fs[left[0] := s.fs[Bak(left[0])]], phase := Restored(left)))
        else if e == RestoreCopy(false) then Some(s.(phase := Restoring(left[1..])))
        else None
      case Restored(left) =>
        if left == [] then None
        else if e == RestoreUnlink(true) then Some(s.(fs := s.fs - {Bak(left[0])}, phase := Restoring(left[1..])))
        else if e == RestoreUnlink(false) then Some(s.(phase := Restoring(left[1..])))
        else None
  }

  function Exec(r: Rules, s: State, events: seq<Event>): Option<State>
    decreases |events|
  {
    if events == [] then Some(s)
    else match Step(r, s, events[0])
      case None => None
      case Some(t) => Exec(r, t, events[1..])
  }

  // ---- What a run keeps, relative to the files it started from ----

  /** Every file of `start` is still there, and its text is in place or, when its backup
      is one this run has made, in that backup. */
  ghost predicate Holds(start: Files, fs: Files) {
    forall p :: p in start ==>
      && p in fs
      && (fs[p] == start[p] || (Bak(p) !in start && Bak(p) in fs && fs[Bak(p)] == start[p]))
  }

  /** p is an original file whose backup this run has made and which holds p's text. */
  ghost predicate BackedUp(start: Files, fs: Files, p: Path) {
    p in start && Bak(p) !in start && Bak(p) in fs && fs[Bak(p)] == start[p]
  }

  ghost predicate Untouched(start: Files, fs: Files, p: Path) {
    p in start && p in fs && fs[p] == start[p]
  }

  /** The files patched in this run and not yet dealt with on the way out. */
  function Outstanding(s: State): seq<Path> {
    if s.phase.Restoring? || s.phase.Restored? then s.phase.left else s.edited
  }

  /** The scanned files not yet dealt with on the way in. */
  function Ahead(s: State): seq<Path> {
    if s.phase.Scanning? || s.phase.Copied? || s.phase.Reverting? || s.phase.Reverted? then s.phase.todo else []
  }

  predicate NoRepeats(s: State) {
    if Ahead(s) == [] then Distinct(Outstanding(s)) else Distinct(Ahead(s) + Outstanding(s))
  }

  ghost predicate RunInv(start: Files, s: State) {
    && Holds(start, s.fs)
    && (!s.phase.Idle? ==>
          && NoRepeats(s)
          && (forall p :: p in Ahead(s) ==> Untouched(start, s.fs, p))
          && (forall p :: p in Outstanding(s) ==> BackedUp(start, s.fs, p)))
    && (s.phase.Copied? || s.phase.Reverting? || s.phase.Reverted? ==>
          s.phase.todo != [] && BackedUp(start, s.fs, s.phase.todo[0]))
    && (s.phase.Restored? ==> s.phase.left != [] && Untouched(start, s.fs, s.phase.left[0]))
  }

  lemma DistinctTail(x: seq<Path>)
    requires x != [] && Distinct(x)
    ensures Distinct(x[1..]) && x[0] !in x[1..]
    ensures forall p :: p in x[1..] ==> p in x
  {
  }

  lemma DistinctRotate(h: Path, t: seq<Path>)
    requires Distinct([h] + t)
    ensures Distinct(t) && h !in t && Distinct(t + [h])
  {
    var z := [h] + t;
    assert z[0] == h;
    forall k | 0 <= k < |t| ensures t[k] != h { assert t[k] == z[k + 1]; }
    forall i, j | 0 <= i < j < |t| ensures t[i] != t[j] { assert t[i] == z[i + 1] && t[j] == z[j + 1]; }
  }

  lemma DistinctShift(x: seq<Path>, y: seq<Path>)
    requires x != [] && Distinct(x + y)
    ensures Distinct(x[1..] + y) && Distinct(x[1..] + (y + [x[0]]))
    ensures x[0] !in x[1..] && x[0] !in y
    ensures x[1..] == [] ==> Distinct(y) && Distinct(y + [x[0]])
    ensures forall p :: p in x[1..] ==> p in x
  {
    var t := x[1..] + y;
    assert x + y == [x[0]] + t;
    DistinctRotate(x[0], t);
    assert x[1..] + (y + [x[0]]) == t + [x[0]];
    assert x[1..] == [] ==> t == y;
  }

  lemma AfterBackup(start: Files, fs: Files, p: Path)
    requires Holds(start, fs) && Untouched(start, fs, p) && Bak(p) !in fs
    ensures
      var fs' := fs[Bak(p) := fs[p]];
      && Holds(start, fs') && BackedUp(start, fs', p)
      && (forall q :: Untouched(start, fs, q) ==> Untouched(start, fs', q))
      && (forall q :: BackedUp(start, fs, q) ==> BackedUp(start, fs', q))
  {
  }

  lemma AfterOverwrite(start: Files, fs: Files, p: Path, text: Text)
    requires Holds(start, fs) && BackedUp(start, fs, p)
    ensures
      var fs' := fs[p := text];
      && Holds(start, fs')
      && (forall q :: q != p && Untouched(start, fs, q) ==> Untouched(start, fs', q))
      && (forall q :: BackedUp(start, fs, q) ==> BackedUp(start, fs', q))
      && (text == start[p] ==> Untouched(start, fs', p))
  {
  }

  lemma AfterUnlink(start: Files, fs: Files, p: Path)
    requires Holds(start, fs) && Untouched(start, fs, p) && BackedUp(start, fs, p)
    ensures
      var fs' := fs - {Bak(p)};
      && Holds(start, fs')
      && (forall q :: Untouched(start, fs, q) ==> Untouched(start, fs', q))
      && (forall q :: q != p && BackedUp(start, fs, q) ==> BackedUp(start, fs', q))
  {
  }

  lemma ScanStepKeepsRunInv(r: Rules, start: Files, s: State, e: Event)
    requires RunInv(start, s) && !e.Kill? && Step(r, s, e).Some?
    requires s.phase.Scanning? || s.phase.Copied? || s.phase.Reverting? || s.phase.Reverted?
    ensures RunInv(start, Step(r, s, e).value)
  {
    var ahead := Ahead(s);
    if ahead == [] {
      return;
    }
    DistinctShift(ahead, s.edited);
    if e == Backup(true) {
      AfterBackup(start, s.fs, ahead[0]);
    } else if e == Rewrite(true) {
      AfterOverwrite(start, s.fs, ahead[0], r.clean(s.fs[ahead[0]]));
    } else if e == RevertCopy(true) {
      AfterOverwrite(start, s.fs, ahead[0], s.fs[Bak(ahead[0])]);
    } else if e == RevertUnlink(true) {
      AfterUnlink(start, s.fs, ahead[0]);
    }
  }

  lemma RestoreStepKeepsRunInv(r: Rules, start: Files, s: State, e: Event)
    requires RunInv(start, s) && !e.Kill? && Step(r, s, e).Some?
    requires s.phase.Body? || s.phase.Restoring? || s.phase.Restored?
    ensures RunInv(start, Step(r, s, e).value)
  {
    var out := Outstanding(s);
    if s.phase.Body? || out == [] {
      return;
    }
    DistinctTail(out);
    if e == RestoreCopy(true) {
      AfterOverwrite(start, s.fs, out[0], s.fs[Bak(out[0])]);
    } else if e == RestoreUnlink(true) {
      AfterUnlink(start, s.fs, out[0]);
    }
  }

  /** Every step of a run, failing or not, keeps the invariant. */
  lemma StepKeepsRunInv(r: Rules, start: Files, s: State, e: Event)
    requires RunInv(start, s) && !s.phase.Idle? && Step(r, s, e).Some?
    ensures RunInv(start, Step(r, s, e).value)
  {
    if e.Kill? {
    } else if s.phase.Body? || s.phase.Restoring? || s.phase.Restored? {
      RestoreStepKeepsRunInv(r, start, s, e);
    } else {
      ScanStepKeepsRunInv(r, start, s, e);
    }
  }

  // ---- Crash safety over many runs ----

  /** Every original file still exists, and its text is in some file of its chain. */
  ghost predicate Survives(original: Files, fs: Files) {
    forall p :: p in original ==>
      p in fs && exists k: nat :: BakN(p, k) in fs && fs[BakN(p, k)] == original[p]
  }

  lemma SurvivesRun(original: Files, start: Files, fs: Files)
    requires Survives(original, start) && Holds(start, fs)
    ensures Survives(original, fs)
  {
    forall p | p in original
      ensures p in fs && exists k: nat :: BakN(p, k) in fs && fs[BakN(p, k)] == original[p]
    {
      var k: nat :| BakN(p, k) in start && start[BakN(p, k)] == original[p];
      assert BakN(p, k + 1) == Bak(BakN(p, k));
    }
  }

  /** A run begins with the files as they are. */
  lemma IdleStep(r: Rules, s: State, e: Event)
    requires s.phase.Idle? && Step(r, s, e).Some?
    ensures Step(r, s, e).value.fs == s.fs && RunInv(s.fs, Step(r, s, e).value)
  {
    var t := Step(r, s, e).value;
    assert t.phase.Scanning? ==> Ahead(t) + Outstanding(t) == Ahead(t);
  }

  lemma {:induction false} ExecKeepsTexts(r: Rules, original: Files, start: Files, s: State, events: seq<Event>)
    requires Survives(original, start) && RunInv(start, s) && Exec(r, s, events).Some?
    ensures Survives(original, Exec(r, s, events).value.fs)
    decreases |events|
  {
    SurvivesRun(original, start, s.fs);
    if events != [] {
      if s.phase.Idle? {
        IdleStep(r, s, events[0]);
        ExecKeepsTexts(r, original, s.fs, Step(r, s, events[0]).value, events[1..]);
      } else {
        StepKeepsRunInv(r, start, s, events[0]);
        ExecKeepsTexts(r, original, start, Step(r, s, events[0]).value, events[1..]);
      }
    }
  }

  /** Crash safety: after any sequence of runs, each completed or killed between two file
      operations and with any operations failing, no original file is gone and every
      original text is in some file of its chain. */
  lemma TextsSurvive(r: Rules, original: Files, events: seq<Event>)
    requires Exec(r, State(original, Idle, []), events).Some?
    ensures Survives(original, Exec(r, State(original, Idle, []), events).value.fs)
  {
    assert forall p :: p in original ==> BakN(p, 0) == p;
    ExecKeepsTexts(r, original, original, State(original, Idle, []), events);
  }

  // ---- A completed run without failing restores is the identity ----

  function Baks(S: set<Path>): set<Path> { set p | p in S :: Bak(p) }

  /** The directory with the files of E patched and the files of X backed up. */
  ghost function Patched(r: Rules, start: Files, E: set<Path>, X: set<Path>): Files
    requires E <= start.Keys && X <= start.Keys
  {
    map q | q in start.Keys + Baks(X) ::
      if q in E then r.clean(start[q])
      else if q in start then start[q]
      else start[Path(q.name, q.baks - 1)]
  }

  function Elements(s: seq<Path>): set<Path> { set p | p in s }

  /** The files whose text is patched at this point of a run without failures ... */
  ghost function PatchedSet(s: State): set<Path> {
    if s.phase.Restored? && s.phase.left != [] then Elements(s.phase.left) - {s.phase.left[0]}
    else Elements(Outstanding(s))
  }

  /** ... and those that have a backup. */
  ghost function BackedSet(s: State): set<Path> {
    if (s.phase.Copied? || s.phase.Reverting? || s.phase.Reverted?) && s.phase.todo != []
    then Elements(s.edited) + {s.phase.todo[0]}
    else Elements(Outstanding(s))
  }

  /** Where the files stand during a run in which no revert and no restore has failed. */
  ghost predicate ExactInv(r: Rules, start: Files, s: State) {
    !s.phase.Idle? && RunInv(start, s) && Exactly(r, start, s.fs, PatchedSet(s), BackedSet(s))
  }

  ghost predicate Exactly(r: Rules, start: Files, fs: Files, E: set<Path>, X: set<Path>) {
    E <= start.Keys && X <= start.Keys && fs == Patched(r, start, E, X)
  }

  predicate FailsToUndo(e: Event) {
    e == RevertCopy(false) || e == RevertUnlink(false) || e == RestoreCopy(false) || e == RestoreUnlink(false)
  }

  lemma ElementsShift(s: seq<Path>)
    requires s != [] && Distinct(s)
    ensures Elements(s[1..]) == Elements(s) - {s[0]} && s[0] in Elements(s)
  {
    assert s == [s[0]] + s[1..];
  }

  /** The four changes of the directory: make a backup of p, clean it, copy it back, drop the backup. */
  lemma AddBackup(r: Rules, start: Files, fs: Files, E: set<Path>, X: set<Path>, p: Path)
    requires Exactly(r, start, fs, E, X) && Untouched(start, fs, p) && Bak(p) !in start && p !in X
    ensures Exactly(r, start, fs[Bak(p) := fs[p]], E, X + {p})
  {
    assert Baks(X + {p}) == Baks(X) + {Bak(p)};
  }

  lemma CleanFile(r: Rules, start: Files, fs: Files, E: set<Path>, X: set<Path>, p: Path)
    requires Exactly(r, start, fs, E, X) && Untouched(start, fs, p)
    ensures Exactly(r, start, fs[p := r.clean(fs[p])], E + {p}, X)
  {
  }

  lemma CopyBack(r: Rules, start: Files, fs: Files, E: set<Path>, X: set<Path>, p: Path)
    requires Exactly(r, start, fs, E, X) && BackedUp(start, fs, p)
    ensures Exactly(r, start, fs[p := fs[Bak(p)]], E - {p}, X)
  {
  }

  lemma DropBackup(r: Rules, start: Files, fs: Files, E: set<Path>, X: set<Path>, p: Path)
    requires Exactly(r, start, fs, E, X) && p in X && Bak(p) !in start
    ensures Exactly(r, start, fs - {Bak(p)}, E, X - {p})
  {
    assert Baks(X - {p}) == Baks(X) - {Bak(p)};
  }

  lemma BackupStep(r: Rules, s: State)
    requires Step(r, s, Backup(true)).Some?
    ensures s.phase.Scanning? && s.phase.todo != [] && s.phase.todo[0] in s.fs && Bak(s.phase.todo[0]) !in s.fs
    ensures Step(r, s, Backup(true)).value
         == State(s.fs[Bak(s.phase.todo[0]) := s.fs[s.phase.todo[0]]], Copied(s.phase.todo), s.edited)
  {
  }

  lemma BackupIsExact(r: Rules, start: Files, s: State)
    requires ExactInv(r, start, s) && Step(r, s, Backup(true)).Some?
    ensures ExactInv(r, start, Step(r, s, Backup(true)).value)
  {
    BackupStep(r, s);
    StepKeepsRunInv(r, start, s, Backup(true));
    DistinctShift(s.phase.todo, s.edited);
    AddBackup(r, start, s.fs, Elements(s.edited), Elements(s.edited), s.phase.todo[0]);
  }

  lemma RewriteIsExact(r: Rules, start: Files, s: State)
    requires ExactInv(r, start, s) && s.phase.Copied? && Step(r, s, Rewrite(true)).Some?
    ensures ExactInv(r, start, Step(r, s, Rewrite(true)).value)
  {
    StepKeepsRunInv(r, start, s, Rewrite(true));
    var p, E := s.phase.todo[0], Elements(s.edited);
    assert p in s.phase.todo && Untouched(start, s.fs, p);
    CleanFile(r, start, s.fs, E, E + {p}, p);
    assert Elements(s.edited + [p]) == E + {p};
  }

  lemma RevertCopyIsExact(r: Rules, start: Files, s: State)
    requires ExactInv(r, start, s) && s.phase.Reverting? && Step(r, s, RevertCopy(true)).Some?
    ensures ExactInv(r, start, Step(r, s, RevertCopy(true)).value)
  {
    StepKeepsRunInv(r, start, s, RevertCopy(true));
    var p, E := s.phase.todo[0], Elements(s.edited);
    DistinctShift(s.phase.todo, s.edited);
    CopyBack(r, start, s.fs, E, E + {p}, p);
    assert E - {p} == E;
  }

  lemma RevertUnlinkIsExact(r: Rules, start: Files, s: State)
    requires ExactInv(r, start, s) && s.phase.Reverted? && Step(r, s, RevertUnlink(true)).Some?
    ensures ExactInv(r, start, Step(r, s, RevertUnlink(true)).value)
  {
    StepKeepsRunInv(r, start, s, RevertUnlink(true));
    var p, E := s.phase.todo[0], Elements(s.edited);
    DistinctShift(s.phase.todo, s.edited);
    DropBackup(r, start, s.fs, E, E + {p}, p);
    assert E + {p} - {p} == E;
  }

  lemma RestoreCopyIsExact(r: Rules, start: Files, s: State)
    requires ExactInv(r, start, s) && s.phase.Restoring? && Step(r, s, RestoreCopy(true)).Some?
    ensures ExactInv(r, start, Step(r, s, RestoreCopy(true)).value)
  {
    StepKeepsRunInv(r, start, s, RestoreCopy(true));
    var p, L := s.phase.left[0], Elements(s.phase.left);
    CopyBack(r, start, s.fs, L, L, p);
  }

  lemma RestoreUnlinkIsExact(r: Rules, start: Files, s: State)
    requires ExactInv(r, start, s) && s.phase.Restored? && Step(r, s, RestoreUnlink(true)).Some?
    ensures ExactInv(r, start, Step(r, s, RestoreUnlink(true)).value)
  {
    StepKeepsRunInv(r, start, s, RestoreUnlink(true));
    var p, L := s.phase.left[0], Elements(s.phase.left);
    ElementsShift(s.phase.left);
    DropBackup(r, start, s.fs, L - {p}, L, p);
  }

  predicate ChangesFiles(e: Event) {
    e == Backup(true) || e == Rewrite(true) || e == RevertCopy(true) || e == RevertUnlink(true) ||
    e == RestoreCopy(true) || e == RestoreUnlink(true)
  }

  lemma QuietStep(r: Rules, s: State, e: Event)
    requires Step(r, s, e).Some? && !s.phase.Idle? && !e.Kill? && !e.Finish? && !FailsToUndo(e) && !ChangesFiles(e)
    ensures
      var t := Step(r, s, e).value;
      !t.phase.Idle? && t.fs == s.fs && PatchedSet(t) == PatchedSet(s) && BackedSet(t) == BackedSet(s)
  {
  }

  lemma QuietIsExact(r: Rules, start: Files, s: State, e: Event)
    requires ExactInv(r, start, s) && Step(r, s, e).Some?
    requires !e.Kill? && !e.Finish? && !FailsToUndo(e) && !ChangesFiles(e)
    ensures ExactInv(r, start, Step(r, s, e).value)
  {
    StepKeepsRunInv(r, start, s, e);
    QuietStep(r, s, e);
  }

  lemma PhaseOf(r: Rules, s: State, e: Event)
    requires Step(r, s, e).Some?
    ensures e.Rewrite? ==> s.phase.Copied?
    ensures e.RevertCopy? ==> s.phase.Reverting?
    ensures e.RevertUnlink? ==> s.phase.Reverted?
    ensures e.RestoreCopy? ==> s.phase.Restoring?
    ensures e.RestoreUnlink? ==> s.phase.Restored?
  {
  }

  lemma StepIsExact(r: Rules, start: Files, s: State, e: Event)
    requires ExactInv(r, start, s) && Step(r, s, e).Some? && !e.Kill? && !e.Finish? && !FailsToUndo(e)
    ensures ExactInv(r, start, Step(r, s, e).value)
  {
    if !ChangesFiles(e) {
      QuietIsExact(r, start, s, e);
    } else {
      PhaseOf(r, s, e);
      match e
      case Backup(_) => BackupIsExact(r, start, s);
      case Rewrite(_) => RewriteIsExact(r, start, s);
      case RevertCopy(_) => RevertCopyIsExact(r, start, s);
      case RevertUnlink(_) => RevertUnlinkIsExact(r, start, s);
      case RestoreCopy(_) => RestoreCopyIsExact(r, start, s);
      case RestoreUnlink(_) => RestoreUnlinkIsExact(r, start, s);
    }
  }

  lemma {:induction false} ExecIsExact(r: Rules, start: Files, s: State, events: seq<Event>)
    requires ExactInv(r, start, s) && Exec(r, s, events).Some?
    requires forall e :: e in events ==> !e.Kill? && !e.Finish? && !FailsToUndo(e)
    ensures ExactInv(r, start, Exec(r, s, events).value)
    decreases |events|
  {
    if events != [] {
      StepIsExact(r, start, s, events[0]);
      ExecIsExact(r, start, Step(r, s, events[0]).value, events[1..]);
    }
  }

  lemma {:induction false} ExecAppend(r: Rules, s: State, a: seq<Event>, b: seq<Event>)
    ensures Exec(r, s, a + b) == match Exec(r, s, a) case None => None case Some(t) => Exec(r, t, b)
    decreases |a|
  {
    if a == [] {
      assert a + b == b;
    } else {
      assert (a + b)[1..] == a[1..] + b;
      if Step(r, s, a[0]).Some? {
        ExecAppend(r, Step(r, s, a[0]).value, a[1..], b);
      }
    }
  }

  /** A run that reaches its end with no failing revert or restore leaves the directory
      exactly as it found it, whatever else failed on the way. */
  lemma CompletedRunRestores(r: Rules, s: State, hits: seq<Path>, events: seq<Event>)
    requires s.phase.Idle? && Exec(r, s, [Begin(hits)] + (events + [Finish])).Some?
    requires forall e :: e in events ==> !e.Kill? && !e.Finish? && !FailsToUndo(e)
    ensures Exec(r, s, [Begin(hits)] + (events + [Finish])).value.fs == s.fs
  {
    assert ([Begin(hits)] + (events + [Finish]))[1..] == events + [Finish];
    var t := Step(r, s, Begin(hits)).value;
    ExecAppend(r, t, events, [Finish]);
    BeginIsExact(r, s, hits);
    ExecIsExact(r, s.fs, t, events);
    FinishIsExact(r, s.fs, Exec(r, t, events).value);
  }

  lemma BeginIsExact(r: Rules, s: State, hits: seq<Path>)
    requires s.phase.Idle? && Step(r, s, Begin(hits)).Some?
    ensures ExactInv(r, s.fs, Step(r, s, Begin(hits)).value)
  {
    assert hits + [] == hits;
    PatchedNothing(r, s.fs);
  }

  lemma PatchedNothing(r: Rules, start: Files)
    ensures Elements([]) == {} && Patched(r, start, {}, {}) == start
  {
    assert Baks({}) == {};
  }

  lemma FinishStep(r: Rules, s: State)
    requires !s.phase.Idle? && Exec(r, s, [Finish]).Some?
    ensures s.phase == Restoring([]) && Exec(r, s, [Finish]).value.fs == s.fs
  {
    var v := Step(r, s, Finish).value;
    assert [Finish][1..] == [] && Exec(r, v, []) == Some(v);
  }

  lemma FinishIsExact(r: Rules, start: Files, s: State)
    requires ExactInv(r, start, s) && Exec(r, s, [Finish]).Some?
    ensures Exec(r, s, [Finish]).value.fs == start
  {
    FinishStep(r, s);
    PatchedNothing(r, start);
  }

  // ---- What the body of the context sees ----

  /** Every original file holds its cleaned text if it has been edited, and its own otherwise. */
  ghost predicate Shows(r: Rules, start: Files, fs: Files, edited: seq<Path>) {
    forall q :: q in start ==> q in fs && fs[q] == if q in edited then r.clean(start[q]) else start[q]
  }

  /** This is so from the scan to the body. */
  ghost predicate ShowsInv(r: Rules, start: Files, s: State) {
    && !s.phase.Idle? && RunInv(start, s)
    && (!s.phase.Restoring? && !s.phase.Restored? ==> Shows(r, start, s.fs, s.edited))
  }

  lemma ShowsAfterRewrite(r: Rules, start: Files, fs: Files, edited: seq<Path>, p: Path)
    requires Shows(r, start, fs, edited) && Untouched(start, fs, p)
    ensures Shows(r, start, fs[p := r.clean(fs[p])], edited + [p])
  {
  }

  lemma ShowsAfterBackup(r: Rules, start: Files, fs: Files, edited: seq<Path>, p: Path, text: Text)
    requires Shows(r, start, fs, edited) && Bak(p) !in start
    ensures Shows(r, start, fs[Bak(p) := text], edited) && Shows(r, start, fs - {Bak(p)}, edited)
  {
  }

  lemma ShowsAfterRevert(r: Rules, start: Files, fs: Files, edited: seq<Path>, p: Path)
    requires Shows(r, start, fs, edited) && BackedUp(start, fs, p) && p !in edited
    ensures Shows(r, start, fs[p := fs[Bak(p)]], edited)
  {
  }

  lemma StepShows(r: Rules, start: Files, s: State, e: Event)
    requires ShowsInv(r, start, s) && Step(r, s, e).Some? && !e.Kill? && !e.Finish?
    ensures ShowsInv(r, start, Step(r, s, e).value)
  {
    StepKeepsRunInv(r, start, s, e);
    if Ahead(s) != [] {
      var p := Ahead(s)[0];
      DistinctShift(Ahead(s), s.edited);
      if e == Rewrite(true) {
        ShowsAfterRewrite(r, start, s.fs, s.edited, p);
      } else if e == Backup(true) {
        BackupStep(r, s);
        ShowsAfterBackup(r, start, s.fs, s.edited, p, s.fs[p]);
      } else if e == RevertCopy(true) {
        ShowsAfterRevert(r, start, s.fs, s.edited, p);
      } else if e == RevertUnlink(true) {
        ShowsAfterBackup(r, start, s.fs, s.edited, p, "");
      }
    }
  }

  lemma {:induction false} ExecShows(r: Rules, start: Files, s: State, events: seq<Event>)
    requires ShowsInv(r, start, s) && Exec(r, s, events).Some?
    requires forall e :: e in events ==> !e.Kill? && !e.Finish?
    ensures ShowsInv(r, start, Exec(r, s, events).value)
    decreases |events|
  {
    if events != [] {
      StepShows(r, start, s, events[0]);
      ExecShows(r, start, Step(r, s, events[0]).value, events[1..]);
    }
  }

  /** When the body runs, whatever failed before it, every edited file holds the cleaned form of
      its original text, and every other original file its own text. */
  lemma BodySeesCleanedFiles(r: Rules, s: State, hits: seq<Path>, events: seq<Event>)
    requires s.phase.Idle? && Exec(r, s, [Begin(hits)] + events).Some?
    requires forall e :: e in events ==> !e.Kill? && !e.Finish?
    ensures
      var t := Exec(r, s, [Begin(hits)] + events).value;
      t.phase.Body? ==> Shows(r, s.fs, t.fs, t.edited)
  {
    assert ([Begin(hits)] + events)[1..] == events;
    BeginIsExact(r, s, hits);
    ExecShows(r, s.fs, Step(r, s, Begin(hits)).value, events);
  }

  // ---- Which files are edited ----

  predicate Fails(e: Event) { e == Backup(false) || e == Rewrite(false) || FailsToUndo(e) }

  /** p has a backup made in this run. */
  predicate Owned(s: State, p: Path) {
    p in s.edited || (s.phase.Copied? && s.phase.todo != [] && p == s.phase.todo[0])
  }

  /** On the way in, without failures: every scanned file is ahead, edited, or had a backup before
      the run; and every new file is a backup made by the run. */
  ghost predicate ScanInv(start: Files, hits: seq<Path>, s: State) {
    && RunInv(start, s) && (s.phase.Scanning? || s.phase.Copied? || s.phase.Body?)
    && (forall q :: q in Ahead(s) || q in s.edited ==> q in hits)
    && (forall q :: q in hits ==> q in Ahead(s) || q in s.edited || Bak(q) in start)
    && (forall q :: Bak(q) in s.fs ==> Bak(q) in start || Owned(s, q))
  }

  lemma HeadOrTail(x: seq<Path>, q: Path)
    requires x != []
    ensures q in x <==> q == x[0] || q in x[1..]
  {
    assert x == [x[0]] + x[1..];
  }

  lemma StepScans(r: Rules, start: Files, hits: seq<Path>, s: State, e: Event)
    requires ScanInv(start, hits, s) && Step(r, s, e).Some? && !e.Kill? && !Fails(e) && !e.Leave?
    ensures ScanInv(start, hits, Step(r, s, e).value)
  {
    StepKeepsRunInv(r, start, s, e);
    if Ahead(s) != [] {
      DistinctShift(Ahead(s), s.edited);
      forall q ensures q in Ahead(s) <==> q == Ahead(s)[0] || q in Ahead(s)[1..] { HeadOrTail(Ahead(s), q); }
    }
  }

  lemma {:induction false} ExecScans(r: Rules, start: Files, hits: seq<Path>, s: State, events: seq<Event>)
    requires ScanInv(start, hits, s) && Exec(r, s, events).Some?
    requires forall e :: e in events ==> !e.Kill? && !Fails(e) && !e.Leave?
    ensures ScanInv(start, hits, Exec(r, s, events).value)
    decreases |events|
  {
    if events != [] {
      StepScans(r, start, hits, s, events[0]);
      ExecScans(r, start, hits, Step(r, s, events[0]).value, events[1..]);
    }
  }

  /** Without failing operations exactly the scanned files that had no backup are edited. */
  lemma EditedExactly(r: Rules, s: State, hits: seq<Path>, events: seq<Event>, q: Path)
    requires s.phase.Idle? && Exec(r, s, [Begin(hits)] + events).Some?
    requires forall e :: e in events ==> !e.Kill? && !Fails(e) && !e.Leave?
    ensures
      var t := Exec(r, s, [Begin(hits)] + events).value;
      t.phase.Body? ==> (q in t.edited <==> q in hits && Bak(q) !in s.fs)
  {
    assert ([Begin(hits)] + events)[1..] == events;
    BeginIsExact(r, s, hits);
    ExecScans(r, s.fs, hits, Step(r, s, Begin(hits)).value, events);
  }
}
