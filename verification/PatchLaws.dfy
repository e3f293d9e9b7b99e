/** What applying patch sets guarantees: conflicts put everything back, a dry run predicts, and
    a set that has been applied is found again. */
module PatchLaws {
  import opened Option
  import opened Patches

  // ---- Conflicts ----

  /** Nothing was committed. */
  predicate Unmoved(outcomes: seq<Outcome>) {
    forall o :: o in outcomes ==> o.result.Present? || o.result.Conflict?
  }

  lemma {:induction false} PatchesMove(name: string, ps: seq<Patch>, c: Commit, whole: bool, dryRun: bool)
    ensures
      var run := RunPatches(name, ps, c, whole, dryRun);
      |c.log| <= |run.commit.log| &&
      if Unmoved(run.outcomes) then run.commit == c else |c.log| < |run.commit.log|
  {
    if ps != [] {
      var first := RunPatch(name, ps[0], c, whole, dryRun);
      assert first.outcomes[0] in first.outcomes;
      if !first.conflict {
        PatchesMove(name, ps[1..], first.commit, whole, dryRun);
        UnmovedConcat(first.outcomes, RunPatches(name, ps[1..], first.commit, whole, dryRun).outcomes);
      }
    }
  }

  lemma UnmovedConcat(a: seq<Outcome>, b: seq<Outcome>)
    ensures Unmoved(a + b) <==> Unmoved(a) && Unmoved(b)
  {
    assert forall o :: o in a || o in b ==> o in a + b;
  }

  /** The commit changes exactly when some patch is applied. */
  lemma {:induction false} SetsMove(sets: seq<PatchSet>, c: Commit, dryRun: bool)
    ensures
      var run := RunSets(sets, c, dryRun);
      |c.log| <= |run.commit.log| &&
      if Unmoved(run.outcomes) then run.commit == c else |c.log| < |run.commit.log|
  {
    if sets != [] {
      var whole := WholeSet(c.tree, sets[0].patches);
      var first := RunPatches(sets[0].name, sets[0].patches, c, whole, dryRun);
      PatchesMove(sets[0].name, sets[0].patches, c, whole, dryRun);
      if !first.conflict {
        SetsMove(sets[1..], first.commit, dryRun);
        UnmovedConcat(first.outcomes, RunSets(sets[1..], first.commit, dryRun).outcomes);
      }
    }
  }

  predicate AllFit(t: Tree, ps: seq<Patch>) { forall p :: p in ps ==> Fits(t, p, true) }

  /** The whole set is in the tree, as a series or patch by patch. */
  predicate Found(t: Tree, ps: seq<Patch>) { WholeSet(t, ps) || AllFit(t, ps) }

  /** The first patch of the set that is not in the tree does not apply to it. */
  predicate Blocked(t: Tree, ps: seq<Patch>) {
    ps != [] && if Fits(t, ps[0], true) then Blocked(t, ps[1..]) else Am(t, ps[0]).None?
  }

  /** The first set that is not in the tree is blocked: nothing can be applied before the conflict. */
  predicate ConflictAtOnce(t: Tree, sets: seq<PatchSet>) {
    sets != [] &&
    if Found(t, sets[0].patches) then ConflictAtOnce(t, sets[1..]) else Blocked(t, sets[0].patches)
  }

  lemma OneBlocked(name: string, p: Patch, c: Commit, whole: bool)
    ensures
      var run := RunPatch(name, p, c, whole, false);
      && (run.conflict <==> !whole && !Fits(c.tree, p, true) && Am(c.tree, p).None?)
      && (Unmoved(run.outcomes) <==> run.conflict || whole || Fits(c.tree, p, true))
      && (whole || Fits(c.tree, p, true) ==> run.commit == c)
  {
    var run := RunPatch(name, p, c, whole, false);
    assert run.outcomes[0] in run.outcomes;
  }

  lemma {:induction false} PatchesBlocked(name: string, ps: seq<Patch>, c: Commit, whole: bool)
    ensures
      var run := RunPatches(name, ps, c, whole, false);
      && (run.conflict && Unmoved(run.outcomes) <==> !whole && Blocked(c.tree, ps))
      && (!run.conflict && Unmoved(run.outcomes) <==> whole || AllFit(c.tree, ps))
  {
    if ps != [] {
      var first := RunPatch(name, ps[0], c, whole, false);
      OneBlocked(name, ps[0], c, whole);
      assert ps == [ps[0]] + ps[1..];
      if !first.conflict {
        UnmovedConcat(first.outcomes, RunPatches(name, ps[1..], first.commit, whole, false).outcomes);
      }
      if whole || Fits(c.tree, ps[0], true) { PatchesBlocked(name, ps[1..], c, whole); }
    }
  }

  /** Nothing is applied before a conflict exactly when the starting tree says so. */
  lemma {:induction false} SetsBlocked(sets: seq<PatchSet>, c: Commit)
    ensures
      var run := RunSets(sets, c, false);
      run.conflict && Unmoved(run.outcomes) <==> ConflictAtOnce(c.tree, sets)
  {
    if sets != [] {
      var whole := WholeSet(c.tree, sets[0].patches);
      var first := RunPatches(sets[0].name, sets[0].patches, c, whole, false);
      PatchesBlocked(sets[0].name, sets[0].patches, c, whole);
      PatchesMove(sets[0].name, sets[0].patches, c, whole, false);
      if !first.conflict {
        SetsBlocked(sets[1..], first.commit);
        UnmovedConcat(first.outcomes, RunSets(sets[1..], first.commit, false).outcomes);
      }
    }
  }

  /** After a conflict the branches and HEAD are as before exactly when the branch name was
      new, or it names the branch that was checked out and the first patch that is not in the
      tree does not apply.  A branch of that name elsewhere is lost. */
  lemma ConflictRestoresExactly(g: Git, sets: seq<PatchSet>, branch: string)
    requires Sound(g) && RunSets(sets, HeadOf(g), false).conflict
    ensures ApplyOn(g, sets, branch) == g <==>
      branch !in g.branches || (g.head == OnBranch(branch) && ConflictAtOnce(HeadOf(g).tree, sets))
  {
    var base := HeadOf(g);
    var run := RunSets(sets, base, false);
    SetsMove(sets, base, false);
    SetsBlocked(sets, base);
    var after := ApplyOn(g, sets, branch);
    if g.head == OnBranch(branch) {
      assert after.branches == g.branches[branch := run.commit];
      assert after.branches[branch] == run.commit;
      if run.commit == base { assert after.branches == g.branches; }
    } else {
      assert after.branches == g.branches[branch := run.commit] - {branch};
      assert branch !in after.branches;
      if branch !in g.branches { assert after.branches == g.branches; }
    }
  }

  /** For instance: on branch "main", a patch that does not apply, and the name of an existing
      branch "b"; afterwards "b" is gone. */
  lemma ExistingBranchIsLost(main: Commit, b: Commit)
    requires main.tree == map[]
    ensures
      var g := Git(map["main" := main, "b" := b], OnBranch("main"));
      var s := PatchSet("s", [Patch("p", map["cell" := Change(Some("x"), Some("y"))], false)]);
      RunSets([s], HeadOf(g), false).conflict && "b" in g.branches && "b" !in ApplyOn(g, [s], "b").branches
  {
    assert "main"[0] != "b"[0];
    var g := Git(map["main" := main, "b" := b], OnBranch("main"));
    var p := Patch("p", map["cell" := Change(Some("x"), Some("y"))], false);
    var s := PatchSet("s", [p]);
    assert "cell" in p.cells && At(main.tree, "cell") == None;
    assert !Fits(main.tree, p, true) && Am(main.tree, p) == None;
    OneSet(s, main);
    assert RunPatches("s", [p], main, false, false).conflict;
  }

  // ---- Dry runs ----

  function Predicted(outcomes: seq<Outcome>): seq<Outcome> {
    seq(|outcomes|, i requires 0 <= i < |outcomes| =>
      if outcomes[i].result.Applied? then outcomes[i].(result := WouldApply) else outcomes[i])
  }

  lemma PredictedConcat(a: seq<Outcome>, b: seq<Outcome>)
    ensures Predicted(a + b) == Predicted(a) + Predicted(b)
  {
  }

  /** What the dry run makes of the same progress. */
  predicate IsPrediction(dry: Progress, wet: Progress) { dry == wet.(outcomes := Predicted(wet.outcomes)) }

  lemma DryPatch(name: string, p: Patch, c: Commit, whole: bool)
    ensures IsPrediction(RunPatch(name, p, c, whole, true), RunPatch(name, p, c, whole, false))
  {
  }

  lemma DryAfter(a: Progress, b: Progress, dryA: Progress, dryB: Progress)
    requires IsPrediction(dryA, a) && IsPrediction(dryB, b)
    ensures IsPrediction(After(dryA.outcomes, dryB), After(a.outcomes, b))
  {
    PredictedConcat(a.outcomes, b.outcomes);
  }

  lemma {:induction false} DryPatches(name: string, ps: seq<Patch>, c: Commit, whole: bool)
    ensures IsPrediction(RunPatches(name, ps, c, whole, true), RunPatches(name, ps, c, whole, false))
  {
    if ps != [] {
      var first, dry := RunPatch(name, ps[0], c, whole, false), RunPatch(name, ps[0], c, whole, true);
      DryPatch(name, ps[0], c, whole);
      if !first.conflict {
        DryPatches(name, ps[1..], first.commit, whole);
        DryAfter(first, RunPatches(name, ps[1..], first.commit, whole, false), dry,
                 RunPatches(name, ps[1..], first.commit, whole, true));
      }
    }
  }

  /** `check` reports what `apply` will do, patch by patch. */
  lemma {:induction false} DryRunPredicts(sets: seq<PatchSet>, c: Commit)
    ensures
      var dry, wet := RunSets(sets, c, true), RunSets(sets, c, false);
      dry == wet.(outcomes := Predicted(wet.outcomes))
  {
    if sets != [] {
      var ps, whole := sets[0].patches, WholeSet(c.tree, sets[0].patches);
      var first, dry := RunPatches(sets[0].name, ps, c, whole, false), RunPatches(sets[0].name, ps, c, whole, true);
      DryPatches(sets[0].name, ps, c, whole);
      if !first.conflict {
        DryRunPredicts(sets[1..], first.commit);
        DryAfter(first, RunSets(sets[1..], first.commit, false), dry, RunSets(sets[1..], first.commit, true));
      }
    }
  }

  // ---- Finding an applied set again ----

  predicate NonEmpty(ps: seq<Patch>) { forall p :: p in ps ==> p.cells != map[] }

  /** The text the series leaves in a cell; None when no patch touches it. */
  function LastText(ps: seq<Patch>, c: string): Option<Option<string>> {
    if ps == [] then None
    else if c in ps[|ps| - 1].cells then Some(ps[|ps| - 1].cells[c].after)
    else LastText(ps[..|ps| - 1], c)
  }

  /** Each patch starts a cell from where the series left it. */
  predicate Coherent(ps: seq<Patch>)
    decreases |ps|
  {
    ps == [] ||
    var last, front := ps[|ps| - 1], ps[..|ps| - 1];
    Coherent(front) &&
    forall c :: c in last.cells && LastText(front, c).Some? ==> LastText(front, c).value == last.cells[c].before
  }

  ghost predicate AtLast(t: Tree, ps: seq<Patch>) {
    forall c :: LastText(ps, c).Some? ==> At(t, c) == LastText(ps, c).value
  }

  lemma {:induction false} TakeLastOff(t: Tree, ps: seq<Patch>)
    requires ps != [] && Fits(t, ps[|ps| - 1], true)
    ensures
      var last, front := ps[|ps| - 1], ps[..|ps| - 1];
      AtLast(t, ps) && (forall c :: c in last.cells && LastText(front, c).Some? ==> LastText(front, c).value == last.cells[c].before)
      <==> AtLast(Moved(t, last, true), front)
  {
    var last, front := ps[|ps| - 1], ps[..|ps| - 1];
    var u := Moved(t, last, true);
    forall c ensures At(u, c) == (if c in last.cells then last.cells[c].before else At(t, c)) {
      MovedAt(t, last, true, c);
    }
    if AtLast(u, front) {
      forall c | LastText(ps, c).Some? ensures At(t, c) == LastText(ps, c).value {
        if c !in last.cells { assert At(u, c) == At(t, c); }
      }
      forall c | c in last.cells && LastText(front, c).Some? ensures LastText(front, c).value == last.cells[c].before {
        assert At(u, c) == last.cells[c].before;
      }
    }
  }

  /** The reverse check of a series succeeds exactly when the tree has what the series leaves,
      and the series is coherent. */
  lemma {:induction false} SeriesPresentIff(t: Tree, ps: seq<Patch>)
    ensures SeriesPresent(t, ps) <==> NonEmpty(ps) && Coherent(ps) && AtLast(t, ps)
    decreases |ps|
  {
    if ps != [] {
      var last, front := ps[|ps| - 1], ps[..|ps| - 1];
      assert ps == front + [last];
      SeriesPresentIff(Moved(t, last, true), front);
      if Fits(t, last, true) {
        TakeLastOff(t, ps);
      } else if NonEmpty(ps) {
        assert last in ps;
        var c :| c in last.cells && At(t, c) != last.cells[c].after;
        assert LastText(ps, c) == Some(last.cells[c].after);
      }
    }
  }

  function TreeAfter(t: Tree, ps: seq<Patch>): Tree {
    if ps == [] then t else Moved(TreeAfter(t, ps[..|ps| - 1]), ps[|ps| - 1], false)
  }

  lemma TreeAfterLast(t: Tree, front: seq<Patch>, last: Patch)
    ensures TreeAfter(t, front + [last]) == Moved(TreeAfter(t, front), last, false)
  {
    assert (front + [last])[..|front|] == front;
  }

  lemma {:induction false} TreeAfterFirst(t: Tree, p: Patch, rest: seq<Patch>)
    ensures TreeAfter(t, [p] + rest) == TreeAfter(Moved(t, p, false), rest)
    decreases |rest|
  {
    if rest == [] {
      TreeAfterLast(t, [], p);
      assert [p] + [] == [] + [p];
    } else {
      var front, last := rest[..|rest| - 1], rest[|rest| - 1];
      assert rest == front + [last] && [p] + rest == ([p] + front) + [last];
      TreeAfterFirst(t, p, front);
      TreeAfterLast(t, [p] + front, last);
      TreeAfterLast(Moved(t, p, false), front, last);
    }
  }

  lemma {:induction false} AfterIsLast(t: Tree, ps: seq<Patch>, c: string)
    ensures At(TreeAfter(t, ps), c) == if LastText(ps, c).Some? then LastText(ps, c).value else At(t, c)
  {
    if ps != [] {
      AfterIsLast(t, ps[..|ps| - 1], c);
      MovedAt(TreeAfter(t, ps[..|ps| - 1]), ps[|ps| - 1], false, c);
    }
  }

  predicate AllOf(outcomes: seq<Outcome>, r: Result) { forall o :: o in outcomes ==> o.result == r }

  lemma AllOfConcat(a: seq<Outcome>, b: seq<Outcome>, r: Result)
    ensures AllOf(a + b, r) <==> AllOf(a, r) && AllOf(b, r)
  {
    assert forall o :: o in a || o in b ==> o in a + b;
  }

  /** A series applied in full leaves the tree with all its patches, none of them empty. */
  lemma {:induction false} AppliedInFull(name: string, ps: seq<Patch>, c: Commit, whole: bool)
    requires AllOf(RunPatches(name, ps, c, whole, false).outcomes, Applied)
    ensures !RunPatches(name, ps, c, whole, false).conflict
    ensures RunPatches(name, ps, c, whole, false).commit.tree == TreeAfter(c.tree, ps)
    ensures NonEmpty(ps)
  {
    if ps != [] {
      var first := RunPatch(name, ps[0], c, whole, false);
      assert first.outcomes[0] in RunPatches(name, ps, c, whole, false).outcomes;
      var rest := RunPatches(name, ps[1..], first.commit, whole, false);
      AllOfConcat(first.outcomes, rest.outcomes, Applied);
      AppliedInFull(name, ps[1..], first.commit, whole);
      TreeAfterFirst(c.tree, ps[0], ps[1..]);
      assert ps == [ps[0]] + ps[1..];
    }
  }

  /** All patches are reported present exactly when each reverses or the series does, and then
      nothing changes. */
  lemma {:induction false} PresentIff(name: string, ps: seq<Patch>, c: Commit, whole: bool)
    ensures
      var run := RunPatches(name, ps, c, whole, false);
      AllOf(run.outcomes, Present) <==> whole || forall p :: p in ps ==> Fits(c.tree, p, true)
    ensures
      var run := RunPatches(name, ps, c, whole, false);
      AllOf(run.outcomes, Present) ==> !run.conflict && run.commit == c
  {
    if ps != [] {
      var first := RunPatch(name, ps[0], c, whole, false);
      assert first.outcomes[0] in RunPatches(name, ps, c, whole, false).outcomes;
      assert ps == [ps[0]] + ps[1..];
      if whole || Fits(c.tree, ps[0], true) {
        PresentIff(name, ps[1..], c, whole);
        AllOfConcat(first.outcomes, RunPatches(name, ps[1..], c, whole, false).outcomes, Present);
      } else {
        assert ps[0] in ps;
      }
    }
  }

  /** No patch leaves a cell that a later one changes again. */
  predicate Settled(ps: seq<Patch>) {
    forall p, c :: p in ps && c in p.cells ==> LastText(ps, c) == Some(p.cells[c].after)
  }

  lemma {:induction false} TouchedHasLast(ps: seq<Patch>, p: Patch, c: string)
    requires p in ps && c in p.cells
    ensures LastText(ps, c).Some?
  {
    if c !in ps[|ps| - 1].cells {
      assert ps == ps[..|ps| - 1] + [ps[|ps| - 1]];
      TouchedHasLast(ps[..|ps| - 1], p, c);
    }
  }

  lemma EachReversesIff(t: Tree, ps: seq<Patch>)
    requires NonEmpty(ps)
    ensures (forall p :: p in ps ==> Fits(TreeAfter(t, ps), p, true)) <==> Settled(ps)
  {
    var u := TreeAfter(t, ps);
    forall p, c | p in ps && c in p.cells ensures LastText(ps, c) == Some(At(u, c)) {
      TouchedHasLast(ps, p, c);
      AfterIsLast(t, ps, c);
    }
  }

  /** A single set that was applied in full is reported present by a second run, patch by patch
      and with nothing changed, exactly when its series is coherent or settled. */
  lemma SecondRunPresentExactly(s: PatchSet, c: Commit)
    requires AllOf(RunSets([s], c, false).outcomes, Applied)
    ensures
      var first := RunSets([s], c, false);
      var second := RunSets([s], first.commit, false);
      AllOf(second.outcomes, Present) && second.commit == first.commit <==> Coherent(s.patches) || Settled(s.patches)
  {
    var ps := s.patches;
    OneSet(s, c);
    AppliedInFull(s.name, ps, c, WholeSet(c.tree, ps));
    var d := RunSets([s], c, false).commit;
    OneSet(s, d);
    PresentIff(s.name, ps, d, WholeSet(d.tree, ps));
    forall x | LastText(ps, x).Some? ensures At(d.tree, x) == LastText(ps, x).value { AfterIsLast(c.tree, ps, x); }
    assert AtLast(d.tree, ps);
    SeriesPresentIff(d.tree, ps);
    EachReversesIff(c.tree, ps);
    if |ps| <= 1 { ShortIsSettled(ps); }
  }

  lemma ShortIsSettled(ps: seq<Patch>)
    requires |ps| <= 1
    ensures Settled(ps)
  {
  }

  lemma OneSet(s: PatchSet, c: Commit)
    ensures RunSets([s], c, false) == RunPatches(s.name, s.patches, c, WholeSet(c.tree, s.patches), false)
  {
    assert [s][1..] == [];
    var r := RunPatches(s.name, s.patches, c, WholeSet(c.tree, s.patches), false);
    assert r.outcomes + [] == r.outcomes;
  }

  /** Every patch applied without the three-way fallback. */
  predicate AppliedClean(t: Tree, ps: seq<Patch>)
    decreases |ps|
  {
    ps == [] ||
    (AppliedClean(t, ps[..|ps| - 1]) && Fits(TreeAfter(t, ps[..|ps| - 1]), ps[|ps| - 1], false))
  }

  lemma {:induction false} CleanIsCoherent(t: Tree, ps: seq<Patch>)
    requires AppliedClean(t, ps)
    ensures Coherent(ps)
    decreases |ps|
  {
    if ps != [] {
      var last, front := ps[|ps| - 1], ps[..|ps| - 1];
      CleanIsCoherent(t, front);
      forall c | c in last.cells && LastText(front, c).Some? ensures LastText(front, c).value == last.cells[c].before {
        AfterIsLast(t, front, c);
      }
    }
  }

  /** So a set that went in without merging is always found again, even when later patches
      rewrite what earlier ones wrote. */
  lemma CleanlyAppliedIsPresent(s: PatchSet, c: Commit)
    requires AllOf(RunSets([s], c, false).outcomes, Applied) && AppliedClean(c.tree, s.patches)
    ensures
      var first := RunSets([s], c, false);
      var second := RunSets([s], first.commit, false);
      AllOf(second.outcomes, Present) && second.commit == first.commit
  {
    CleanIsCoherent(c.tree, s.patches);
    SecondRunPresentExactly(s, c);
  }

  // A set that needs the merge can be lost: here the second patch expects "u" where the first
  // wrote "v", merges all the same, and then the set is not recognised.

  const FIRST := Patch("1", map["b" := Change(Some("w"), Some("v")), "a" := Change(Some("1"), Some("2"))], false)
  const SECOND := Patch("2", map["b" := Change(Some("u"), Some("v")), "a" := Change(Some("2"), Some("3"))], true)
  const BEFORE := Commit(map["b" := "w", "a" := "1"], [])

  lemma FirstApplies()
    ensures !Fits(BEFORE.tree, FIRST, true) && !Fits(BEFORE.tree, SECOND, true)
    ensures Am(BEFORE.tree, FIRST) == Some(Moved(BEFORE.tree, FIRST, false))
  {
    assert At(BEFORE.tree, "b") == Some("w") && At(BEFORE.tree, "a") == Some("1");
    assert "w"[0] != "v"[0] && "1"[0] != "3"[0];
    assert "b" in FIRST.cells && "a" in SECOND.cells;
  }

  lemma SecondApplies()
    ensures var t := Moved(BEFORE.tree, FIRST, false);
            !Fits(t, SECOND, true) && Am(t, SECOND) == Some(Moved(t, SECOND, false))
  {
    var t := Moved(BEFORE.tree, FIRST, false);
    MovedAt(BEFORE.tree, FIRST, false, "b");
    MovedAt(BEFORE.tree, FIRST, false, "a");
    assert "2"[0] != "3"[0];
    assert "a" in SECOND.cells && At(t, "a") != SECOND.cells["a"].after;
  }

  lemma ExampleIsIncoherent()
    ensures !Coherent([FIRST, SECOND]) && !Settled([FIRST, SECOND])
  {
    var ps := [FIRST, SECOND];
    assert ps[..1] == [FIRST] && [FIRST][..0] == [];
    assert LastText([FIRST], "b") == Some(Some("v")) && "b" in SECOND.cells;
    assert "v"[0] != "u"[0] && "2"[0] != "3"[0];
    assert LastText(ps, "a") == Some(Some("3")) && FIRST in ps && "a" in FIRST.cells;
  }

  lemma MergedSetIsNotFound(name: string)
    ensures var s := PatchSet(name, [FIRST, SECOND]);
            var first := RunSets([s], BEFORE, false);
            var second := RunSets([s], first.commit, false);
            AllOf(first.outcomes, Applied) && !(AllOf(second.outcomes, Present) && second.commit == first.commit)
  {
    var s := PatchSet(name, [FIRST, SECOND]);
    FirstApplies();
    SecondApplies();
    assert s.patches[1..] == [SECOND] && [SECOND][1..] == [];
    var c1 := Committed(BEFORE, FIRST, Moved(BEFORE.tree, FIRST, false));
    OneSet(s, BEFORE);
    TwoPatches(name, FIRST, SECOND, BEFORE, c1);
    ExampleIsIncoherent();
    SecondRunPresentExactly(s, BEFORE);
  }

  lemma TwoPatches(name: string, p: Patch, q: Patch, c: Commit, c1: Commit)
    requires RunPatch(name, p, c, false, false) == Progress([Outcome(name, p.file, Applied)], c1, false)
    requires RunPatch(name, q, c1, false, false).outcomes == [Outcome(name, q.file, Applied)]
    requires !RunPatch(name, q, c1, false, false).conflict
    ensures AllOf(RunPatches(name, [p, q], c, false, false).outcomes, Applied)
  {
    assert [p, q][1..] == [q] && [q][1..] == [];
    var second := RunPatch(name, q, c1, false, false);
    assert RunPatches(name, [], second.commit, false, false).outcomes == [];
    assert RunPatches(name, [q], c1, false, false).outcomes == second.outcomes + [];
    AllOfConcat([Outcome(name, p.file, Applied)], [Outcome(name, q.file, Applied)] + [], Applied);
  }

  // ---- What is reported ----

  /** The patches of all sets in order, each with the name of its set. */
  function Listing(name: string, ps: seq<Patch>): seq<(string, string)> {
    if ps == [] then [] else [(name, ps[0].file)] + Listing(name, ps[1..])
  }

  function ListingOf(sets: seq<PatchSet>): seq<(string, string)> {
    if sets == [] then [] else Listing(sets[0].name, sets[0].patches) + ListingOf(sets[1..])
  }

  function NamesOf(outcomes: seq<Outcome>): seq<(string, string)> {
    if outcomes == [] then [] else [(outcomes[0].setName, outcomes[0].file)] + NamesOf(outcomes[1..])
  }

  /** The files of the patches that went in, in order. */
  function AppliedFiles(outcomes: seq<Outcome>): seq<string> {
    if outcomes == [] then []
    else (if outcomes[0].result.Applied? || outcomes[0].result.WouldApply? then [outcomes[0].file] else [])
         + AppliedFiles(outcomes[1..])
  }

  lemma {:induction false} NamesConcat(a: seq<Outcome>, b: seq<Outcome>)
    ensures NamesOf(a + b) == NamesOf(a) + NamesOf(b)
  {
    if a == [] {
      assert a + b == b;
    } else {
      assert (a + b)[1..] == a[1..] + b;
      NamesConcat(a[1..], b);
    }
  }

  lemma {:induction false} FilesConcat(a: seq<Outcome>, b: seq<Outcome>)
    ensures AppliedFiles(a + b) == AppliedFiles(a) + AppliedFiles(b)
  {
    if a == [] {
      assert a + b == b;
    } else {
      assert (a + b)[1..] == a[1..] + b;
      FilesConcat(a[1..], b);
    }
  }

  /** The outcomes name the patches in order, all of them or those up to a conflict, which is the
      last; and the commits are those of the patches that went in. */
  ghost predicate Tells(run: Progress, names: seq<(string, string)>, log: seq<string>) {
    && NamesOf(run.outcomes) <= names && (!run.conflict ==> NamesOf(run.outcomes) == names)
    && (run.conflict <==> exists i :: 0 <= i < |run.outcomes| && run.outcomes[i].result.Conflict?)
    && (forall i :: 0 <= i < |run.outcomes| && run.outcomes[i].result.Conflict? ==> i == |run.outcomes| - 1)
    && run.commit.log == log + AppliedFiles(run.outcomes)
  }

  lemma OneTells(name: string, p: Patch, c: Commit, whole: bool, dryRun: bool)
    ensures Tells(RunPatch(name, p, c, whole, dryRun), [(name, p.file)], c.log)
  {
    var run := RunPatch(name, p, c, whole, dryRun);
    assert run.outcomes[1..] == [];
    assert c.log + [] == c.log;
    if run.conflict { assert run.outcomes[0].result.Conflict?; }
  }

  lemma AfterTells(first: Progress, rest: Progress, a: seq<(string, string)>, b: seq<(string, string)>, log: seq<string>)
    requires Tells(first, a, log) && !first.conflict && Tells(rest, b, first.commit.log)
    ensures Tells(After(first.outcomes, rest), a + b, log)
  {
    var run := After(first.outcomes, rest);
    NamesConcat(first.outcomes, rest.outcomes);
    FilesConcat(first.outcomes, rest.outcomes);
    assert log + AppliedFiles(first.outcomes) + AppliedFiles(rest.outcomes)
        == log + (AppliedFiles(first.outcomes) + AppliedFiles(rest.outcomes));
    if rest.conflict {
      var i :| 0 <= i < |rest.outcomes| && rest.outcomes[i].result.Conflict?;
      assert run.outcomes[|first.outcomes| + i] == rest.outcomes[i];
    }
  }

  lemma ConflictTells(first: Progress, a: seq<(string, string)>, b: seq<(string, string)>, log: seq<string>)
    requires Tells(first, a, log) && first.conflict
    ensures Tells(first, a + b, log)
  {
  }

  lemma {:induction false} PatchesTell(name: string, ps: seq<Patch>, c: Commit, whole: bool, dryRun: bool)
    ensures Tells(RunPatches(name, ps, c, whole, dryRun), Listing(name, ps), c.log)
  {
    if ps == [] {
      assert c.log + [] == c.log;
    } else {
      var first := RunPatch(name, ps[0], c, whole, dryRun);
      OneTells(name, ps[0], c, whole, dryRun);
      if first.conflict {
        ConflictTells(first, [(name, ps[0].file)], Listing(name, ps[1..]), c.log);
      } else {
        PatchesTell(name, ps[1..], first.commit, whole, dryRun);
        AfterTells(first, RunPatches(name, ps[1..], first.commit, whole, dryRun), [(name, ps[0].file)], Listing(name, ps[1..]), c.log);
      }
    }
  }

  lemma {:induction false} OutcomesTell(sets: seq<PatchSet>, c: Commit, dryRun: bool)
    ensures Tells(RunSets(sets, c, dryRun), ListingOf(sets), c.log)
  {
    if sets == [] {
      assert c.log + [] == c.log;
    } else {
      var ps, whole := sets[0].patches, WholeSet(c.tree, sets[0].patches);
      var first := RunPatches(sets[0].name, ps, c, whole, dryRun);
      PatchesTell(sets[0].name, ps, c, whole, dryRun);
      if first.conflict {
        ConflictTells(first, Listing(sets[0].name, ps), ListingOf(sets[1..]), c.log);
      } else {
        OutcomesTell(sets[1..], first.commit, dryRun);
        AfterTells(first, RunSets(sets[1..], first.commit, dryRun), Listing(sets[0].name, ps), ListingOf(sets[1..]), c.log);
      }
    }
  }

  /** After success the named branch is checked out, with the commits of the patches that went in
      on top of what was checked out; every other branch is where it was. */
  lemma SuccessLeavesBranch(g: Git, sets: seq<PatchSet>, branch: string, other: string)
    requires Sound(g) && !RunSets(sets, HeadOf(g), false).conflict
    ensures
      var after := ApplyOn(g, sets, branch);
      && after.head == OnBranch(branch) && Sound(after)
      && HeadOf(after).log == HeadOf(g).log + AppliedFiles(RunSets(sets, HeadOf(g), false).outcomes)
      && (other != branch ==> (other in after.branches <==> other in g.branches))
      && (other != branch && other in g.branches ==> after.branches[other] == g.branches[other])
  {
    OutcomesTell(sets, HeadOf(g), false);
  }
}
