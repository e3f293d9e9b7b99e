/** Carried patch sets: applying them on a branch, finding them already there, and putting
    everything back on a conflict.  A tree maps cells (the places hunks touch) to text. */
module Patches {
  import opened Option

  type Tree = map<string, string>

  function At(t: Tree, c: string): Option<string> { if c in t then Some(t[c]) else None }

  datatype Change = Change(before: Option<string>, after: Option<string>)

  /** blobs: the repository has the blobs a three-way merge of the patch needs. */
  datatype Patch = Patch(file: string, cells: map<string, Change>, blobs: bool)

  datatype PatchSet = PatchSet(name: string, patches: seq<Patch>)

  // ---- git apply and git am ----

  function Target(ch: Change, reverse: bool): Option<string> { if reverse then ch.before else ch.after }

  function NextAt(t: Tree, p: Patch, reverse: bool, c: string): Option<string> {
    if c in p.cells then Target(p.cells[c], reverse) else At(t, c)
  }

  /** The tree with every cell of the patch moved to its new (or, in reverse, old) text. */
  function Moved(t: Tree, p: Patch, reverse: bool): Tree {
    map c | c in t.Keys + p.cells.Keys && NextAt(t, p, reverse, c).Some? :: NextAt(t, p, reverse, c).value
  }

  lemma MovedAt(t: Tree, p: Patch, reverse: bool, c: string)
    ensures At(Moved(t, p, reverse), c) == NextAt(t, p, reverse, c)
  {
  }

  /** `git apply`, or `git apply --reverse`, would succeed.  A patch without hunks never does. */
  predicate Fits(t: Tree, p: Patch, reverse: bool) {
    p.cells != map[] && forall c :: c in p.cells ==> At(t, c) == Target(p.cells[c], !reverse)
  }

  /** `git am --3way`: the patch applies, or it merges, every cell being at one of its texts. */
  function Am(t: Tree, p: Patch): Option<Tree> {
    if Fits(t, p, false) ||
      (p.blobs && p.cells != map[] &&
        forall c :: c in p.cells ==> At(t, c) == p.cells[c].before || At(t, c) == p.cells[c].after)
    then Some(Moved(t, p, false))
    else None
  }

  /** `_series_present`: the series comes off in reverse, last patch first. */
  predicate SeriesPresent(t: Tree, ps: seq<Patch>)
    decreases |ps|
  {
    ps == [] ||
    (Fits(t, ps[|ps| - 1], true) && SeriesPresent(Moved(t, ps[|ps| - 1], true), ps[..|ps| - 1]))
  }

  // ---- Processing the sets ----

  /** A commit is its tree and the patches committed since some starting point. */
  datatype Commit = Commit(tree: Tree, log: seq<string>)

  datatype Result = Applied | WouldApply | Present | Conflict

  datatype Outcome = Outcome(setName: string, file: string, result: Result)

  datatype Progress = Progress(outcomes: seq<Outcome>, commit: Commit, conflict: bool)

  function After(outcomes: seq<Outcome>, rest: Progress): Progress {
    rest.(outcomes := outcomes + rest.outcomes)
  }

  function Committed(c: Commit, p: Patch, t: Tree): Commit { Commit(t, c.log + [p.file]) }

  /** One patch: skipped when present, else applied and committed. */
  function RunPatch(name: string, p: Patch, c: Commit, whole: bool, dryRun: bool): Progress {
    if whole || Fits(c.tree, p, true) then Progress([Outcome(name, p.file, Present)], c, false)
    else
      match Am(c.tree, p)
      case None => Progress([Outcome(name, p.file, Conflict)], c, true)
      case Some(t) => Progress([Outcome(name, p.file, if dryRun then WouldApply else Applied)], Committed(c, p, t), false)
  }

  function RunPatches(name: string, ps: seq<Patch>, c: Commit, whole: bool, dryRun: bool): Progress {
    if ps == [] then Progress([], c, false)
    else
      var first := RunPatch(name, ps[0], c, whole, dryRun);
      if first.conflict then first else After(first.outcomes, RunPatches(name, ps[1..], first.commit, whole, dryRun))
  }

  predicate WholeSet(t: Tree, ps: seq<Patch>) { |ps| > 1 && SeriesPresent(t, ps) }

  function RunSets(sets: seq<PatchSet>, c: Commit, dryRun: bool): Progress {
    if sets == [] then Progress([], c, false)
    else
      var first := RunPatches(sets[0].name, sets[0].patches, c, WholeSet(c.tree, sets[0].patches), dryRun);
      if first.conflict then first else After(first.outcomes, RunSets(sets[1..], first.commit, dryRun))
  }

  // ---- The repository ----

  datatype Head = OnBranch(name: string) | Detached(commit: Commit)

  datatype Git = Git(branches: map<string, Commit>, head: Head)

  predicate Sound(g: Git) { g.head.OnBranch? ==> g.head.name in g.branches }

  function HeadOf(g: Git): Commit
    requires Sound(g)
  {
    match g.head
    case OnBranch(name) => g.branches[name]
    case Detached(c) => c
  }

  function MoveHead(g: Git, c: Commit): Git
  {
    match g.head
    case OnBranch(name) => g.(branches := g.branches[name := c])
    case Detached(_) => g.(head := Detached(c))
  }

  lemma MoveHeadTwice(g: Git, c: Commit, d: Commit)
    ensures MoveHead(MoveHead(g, c), d) == MoveHead(g, d)
    ensures Sound(g) ==> Sound(MoveHead(g, c)) && HeadOf(MoveHead(g, c)) == c
    ensures Sound(g) ==> MoveHead(g, HeadOf(g)) == g
  {
  }

  lemma OnNewBranch(branches: map<string, Commit>, branch: string, base: Commit, c: Commit)
    ensures MoveHead(Git(branches[branch := base], OnBranch(branch)), c) == Git(branches[branch := c], OnBranch(branch))
  {
  }

  lemma AfterAfter(a: seq<Outcome>, b: seq<Outcome>, rest: Progress)
    ensures After(a, After(b, rest)) == After(a + b, rest)
    ensures After([], rest) == rest
  {
    assert a + (b + rest.outcomes) == (a + b) + rest.outcomes;
    assert [] + rest.outcomes == rest.outcomes;
  }

  /** `git branch -D`, which refuses the branch that is checked out. */
  function DeleteBranch(g: Git, name: string): Git {
    if g.head == OnBranch(name) then g else g.(branches := g.branches - {name})
  }

  /** The repository after `apply` on a clean tree of a fitting version. */
  function ApplyOn(g: Git, sets: seq<PatchSet>, branch: string): Git
    requires Sound(g)
  {
    var base := HeadOf(g);
    var run := RunSets(sets, base, false);
    var onBranch := Git(g.branches[branch := run.commit], OnBranch(branch));
    if !run.conflict then onBranch
    else DeleteBranch(onBranch.(head := if g.head.OnBranch? then g.head else Detached(base)), branch)
  }

  datatype ApplyResult =
    | Refused
    | Conflicted(outcomes: seq<Outcome>)
    | Done(base: Commit, newHead: Commit, outcomes: seq<Outcome>)

  class Repository {
    var branches: map<string, Commit>
    var head: Head

    ghost function State(): Git
      reads this
    {
      Git(branches, head)
    }

    ghost predicate Valid()
      reads this
    {
      Sound(State())
    }

    constructor (branches: map<string, Commit>, head: Head)
      requires Sound(Git(branches, head))
      ensures Valid() && State() == Git(branches, head)
    {
      this.branches, this.head := branches, head;
    }

    method RevParse() returns (c: Commit)
      requires Valid()
      ensures c == HeadOf(State())
    {
      match head {
        case OnBranch(name) => c := branches[name];
        case Detached(commit) => c := commit;
      }
    }

    method MoveTo(c: Commit)
      requires Valid()
      modifies this
      ensures Valid() && State() == MoveHead(old(State()), c) && HeadOf(State()) == c
    {
      match head {
        case OnBranch(name) => branches := branches[name := c];
        case Detached(_) => head := Detached(c);
      }
    }

    method ProcessPatch(name: string, p: Patch, c: Commit, whole: bool, dryRun: bool) returns (ghost step: Progress, outcome: Outcome)
      requires Valid() && c == HeadOf(State())
      modifies this
      ensures step == RunPatch(name, p, c, whole, dryRun) && step.outcomes == [outcome]
      ensures step.conflict == outcome.result.Conflict?
      ensures Valid() && State() == MoveHead(old(State()), step.commit)
    {
      step := RunPatch(name, p, c, whole, dryRun);
      MoveHeadTwice(State(), c, c);
      if whole || Fits(c.tree, p, true) {
        return step, Outcome(name, p.file, Present);
      }
      var am := Am(c.tree, p);
      if am.None? {
        return step, Outcome(name, p.file, Conflict);
      }
      MoveTo(Committed(c, p, am.value));
      return step, Outcome(name, p.file, if dryRun then WouldApply else Applied);
    }

    /** The patches of one set; stops at a conflict. */
    method ProcessSet(ps: PatchSet, dryRun: bool) returns (outcomes: seq<Outcome>, ok: bool)
      requires Valid()
      modifies this
      ensures Valid()
      ensures
        var c := HeadOf(old(State()));
        var run := RunPatches(ps.name, ps.patches, c, WholeSet(c.tree, ps.patches), dryRun);
        outcomes == run.outcomes && ok == !run.conflict && State() == MoveHead(old(State()), run.commit)
    {
      var c := RevParse();
      ghost var start, g := c, State();
      var whole := WholeSet(c.tree, ps.patches);
      ghost var run := RunPatches(ps.name, ps.patches, start, whole, dryRun);
      outcomes, ok := [], true;
      assert ps.patches[0..] == ps.patches;
      MoveHeadTwice(g, c, c);
      AfterAfter([], [], run);
      for i := 0 to |ps.patches|
        invariant Valid() && c == HeadOf(State()) && State() == MoveHead(g, c)
        invariant run == After(outcomes, RunPatches(ps.name, ps.patches[i..], c, whole, dryRun))
        invariant ok
      {
        assert ps.patches[i..][0] == ps.patches[i] && ps.patches[i..][1..] == ps.patches[i + 1..];
        ghost var step;
        var outcome;
        step, outcome := ProcessPatch(ps.name, ps.patches[i], c, whole, dryRun);
        MoveHeadTwice(g, c, step.commit);
        AfterAfter(outcomes, [outcome], RunPatches(ps.name, ps.patches[i + 1..], step.commit, whole, dryRun));
        outcomes := outcomes + [outcome];
        if outcome.result.Conflict? {
          return outcomes, false;
        }
        c := RevParse();
      }
    }

    /** `_process`. */
    method Process(sets: seq<PatchSet>, dryRun: bool) returns (outcomes: seq<Outcome>, ok: bool)
      requires Valid()
      modifies this
      ensures Valid()
      ensures
        var run := RunSets(sets, HeadOf(old(State())), dryRun);
        outcomes == run.outcomes && ok == !run.conflict && State() == MoveHead(old(State()), run.commit)
    {
      var c := RevParse();
      ghost var g, run := State(), RunSets(sets, c, dryRun);
      outcomes, ok := [], true;
      assert sets[0..] == sets;
      MoveHeadTwice(g, c, c);
      AfterAfter([], [], run);
      for i := 0 to |sets|
        invariant Valid() && c == HeadOf(State()) && State() == MoveHead(g, c)
        invariant run == After(outcomes, RunSets(sets[i..], c, dryRun))
        invariant ok
      {
        assert sets[i..][0] == sets[i] && sets[i..][1..] == sets[i + 1..];
        ghost var step := RunPatches(sets[i].name, sets[i].patches, c, WholeSet(c.tree, sets[i].patches), dryRun);
        var more, fine := ProcessSet(sets[i], dryRun);
        MoveHeadTwice(g, c, step.commit);
        AfterAfter(outcomes, more, RunSets(sets[i + 1..], step.commit, dryRun));
        outcomes := outcomes + more;
        if !fine {
          return outcomes, false;
        }
        c := RevParse();
      }
    }

    /** `check`: the same in a throwaway worktree, detached at HEAD. */
    method Check(sets: seq<PatchSet>) returns (outcomes: seq<Outcome>)
      requires Valid()
      ensures outcomes == RunSets(sets, HeadOf(State()), true).outcomes
    {
      var c := RevParse();
      var worktree := new Repository(branches, Detached(c));
      var ok;
      outcomes, ok := worktree.Process(sets, true);
    }

    /** `apply`. */
    method Apply(sets: seq<PatchSet>, branch: string, dirty: bool, fitsVersion: bool) returns (result: ApplyResult)
      requires Valid()
      modifies this
      ensures Valid()
      ensures
        var run := RunSets(sets, HeadOf(old(State())), false);
        if dirty || !fitsVersion then result == Refused && State() == old(State())
        else
          && State() == ApplyOn(old(State()), sets, branch)
          && result == if run.conflict then Conflicted(run.outcomes)
                       else Done(HeadOf(old(State())), run.commit, run.outcomes)
    {
      if dirty || !fitsVersion {
        return Refused;
      }
      var base := RevParse();
      var origRef := if head.OnBranch? then head else Detached(base);
      ghost var g := State();
      CheckoutNew(branch, base);
      var outcomes, ok := Process(sets, false);
      OnNewBranch(g.branches, branch, base, RunSets(sets, base, false).commit);
      var newHead := RevParse();
      if !ok {
        PutBack(origRef, branch);
        return Conflicted(outcomes);
      }
      return Done(base, newHead, outcomes);
    }

    method CheckoutNew(branch: string, base: Commit)
      modifies this
      ensures Valid() && State() == Git(old(branches)[branch := base], OnBranch(branch)) && HeadOf(State()) == base
    {
      branches, head := branches[branch := base], OnBranch(branch);
    }

    /** After a conflict: back to the original branch or commit, and the new branch deleted. */
    method PutBack(origRef: Head, branch: string)
      requires origRef.OnBranch? ==> origRef.name in branches
      modifies this
      ensures Valid() && State() == DeleteBranch(Git(old(branches), origRef), branch)
    {
      head := origRef;
      if head != OnBranch(branch) {
        branches := branches - {branch};
      }
    }
  }
}
