/** Install records of a snapshot, and rollback as a stack over them. */
module Rollback {
  import opened Option

  /** One record.json: unreadable, or what an install left.  ok says whether its steps passed. */
  datatype File = Corrupt | Record(packages: seq<string>, ok: bool, rolledBack: bool)

  /** Records by timestamp, which is the name of their directory. */
  type Records = map<nat, File>

  predicate Eligible(rs: Records, t: nat) { t in rs && rs[t].Record? && !rs[t].rolledBack }

  predicate IsNewest(rs: Records, t: nat) {
    Eligible(rs, t) && forall u :: u in rs && Eligible(rs, u) ==> u <= t
  }

  function Marked(rs: Records, t: nat): Records
    requires Eligible(rs, t)
  {
    rs[t := rs[t].(rolledBack := true)]
  }

  predicate AllOk(runs: seq<bool>) { forall r :: r in runs ==> r }

  /** Fail fast: the steps that run, given how each would end. */
  method RunSteps(steps: seq<bool>) returns (runs: seq<bool>)
    ensures runs <= steps
    ensures AllOk(runs) ==> runs == steps
    ensures !AllOk(runs) ==> AllOk(runs[..|runs| - 1])
    ensures AllOk(runs) == AllOk(steps)
  {
    runs := [];
    for i := 0 to |steps|
      invariant runs == steps[..i] && AllOk(runs)
    {
      runs := runs + [steps[i]];
      if !steps[i] {
        assert runs[|runs| - 1] in runs && steps[i] in steps;
        assert runs[..|runs| - 1] == steps[..i];
        return;
      }
    }
  }

  lemma NewestOf(s: set<nat>) returns (m: nat)
    requires s != {}
    ensures m in s && forall x :: x in s ==> x <= m
  {
    m :| m in s;
    var rest := s - {m};
    if rest != {} {
      var n := NewestOf(rest);
      if m < n { m := n; }
    }
    assert forall x :: x in s ==> x == m || x in rest || x <= m;
  }

  /** Why a rollback did nothing, or what it undid. */
  datatype Status = NoRecord | Rejected | StepFailed | Undone(t: nat)

  /** What a rollback does with the records: step results and whether the mark can be saved
      come from outside. */
  ghost predicate Rolled(rs: Records, rs': Records, supported: bool, stepsOk: bool, saved: bool, status: Status) {
    match status
    case NoRecord => rs' == rs && forall x :: x in rs ==> !Eligible(rs, x)
    case Rejected => rs' == rs && exists x :: IsNewest(rs, x) && (!supported || rs[x].packages == [])
    case StepFailed => rs' == rs && !stepsOk && exists x :: IsNewest(rs, x) && supported && rs[x].packages != []
    case Undone(t) =>
      IsNewest(rs, t) && supported && rs[t].packages != [] && stepsOk && rs' == if saved then Marked(rs, t) else rs
  }

  class InstallDir {
    var records: Records

    constructor ()
      ensures records == map[]
    {
      records := map[];
    }

    /** `install.execute`: a record is written whatever the steps did. */
    method Install(t: nat, packages: seq<string>, steps: seq<bool>) returns (ok: bool)
      modifies this
      ensures ok == AllOk(steps)
      ensures records == old(records)[t := Record(packages, ok, false)]
    {
      var runs := RunSteps(steps);
      ok := AllOk(runs);
      records := records[t := Record(packages, ok, false)];
    }

    /** `find_latest_install_record`: newest first, skipping unreadable and undone records. */
    method FindLatest() returns (r: Option<nat>)
      ensures r.None? ==> forall t :: t in records ==> !Eligible(records, t)
      ensures r.Some? ==> IsNewest(records, r.value)
    {
      var rest := records.Keys;
      while rest != {}
        invariant rest <= records.Keys
        invariant forall t :: t in records && t !in rest ==> !Eligible(records, t)
        decreases |rest|
      {
        ghost var top := NewestOf(rest);
        var t :| t in rest && forall x :: x in rest ==> x <= t;
        rest := rest - {t};
        if records[t].Record? && !records[t].rolledBack {
          return Some(t);
        }
      }
      return None;
    }

    /** `build_plan` and `execute`; supported: the bootloader and the distribution family are. */
    method Rollback(supported: bool, steps: seq<bool>, saved: bool) returns (status: Status)
      modifies this
      ensures Rolled(old(records), records, supported, AllOk(steps), saved, status)
    {
      var latest := FindLatest();
      if latest.None? {
        return NoRecord;
      }
      var t := latest.value;
      if !supported || records[t].packages == [] {
        return Rejected;
      }
      var runs := RunSteps(steps);
      if !AllOk(runs) {
        return StepFailed;
      }
      if saved {
        records := Marked(records, t);
      }
      return Undone(t);
    }
  }

  // ---- Any interleaving of installs and rollbacks ----

  datatype Event =
    | Installed(t: nat, packages: seq<string>, ok: bool)
    | RolledBack(supported: bool, stepsOk: bool, saved: bool, status: Status)

  ghost predicate Step(rs: Records, e: Event, rs': Records) {
    match e
    case Installed(t, packages, ok) => rs' == rs[t := Record(packages, ok, false)]
    case RolledBack(supported, stepsOk, saved, status) => Rolled(rs, rs', supported, stepsOk, saved, status)
  }

  /** What happened so far, the latest event outermost, with the records it left. */
  datatype History = Start(records: Records) | Then(before: History, e: Event, left: Records)

  function RecordsOf(h: History): Records { if h.Start? then h.records else h.left }

  ghost predicate Real(h: History) {
    h.Then? ==> Real(h.before) && Step(RecordsOf(h.before), h.e, h.left)
  }

  /** Every install comes later than all records before it. */
  ghost predicate Increasing(h: History) {
    h.Then? ==>
      && Increasing(h.before)
      && (h.e.Installed? ==> forall u :: u in RecordsOf(h.before) ==> u < h.e.t)
  }

  /** From nothing; installs come at increasing times and with packages; marks are saved. */
  ghost predicate Orderly(h: History) {
    match h
    case Start(rs) => rs == map[]
    case Then(b, e, _) =>
      && Orderly(b)
      && (e.Installed? ==> e.packages != [] && forall u :: u in RecordsOf(b) ==> u < e.t)
      && (e.RolledBack? ==> e.saved)
  }

  /** The stack the history amounts to: an install pushes, a rollback that undid t pops. */
  function Stack(h: History): seq<nat> {
    if h.Start? then []
    else
      var s := Stack(h.before);
      match h.e
      case Installed(t, _, _) => s + [t]
      case RolledBack(_, _, _, status) => if status.Undone? && s != [] then s[..|s| - 1] else s
  }

  ghost predicate Ascending(s: seq<nat>) { forall i, j :: 0 <= i < j < |s| ==> s[i] < s[j] }

  /** The eligible records are the stack, oldest at the bottom; every record has packages. */
  ghost predicate IsStack(rs: Records, s: seq<nat>) {
    && Ascending(s)
    && (forall x :: x in s <==> Eligible(rs, x))
    && (forall x :: x in rs ==> rs[x].Record? && rs[x].packages != [])
  }

  lemma Push(rs: Records, s: seq<nat>, t: nat, packages: seq<string>, ok: bool)
    requires IsStack(rs, s) && packages != [] && forall u :: u in rs ==> u < t
    ensures IsStack(rs[t := Record(packages, ok, false)], s + [t])
  {
    assert forall i :: 0 <= i < |s| ==> s[i] in s && Eligible(rs, s[i]);
    var pushed := rs[t := Record(packages, ok, false)];
    forall x ensures x in s + [t] <==> Eligible(pushed, x) {
      assert x in s <==> Eligible(rs, x);
    }
  }

  lemma Pop(rs: Records, s: seq<nat>, t: nat)
    requires IsStack(rs, s) && IsNewest(rs, t)
    ensures s != [] && t == s[|s| - 1]
    ensures IsStack(Marked(rs, t), s[..|s| - 1])
  {
    assert t in s;
    assert s[|s| - 1] in s && Eligible(rs, s[|s| - 1]);
    var popped := s[..|s| - 1];
    assert s == popped + [t];
    forall x ensures x in popped <==> Eligible(Marked(rs, t), x) {
      assert x in s <==> Eligible(rs, x);
    }
  }

  lemma {:induction false} RecordsAreStack(h: History)
    requires Real(h) && Orderly(h)
    ensures IsStack(RecordsOf(h), Stack(h))
  {
    if h.Then? {
      RecordsAreStack(h.before);
      if h.e.Installed? {
        Push(RecordsOf(h.before), Stack(h.before), h.e.t, h.e.packages, h.e.ok);
      } else if h.e.status.Undone? {
        Pop(RecordsOf(h.before), Stack(h.before), h.e.status.t);
      }
    }
  }

  /** A rollback in an orderly history does exactly one of these: it undoes the top of the
      stack; or it leaves every record as it was, and then the stack is empty, the system is
      not supported, or a step failed. */
  lemma RollbackPops(h: History)
    requires Real(h) && Orderly(h) && h.Then? && h.e.RolledBack?
    ensures var s := Stack(h.before);
            if s != [] && h.e.supported && h.e.stepsOk then
              h.e.status == Undone(s[|s| - 1]) && Stack(h) == s[..|s| - 1]
            else
              !h.e.status.Undone? && Stack(h) == s && h.left == RecordsOf(h.before)
  {
    RecordsAreStack(h.before);
    var s, rs := Stack(h.before), RecordsOf(h.before);
    if s != [] {
      assert s[|s| - 1] in s && Eligible(rs, s[|s| - 1]);
    }
    if h.e.status.Undone? {
      Pop(rs, s, h.e.status.t);
    }
  }

  function TimesInstalled(h: History, t: nat): nat {
    if h.Start? then 0 else TimesInstalled(h.before, t) + if h.e.Installed? && h.e.t == t then 1 else 0
  }

  function TimesUndone(h: History, t: nat): nat {
    if h.Start? then 0 else TimesUndone(h.before, t) + if h.e.RolledBack? && h.e.status == Undone(t) then 1 else 0
  }

  lemma {:induction false} InstalledOnce(h: History, t: nat)
    requires Real(h) && Orderly(h)
    ensures TimesInstalled(h, t) == if t in RecordsOf(h) then 1 else 0
  {
    if h.Then? { InstalledOnce(h.before, t); }
  }

  /** No install is undone twice, nothing is undone that was not installed, and what is on the
      stack is what is installed and not undone. */
  lemma {:induction false} UndoneOnce(h: History, t: nat)
    requires Real(h) && Orderly(h)
    ensures TimesInstalled(h, t) <= 1
    ensures TimesInstalled(h, t) == TimesUndone(h, t) + if t in Stack(h) then 1 else 0
  {
    InstalledOnce(h, t);
    if h.Then? {
      UndoneOnce(h.before, t);
      InstalledOnce(h.before, t);
      if h.e.RolledBack? {
        UndoneTop(h, t);
      } else {
        assert t in Stack(h) <==> t in Stack(h.before) || t == h.e.t;
      }
    }
  }

  /** A rollback takes off the stack exactly what it undid. */
  lemma UndoneTop(h: History, t: nat)
    requires Real(h) && Orderly(h) && h.Then? && h.e.RolledBack?
    ensures h.e.status == Undone(t) ==> t in Stack(h.before) && t !in Stack(h)
    ensures h.e.status != Undone(t) ==> (t in Stack(h) <==> t in Stack(h.before))
  {
    RecordsAreStack(h.before);
    RollbackPops(h);
    var s := Stack(h.before);
    if h.e.status.Undone? { assert s == s[..|s| - 1] + [s[|s| - 1]]; }
  }

  // ---- Where the stack ends ----

  function Origin(h: History): Records { if h.Start? then h.records else Origin(h.before) }

  /** A record without packages, which `install --commit` leaves, is never rolled back, and no
      rollback ever reaches a record below it. */
  lemma {:induction false} EmptyRecordBlocks(h: History, t: nat, u: nat)
    requires Real(h) && Increasing(h)
    requires Eligible(Origin(h), t) && Origin(h)[t].packages == [] && u <= t
    ensures t in RecordsOf(h) && RecordsOf(h)[t] == Origin(h)[t]
    ensures u in RecordsOf(h) <==> u in Origin(h)
    ensures u in Origin(h) ==> RecordsOf(h)[u] == Origin(h)[u]
    ensures TimesUndone(h, u) == 0
  {
    if h.Then? {
      EmptyRecordBlocks(h.before, t, u);
    }
  }

  /** If the mark cannot be saved, the same install is undone again. */
  lemma UnsavedIsUndoneAgain(rs: Records, rs': Records, rs'': Records, t: nat, status: Status)
    requires Rolled(rs, rs', true, true, false, Undone(t))
    requires Rolled(rs', rs'', true, true, true, status)
    ensures status == Undone(t)
  {
  }
}
