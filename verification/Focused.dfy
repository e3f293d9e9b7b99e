/** Candidates for trimming: all of them, and the ranked ones that belong to shipped modules. */
module Focused {
  import opened Option
  import opened Lines
  import opened Order
  import Alias

  /** Value of each symbol in the running configuration. */
  type Running = map<string, string>

  /** The symbols a module source path may belong to, best guess first. */
  type Configs = string -> seq<string>

  /** Path prefixes and their scores; the first prefix that fits decides. */
  type Table = seq<(string, nat)>

  // ---- All candidates ----

  predicate Enabled(running: Running, sym: string) {
    sym in running && (running[sym] == "y" || running[sym] == "m")
  }

  function Trims(running: Running, required: set<string>): set<string> {
    set sym | sym in running && Enabled(running, sym) && sym !in required
  }

  /** `candidate_trims`. */
  method CandidateTrims(running: Running, required: set<string>) returns (r: seq<string>)
    ensures IsListing(r, Trims(running, required), LexLeq)
    ensures forall sym :: sym in r <==> sym in running && running[sym] in {"y", "m"} && sym !in required
  {
    LexLeqIsTotalOrder();
    r := Sort(Trims(running, required), LexLeq);
  }

  // ---- modules.dep ----

  predicate EndsWith(s: string, tail: string) {
    |tail| <= |s| && s[|s| - |tail|..] == tail
  }

  /** Without the module suffix, compressed or not. */
  function DropKo(s: string): string {
    if EndsWith(s, ".ko.zst") then s[..|s| - 7]
    else if EndsWith(s, ".ko.gz") then s[..|s| - 6]
    else if EndsWith(s, ".ko.xz") then s[..|s| - 6]
    else if EndsWith(s, ".ko") then s[..|s| - 3]
    else s
  }

  /** The source path of the module a line of modules.dep is about.  (The module name is the
      last part of it; that part must not be empty.) */
  function DepPath(line: string): Option<string> {
    var head := Strip(Alias.Key(line));
    if !("kernel/" <= head) then None
    else
      var rel := head[7..];
      var path := DropKo(rel);
      if path == "" || path == rel || path[|path| - 1] == '/' then None else Some(path)
  }

  /** The compressions of a module file, and none. */
  predicate IsSuffix(t: string) { t == ".ko" || t == ".ko.zst" || t == ".ko.gz" || t == ".ko.xz" }

  lemma EndsOf(s: string, path: string, t: string)
    requires s == path + t
    ensures EndsWith(s, t) && s[..|s| - |t|] == path
  {
  }

  lemma SuffixesApart(path: string, t: string, u: string)
    requires IsSuffix(t) && IsSuffix(u) && EndsWith(path + t, u)
    ensures t == u
  {
    var s := path + t;
    assert s[|s| - 2] == t[|t| - 2];
    assert s[|s| - |u|..][|u| - 2] == u[|u| - 2];
    assert ".ko"[1] == 'k' && ".ko.zst"[5] == 's' && ".ko.gz"[4] == 'g' && ".ko.xz"[4] == 'x';
  }

  lemma DropKoOf(path: string, t: string)
    requires IsSuffix(t)
    ensures DropKo(path + t) == path
  {
    EndsOf(path + t, path, t);
    forall u | IsSuffix(u) && EndsWith(path + t, u) ensures u == t { SuffixesApart(path, t, u); }
  }

  lemma DropKoIs(s: string, path: string)
    ensures DropKo(s) == path && path != s <==> exists t :: IsSuffix(t) && s == path + t
  {
    if DropKo(s) == path && path != s {
      var t := s[|path|..];
      assert IsSuffix(t) && s == path + t;
    }
    forall t | IsSuffix(t) && s == path + t ensures DropKo(s) == path && path != s { DropKoOf(path, t); }
  }

  /** A line names the source path of a module exactly when what stands before its first colon is,
      blanks aside, "kernel/", the path and the ending of a module file; and the path has a last
      part. */
  lemma DepPathExactly(head: string, rest: string, path: string)
    requires ':' !in head
    ensures
      var names := path != "" && path[|path| - 1] != '/' && exists t :: IsSuffix(t) && Strip(head) == "kernel/" + (path + t);
      && (DepPath(head) == Some(path) <==> names)
      && (DepPath(head + (":" + rest)) == Some(path) <==> names)
  {
    Alias.KeyBeforeColon(head, rest);
    var h := Strip(head);
    if "kernel/" <= h {
      assert h == "kernel/" + h[7..];
      DropKoIs(h[7..], path);
      forall t ensures h == "kernel/" + (path + t) <==> h[7..] == path + t {
        if h == "kernel/" + (path + t) { assert h[7..] == path + t; }
      }
    } else {
      forall t ensures h != "kernel/" + (path + t) {
        assert "kernel/" <= "kernel/" + (path + t);
      }
    }
  }

  /** The values of f that are present, in order. */
  function Collect(xs: seq<string>, f: string -> Option<string>): seq<string> {
    if xs == [] then []
    else
      var front := Collect(xs[..|xs| - 1], f);
      match f(xs[|xs| - 1])
      case Some(p) => front + [p]
      case None => front
  }

  lemma {:induction false} CollectMembers(xs: seq<string>, f: string -> Option<string>, y: string)
    ensures y in Collect(xs, f) <==> exists x :: x in xs && f(x) == Some(y)
  {
    if xs != [] {
      var last := xs[|xs| - 1];
      CollectMembers(xs[..|xs| - 1], f, y);
      assert xs == xs[..|xs| - 1] + [last];
    }
  }

  /** `_module_dep_entries`. */
  function DepPaths(lines: seq<string>): seq<string> { Collect(lines, DepPath) }

  // ---- Scores ----

  datatype Score = Score(prefix: nat, value: nat, path: string)

  /** Comparison of the score tuples. */
  predicate Less(a: Score, b: Score) {
    a.prefix < b.prefix ||
    (a.prefix == b.prefix && (a.value < b.value ||
      (a.value == b.value && a.path != b.path && LexLeq(a.path, b.path))))
  }

  function PrefixScore(path: string, table: Table): nat {
    if table == [] then 100
    else if table[0].0 <= path then table[0].1
    else PrefixScore(path, table[1..])
  }

  /** Optional hardware first, core plumbing last. */
  const PATH_PREFIX_SCORES: Table := [
    ("drivers/counter/", 0), ("drivers/watchdog/", 2), ("drivers/auxdisplay/", 4),
    ("drivers/input/joystick/", 6), ("drivers/staging/", 8), ("drivers/iio/", 10),
    ("drivers/media/", 12), ("drivers/infiniband/", 14), ("drivers/mtd/", 16),
    ("drivers/nvmem/", 18), ("drivers/usb/serial/", 20), ("drivers/usb/gadget/", 22),
    ("drivers/gpu/drm/", 30), ("drivers/platform/x86/", 32), ("drivers/bluetooth/", 34),
    ("drivers/net/wireless/", 36), ("drivers/net/ethernet/", 38), ("drivers/net/usb/", 40),
    ("drivers/hid/", 42), ("drivers/input/", 44), ("drivers/hwmon/", 46),
    ("drivers/rtc/", 48), ("drivers/mmc/", 50), ("drivers/ata/", 52),
    ("drivers/scsi/", 54), ("drivers/nvme/target/", 56), ("fs/", 70),
    ("net/bluetooth/", 80), ("net/sched/", 82), ("net/netfilter/", 84),
    ("net/", 90), ("crypto/", 140), ("lib/", 150),
    ("kernel/", 160), ("mm/", 170), ("arch/", 180)]

  /** `_focused_score`. */
  function FocusedScore(path: string, current: string, table: Table): Score {
    Score(PrefixScore(path, table), if current == "m" then 0 else 25, path)
  }

  /** The best score of a symbol over the paths it may belong to. */
  function BestScore(sym: string, current: string, paths: seq<string>, configs: Configs, table: Table): Option<Score> {
    if paths == [] then None
    else
      var path := paths[|paths| - 1];
      var front := BestScore(sym, current, paths[..|paths| - 1], configs, table);
      if sym in configs(path) then Better(front, FocusedScore(path, current, table)) else front
  }

  function Better(best: Option<Score>, s: Score): Option<Score> {
    if best.None? || Less(s, best.value) then Some(s) else best
  }

  /** s is the score of some path of sym, and no path of sym has a lesser one. */
  ghost predicate IsMinimum(s: Score, sym: string, current: string, paths: seq<string>, configs: Configs, table: Table) {
    && (exists p :: p in paths && sym in configs(p) && s == FocusedScore(p, current, table))
    && (forall p :: p in paths && sym in configs(p) ==> !Less(FocusedScore(p, current, table), s))
  }

  lemma LessIsTransitive(a: Score, b: Score, c: Score)
    requires !Less(b, a) && !Less(c, b)
    ensures !Less(c, a)
  {
    LexLeqTotal(a.path, b.path);
    LexLeqTotal(b.path, c.path);
    LexLeqTotal(a.path, c.path);
    if LexLeq(a.path, b.path) && LexLeq(b.path, c.path) { LexLeqTransitive(a.path, b.path, c.path); }
  }

  lemma LessIsAsymmetric(a: Score, b: Score)
    ensures !(Less(a, b) && Less(b, a))
    ensures Less(a, b) || Less(b, a) || a == b
  {
    LexLeqTotal(a.path, b.path);
  }

  /** The best score is the minimum, whatever the order of the paths. */
  lemma {:induction false} BestScoreIsMinimum(sym: string, current: string, paths: seq<string>, configs: Configs, table: Table)
    ensures BestScore(sym, current, paths, configs, table).None? <==> forall p :: p in paths ==> sym !in configs(p)
    ensures BestScore(sym, current, paths, configs, table).Some? ==>
      IsMinimum(BestScore(sym, current, paths, configs, table).value, sym, current, paths, configs, table)
  {
    if paths != [] {
      var path, front := paths[|paths| - 1], paths[..|paths| - 1];
      BestScoreIsMinimum(sym, current, front, configs, table);
      assert paths == front + [path];
      if sym in configs(path) {
        var s := FocusedScore(path, current, table);
        var before := BestScore(sym, current, front, configs, table);
        LessIsAsymmetric(s, s);
        if before.Some? {
          forall p | p in front && sym in configs(p)
            ensures !Less(FocusedScore(p, current, table), Better(before, s).value)
          {
            LessIsAsymmetric(s, before.value);
            if Less(s, before.value) { LessIsTransitive(s, before.value, FocusedScore(p, current, table)); }
          }
        }
      }
    }
  }

  lemma BestScoreOrderFree(sym: string, current: string, paths: seq<string>, others: seq<string>, configs: Configs, table: Table)
    requires forall p :: p in paths <==> p in others
    ensures BestScore(sym, current, paths, configs, table) == BestScore(sym, current, others, configs, table)
  {
    BestScoreIsMinimum(sym, current, paths, configs, table);
    BestScoreIsMinimum(sym, current, others, configs, table);
    var a, b := BestScore(sym, current, paths, configs, table), BestScore(sym, current, others, configs, table);
    if a.Some? && b.Some? {
      LessIsAsymmetric(a.value, b.value);
    }
  }

  // ---- The ranking ----

  function Rank(s: Option<Score>): (nat, nat) {
    match s
    case Some(v) => (v.prefix, v.value)
    case None => (0, 0)
  }

  /** By rank, then by name. */
  predicate RankLeq(r: (nat, nat), a: string, s: (nat, nat), b: string) {
    r.0 < s.0 || (r.0 == s.0 && (r.1 < s.1 || (r.1 == s.1 && LexLeq(a, b))))
  }

  function RankOf(sym: string, running: Running, paths: seq<string>, configs: Configs, table: Table): (nat, nat) {
    Rank(if sym in running then BestScore(sym, running[sym], paths, configs, table) else None)
  }

  function RankOrder(rank: string -> (nat, nat)): (string, string) -> bool {
    (a, b) => RankLeq(rank(a), a, rank(b), b)
  }

  lemma RankOrderIsTotal(rank: string -> (nat, nat))
    ensures TotalOrder(RankOrder(rank))
  {
    var leq := RankOrder(rank);
    forall a, b ensures (leq(a, b) || leq(b, a)) && (leq(a, b) && leq(b, a) ==> a == b) {
      assert leq(a, b) == RankLeq(rank(a), a, rank(b), b) && leq(b, a) == RankLeq(rank(b), b, rank(a), a);
      LexLeqTotal(a, b);
    }
    forall a, b, c | leq(a, b) && leq(b, c) ensures leq(a, c) {
      assert RankLeq(rank(a), a, rank(b), b) && RankLeq(rank(b), b, rank(c), c);
      assert leq(a, c) == RankLeq(rank(a), a, rank(c), c);
      if LexLeq(a, b) && LexLeq(b, c) { LexLeqTransitive(a, b, c); }
    }
  }

  /** Enabled candidates that some shipped module may belong to. */
  predicate Eligible(sym: string, broad: set<string>, running: Running, paths: seq<string>, configs: Configs) {
    sym in broad && Enabled(running, sym) && exists p :: p in paths && sym in configs(p)
  }

  function Ranked(broad: set<string>, running: Running, paths: seq<string>, configs: Configs): set<string> {
    set sym | sym in broad && Eligible(sym, broad, running, paths, configs)
  }

  function Limited(xs: seq<string>, limit: Option<int>): seq<string> {
    if limit.Some? && 0 < limit.value < |xs| then xs[..limit.value] else xs
  }

  /** What the caller gets: every eligible symbol once, least rank first, cut at the limit; or
      all candidates by name when none is eligible (and then the limit is not applied). */
  ghost predicate IsFocused(r: seq<string>, broad: set<string>, running: Running, paths: seq<string>, configs: Configs,
                            table: Table, limit: Option<int>) {
    var order := RankOrder(sym => RankOf(sym, running, paths, configs, table));
    var ranked := Ranked(broad, running, paths, configs);
    if ranked == {} then IsListing(r, broad, LexLeq)
    else exists full :: IsListing(full, ranked, order) && r == Limited(full, limit)
  }

  /** The ranking loop keeps the best score of each eligible symbol seen so far. */
  ghost predicate Tracks(ranked: map<string, Score>, broad: set<string>, running: Running, paths: seq<string>,
                         configs: Configs, table: Table) {
    && (forall sym :: sym in ranked ==> sym in broad && Enabled(running, sym))
    && (forall sym :: sym in broad && Enabled(running, sym) ==>
         Stored(ranked, sym) == BestScore(sym, running[sym], paths, configs, table))
  }

  function Stored(ranked: map<string, Score>, sym: string): Option<Score> {
    if sym in ranked then Some(ranked[sym]) else None
  }

  function AfterModule(before: map<string, Score>, sym: string, belongs: bool, s: Score): Option<Score> {
    if belongs then Better(Stored(before, sym), s) else Stored(before, sym)
  }

  /** The inner loop: every symbol one module may belong to. */
  method RankModule(path: string, before: map<string, Score>, broad: set<string>, running: Running, configs: Configs,
                    table: Table) returns (ranked: map<string, Score>)
    requires forall sym :: sym in before ==> sym in broad && Enabled(running, sym)
    ensures forall sym :: sym in ranked ==> sym in broad && Enabled(running, sym)
    ensures forall sym :: sym in broad && Enabled(running, sym) ==>
      Stored(ranked, sym) == AfterModule(before, sym, sym in configs(path), FocusedScore(path, running[sym], table))
  {
    ranked := before;
    var cs := configs(path);
    for j := 0 to |cs|
      invariant forall sym :: sym in ranked ==> sym in broad && Enabled(running, sym)
      invariant forall sym :: sym in broad && Enabled(running, sym) ==>
        Stored(ranked, sym) == AfterModule(before, sym, sym in cs[..j], FocusedScore(path, running[sym], table))
    {
      var sym := cs[j];
      assert cs[..j + 1] == cs[..j] + [sym];
      if sym in broad && Enabled(running, sym) {
        var score := FocusedScore(path, running[sym], table);
        LessIsAsymmetric(score, score);
        if sym !in ranked || Less(score, ranked[sym]) {
          ranked := ranked[sym := score];
        }
      }
    }
    assert cs[..|cs|] == cs;
  }

  /** The ranking for any table. */
  method RankCandidates(running: Running, required: set<string>, depLines: seq<string>, configs: Configs,
                        table: Table, broadCandidates: Option<seq<string>>, limit: Option<int>)
    returns (r: seq<string>)
    ensures IsFocused(r, Broad(running, required, broadCandidates), running, DepPaths(depLines), configs, table, limit)
  {
    var broad := Broad(running, required, broadCandidates);
    var paths := DepPaths(depLines);
    var ranked: map<string, Score> := map[];
    for i := 0 to |paths|
      invariant Tracks(ranked, broad, running, paths[..i], configs, table)
    {
      assert paths[..i + 1][..i] == paths[..i];
      ranked := RankModule(paths[i], ranked, broad, running, configs, table);
    }
    assert paths[..|paths|] == paths;
    TrackedAreRanked(ranked, broad, running, paths, configs, table);
    LexLeqIsTotalOrder();
    if ranked == map[] {
      r := Sort(broad, LexLeq);
    } else {
      var order := RankOrder(sym => Rank(Stored(ranked, sym)));
      RankOrderIsTotal(sym => Rank(Stored(ranked, sym)));
      var ordered := Sort(ranked.Keys, order);
      SameRanksSameListing(ordered, ranked.Keys, sym => Rank(Stored(ranked, sym)),
                           sym => RankOf(sym, running, paths, configs, table));
      r := Limited(ordered, limit);
    }
  }

  /** `focused_candidate_trims`. */
  method FocusedCandidateTrims(running: Running, required: set<string>, depLines: seq<string>, configs: Configs,
                               broadCandidates: Option<seq<string>>, limit: Option<int>)
    returns (r: seq<string>)
    ensures IsFocused(r, Broad(running, required, broadCandidates), running, DepPaths(depLines), configs,
                      PATH_PREFIX_SCORES, limit)
  {
    r := RankCandidates(running, required, depLines, configs, PATH_PREFIX_SCORES, broadCandidates, limit);
  }

  function Broad(running: Running, required: set<string>, broadCandidates: Option<seq<string>>): set<string> {
    if broadCandidates.Some? && broadCandidates.value != [] then set s | s in broadCandidates.value
    else Trims(running, required)
  }

  /** The caller's candidates when there are any, and all candidates otherwise. */
  lemma BroadExactly(running: Running, required: set<string>, given: Option<seq<string>>, sym: string)
    ensures given == None || given == Some([]) ==>
      (sym in Broad(running, required, given) <==> sym in running && running[sym] in {"y", "m"} && sym !in required)
    ensures given.Some? && given.value != [] ==> (sym in Broad(running, required, given) <==> sym in given.value)
  {
  }

  lemma TrackedAreRanked(ranked: map<string, Score>, broad: set<string>, running: Running, paths: seq<string>,
                         configs: Configs, table: Table)
    requires Tracks(ranked, broad, running, paths, configs, table)
    ensures ranked.Keys == Ranked(broad, running, paths, configs)
    ensures forall sym :: sym in ranked ==> Rank(Stored(ranked, sym)) == RankOf(sym, running, paths, configs, table)
  {
    forall sym | sym in broad && Enabled(running, sym)
      ensures sym in ranked <==> Eligible(sym, broad, running, paths, configs)
    {
      BestScoreIsMinimum(sym, running[sym], paths, configs, table);
    }
  }

  lemma SameRanksSameListing(xs: seq<string>, S: set<string>, rank: string -> (nat, nat), other: string -> (nat, nat))
    requires IsListing(xs, S, RankOrder(rank))
    requires forall sym :: sym in S ==> rank(sym) == other(sym)
    ensures IsListing(xs, S, RankOrder(other))
  {
  }

  // ---- What it means ----

  /** The result does not depend on the order, or on repeated lines, of modules.dep. */
  lemma FocusedIsOrderFree(r: seq<string>, q: seq<string>, broad: set<string>, running: Running, lines: seq<string>,
                           others: seq<string>, configs: Configs, table: Table, limit: Option<int>)
    requires forall l :: l in lines <==> l in others
    requires IsFocused(r, broad, running, DepPaths(lines), configs, table, limit)
    requires IsFocused(q, broad, running, DepPaths(others), configs, table, limit)
    ensures r == q
  {
    var ps, qs := DepPaths(lines), DepPaths(others);
    forall p ensures p in ps <==> p in qs {
      CollectMembers(lines, DepPath, p);
      CollectMembers(others, DepPath, p);
    }
    var ranked := Ranked(broad, running, ps, configs);
    assert ranked == Ranked(broad, running, qs, configs);
    var rank, other := sym => RankOf(sym, running, ps, configs, table), sym => RankOf(sym, running, qs, configs, table);
    forall sym | sym in ranked ensures other(sym) == rank(sym) {
      BestScoreOrderFree(sym, running[sym], ps, qs, configs, table);
    }
    if ranked == {} {
      LexLeqIsTotalOrder();
      ListingUnique(r, q, broad, LexLeq);
    } else {
      var full :| IsListing(full, ranked, RankOrder(rank)) && r == Limited(full, limit);
      var fuq :| IsListing(fuq, ranked, RankOrder(other)) && q == Limited(fuq, limit);
      SameRanksSameListing(fuq, ranked, other, rank);
      RankOrderIsTotal(rank);
      ListingUnique(full, fuq, ranked, RankOrder(rank));
    }
  }

  /** Without candidates of the caller's own, every symbol returned is enabled and not
      required, and none is returned twice. */
  lemma FocusedIsSafe(r: seq<string>, running: Running, required: set<string>, paths: seq<string>, configs: Configs,
                      table: Table, limit: Option<int>)
    requires IsFocused(r, Trims(running, required), running, paths, configs, table, limit)
    ensures forall sym :: sym in r ==> sym in running && running[sym] in {"y", "m"} && sym !in required
    ensures forall i, j :: 0 <= i < j < |r| ==> r[i] != r[j]
  {
    var broad := Trims(running, required);
    var ranked := Ranked(broad, running, paths, configs);
    if ranked != {} {
      var order := RankOrder(sym => RankOf(sym, running, paths, configs, table));
      var full :| IsListing(full, ranked, order) && r == Limited(full, limit);
      assert forall sym :: sym in r ==> sym in full;
    }
  }

  /** Some path of x has a score that no path of y undercuts; equal scores go by name. */
  ghost predicate Outranks(x: string, y: string, running: Running, paths: seq<string>, configs: Configs, table: Table)
    requires x in running && y in running
  {
    exists p :: p in paths && x in configs(p) &&
      forall q :: q in paths && y in configs(q) ==>
        var s, t := FocusedScore(p, running[x], table), FocusedScore(q, running[y], table);
        RankLeq((s.prefix, s.value), x, (t.prefix, t.value), y)
  }

  lemma RankedOutranks(x: string, y: string, broad: set<string>, running: Running, paths: seq<string>,
                       configs: Configs, table: Table)
    requires Eligible(x, broad, running, paths, configs) && Eligible(y, broad, running, paths, configs)
    requires RankLeq(RankOf(x, running, paths, configs, table), x, RankOf(y, running, paths, configs, table), y)
    ensures Outranks(x, y, running, paths, configs, table)
  {
    BestScoreIsMinimum(x, running[x], paths, configs, table);
    BestScoreIsMinimum(y, running[y], paths, configs, table);
    var sx, sy := BestScore(x, running[x], paths, configs, table), BestScore(y, running[y], paths, configs, table);
    var p :| p in paths && x in configs(p) && sx.value == FocusedScore(p, running[x], table);
    forall q | q in paths && y in configs(q)
      ensures var s, t := FocusedScore(p, running[x], table), FocusedScore(q, running[y], table);
              RankLeq((s.prefix, s.value), x, (t.prefix, t.value), y)
    {
      assert !Less(FocusedScore(q, running[y], table), sy.value);
    }
  }

  /** When some symbol is eligible, only eligible ones are returned, as many as the limit
      allows; and each of them outranks every eligible symbol that does not come before it,
      those left out included. */
  lemma FocusedIsRanked(r: seq<string>, broad: set<string>, running: Running, paths: seq<string>, configs: Configs,
                        table: Table, limit: Option<int>, i: nat, y: string)
    requires IsFocused(r, broad, running, paths, configs, table, limit)
    requires Ranked(broad, running, paths, configs) != {}
    ensures
      var n := |Ranked(broad, running, paths, configs)|;
      |r| == if limit.Some? && 0 < limit.value < n then limit.value else n
    ensures i < |r| ==> Eligible(r[i], broad, running, paths, configs)
    ensures i < |r| && Eligible(y, broad, running, paths, configs) && y !in r[..i] ==>
      Outranks(r[i], y, running, paths, configs, table)
  {
    var ranked := Ranked(broad, running, paths, configs);
    var rank := sym => RankOf(sym, running, paths, configs, table);
    var full :| IsListing(full, ranked, RankOrder(rank)) && r == Limited(full, limit);
    ListingSize(full, ranked, RankOrder(rank));
    if i < |r| {
      assert full[i] == r[i] && full[i] in full;
      if Eligible(y, broad, running, paths, configs) && y !in r[..i] {
        assert full[..i] == r[..i];
        RankOrderIsTotal(rank);
        ListedAhead(full, ranked, RankOrder(rank), i, y);
        RankedOutranks(r[i], y, broad, running, paths, configs, table);
      }
    }
  }

  /** The limit holds exactly when some candidate is eligible, or when there are no more
      candidates than the limit. */
  lemma LimitHoldsExactly(r: seq<string>, broad: set<string>, running: Running, paths: seq<string>, configs: Configs,
                          table: Table, limit: int)
    requires 0 < limit && IsFocused(r, broad, running, paths, configs, table, Some(limit))
    ensures |r| <= limit <==> Ranked(broad, running, paths, configs) != {} || |broad| <= limit
  {
    if Ranked(broad, running, paths, configs) == {} {
      ListingSize(r, broad, LexLeq);
    } else {
      FocusedIsRanked(r, broad, running, paths, configs, table, Some(limit), 0, "");
    }
  }

  /** Two candidates and no modules: a limit of one lets both through. */
  lemma LimitIsPassedOver(r: seq<string>, configs: Configs)
    requires IsFocused(r, {"A", "B"}, map["A" := "y", "B" := "y"], [], configs, PATH_PREFIX_SCORES, Some(1))
    ensures r == ["A", "B"]
  {
    assert LexLeq("A", "B");
    LexLeqIsTotalOrder();
    ListingUnique(r, ["A", "B"], {"A", "B"}, LexLeq);
  }

  // ---- What decides the rank ----

  /** The first prefix of the table that fits a path decides its score; without one it is 100. */
  lemma {:induction false} FirstPrefixDecides(path: string, table: Table, k: nat)
    requires k <= |table| && (forall j :: 0 <= j < k ==> !(table[j].0 <= path)) && (k < |table| ==> table[k].0 <= path)
    ensures PrefixScore(path, table) == if k < |table| then table[k].1 else 100
    decreases |table|
  {
    if k > 0 { FirstPrefixDecides(path, table[1..], k - 1); }
  }

  /** Every path of sym has one of the scores from lo to hi. */
  ghost predicate ScoresWithin(sym: string, paths: seq<string>, configs: Configs, table: Table, lo: nat, hi: nat) {
    forall p :: p in paths && sym in configs(p) ==> lo <= PrefixScore(p, table) <= hi
  }

  lemma NotOutranked(x: string, y: string, running: Running, paths: seq<string>, configs: Configs, table: Table, c: nat)
    requires x in running && y in running && running[x] == "m" && running[y] == "y"
    requires ScoresWithin(x, paths, configs, table, c, c) && ScoresWithin(y, paths, configs, table, c, c)
    requires exists p :: p in paths && x in configs(p)
    ensures !Outranks(y, x, running, paths, configs, table)
  {
  }

  /** Where the paths of two symbols score the same, the module comes before the built-in. */
  lemma ModulesComeFirst(r: seq<string>, broad: set<string>, running: Running, paths: seq<string>, configs: Configs,
                         table: Table, limit: Option<int>, x: string, j: nat, c: nat)
    requires IsFocused(r, broad, running, paths, configs, table, limit)
    requires Eligible(x, broad, running, paths, configs) && running[x] == "m"
    requires j < |r| && r[j] in running && running[r[j]] == "y"
    requires ScoresWithin(x, paths, configs, table, c, c) && ScoresWithin(r[j], paths, configs, table, c, c)
    ensures x in r[..j]
  {
    assert x in Ranked(broad, running, paths, configs);
    FocusedIsRanked(r, broad, running, paths, configs, table, limit, j, x);
    NotOutranked(x, r[j], running, paths, configs, table, c);
  }

  lemma NotOutscored(x: string, y: string, running: Running, paths: seq<string>, configs: Configs, table: Table, c: nat, d: nat)
    requires x in running && y in running && c < d
    requires ScoresWithin(x, paths, configs, table, 0, c)
    requires forall p :: p in paths && y in configs(p) ==> d <= PrefixScore(p, table)
    requires exists p :: p in paths && x in configs(p)
    ensures !Outranks(y, x, running, paths, configs, table)
  {
  }

  /** Where all paths of one symbol score less than those of another, it comes first. */
  lemma LesserScoreComesFirst(r: seq<string>, broad: set<string>, running: Running, paths: seq<string>, configs: Configs,
                              table: Table, limit: Option<int>, x: string, j: nat, c: nat, d: nat)
    requires IsFocused(r, broad, running, paths, configs, table, limit) && c < d
    requires Eligible(x, broad, running, paths, configs)
    requires j < |r| && ScoresWithin(x, paths, configs, table, 0, c)
    requires forall p :: p in paths && r[j] in configs(p) ==> d <= PrefixScore(p, table)
    ensures x in r[..j]
  {
    assert x in Ranked(broad, running, paths, configs);
    FocusedIsRanked(r, broad, running, paths, configs, table, limit, j, x);
    NotOutscored(x, r[j], running, paths, configs, table, c, d);
  }
}
