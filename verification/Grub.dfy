/** GRUB menu entries by brace depth, and the entry that boots a kernel release. */
module Grub {
  import opened Option
  import opened Chars
  import opened Lines

  // ---- Lines of grub.cfg ----

  predicate EndsWith(s: string, t: string) { |t| <= |s| && s[|s| - |t|..] == t }

  predicate IsSubmenu(line: string) { "submenu " <= line && EndsWith(line, "{") }

  predicate IsMenuEntry(line: string) { "menuentry " <= line && EndsWith(line, "{") }

  /** Length of the first word of s. */
  function WordLen(s: string): (n: nat)
    ensures n <= |s| && (n < |s| ==> IsSpace(s[n]))
    ensures forall k :: 0 <= k < n ==> !IsSpace(s[k])
  {
    if s == "" || IsSpace(s[0]) then 0 else WordLen(s[1..]) + 1
  }

  /** Position of the first q at or after k, if any. */
  function FindFrom(s: string, q: char, k: nat): (r: Option<nat>)
    requires k <= |s|
    ensures r.Some? ==> k <= r.value < |s| && s[r.value] == q && forall i :: k <= i < r.value ==> s[i] != q
    ensures r.None? ==> forall i :: k <= i < |s| ==> s[i] != q
    decreases |s| - k
  {
    if k == |s| then None else if s[k] == q then Some(k) else FindFrom(s, q, k + 1)
  }

  /** `_grub_title` of a stripped line. */
  function GrubTitle(line: string): Option<string> {
    var rest := TrimLeft(line[WordLen(line)..], IsSpace);
    if rest == "" || (rest[0] != '\'' && rest[0] != '"') then None
    else match FindFrom(rest, rest[0], 1)
      case None => None
      case Some(end) => Some(rest[1..end])
  }

  lemma QuoteCloses(q: char, title: string, more: string)
    requires q !in title
    ensures var rest := [q] + title + [q] + more;
            rest[0] == q && FindFrom(rest, q, 1) == Some(|title| + 1) && rest[1..|title| + 1] == title
  {
    var rest := [q] + title + [q] + more;
    assert rest[|title| + 1] == q && forall i :: 1 <= i < |title| + 1 ==> rest[i] == title[i - 1];
  }

  lemma AfterKeyword(keyword: string, rest: string)
    requires (forall k :: 0 <= k < |keyword| ==> !IsSpace(keyword[k])) && rest != "" && !IsSpace(rest[0])
    ensures var line := keyword + (" " + rest);
            TrimLeft(line[WordLen(line)..], IsSpace) == rest
  {
    var line := keyword + (" " + rest);
    assert line[|keyword|] == ' ' && forall k :: 0 <= k < |keyword| ==> line[k] == keyword[k];
    assert WordLen(line) == |keyword|;
    assert line[|keyword|..] == " " + rest;
    assert (" " + rest)[1..] == rest;
    assert TrimLeft(rest, IsSpace) == rest;
  }

  /** The title between two quotes that do not occur in it, whatever follows. */
  lemma TitleIsQuoted(keyword: string, q: char, title: string, more: string)
    requires keyword != "" && forall k :: 0 <= k < |keyword| ==> !IsSpace(keyword[k])
    requires (q == '\'' || q == '"') && q !in title
    ensures GrubTitle(keyword + (" " + ([q] + title + [q] + more))) == Some(title)
  {
    QuoteCloses(q, title, more);
    AfterKeyword(keyword, [q] + title + [q] + more);
  }

  // ---- The scan ----

  /** Open blocks, innermost last: Some title or none for a submenu, Entry for a menuentry. */
  datatype State = State(stack: seq<Option<string>>, out: seq<string>)

  /** The titles of the open submenus. */
  function Parents(stack: seq<Option<string>>): seq<string> {
    if stack == [] then []
    else
      var rest, top := Parents(stack[..|stack| - 1]), stack[|stack| - 1];
      if top.Some? then rest + [top.value] else rest
  }

  /** ">".join. */
  function PathOf(parts: seq<string>): string {
    if parts == [] then "" else if |parts| == 1 then parts[0] else parts[0] + ">" + PathOf(parts[1..])
  }

  function Step(st: State, raw: string): State {
    var line := Strip(raw);
    if IsSubmenu(line) then st.(stack := st.stack + [GrubTitle(line)])
    else if IsMenuEntry(line) then
      var title := GrubTitle(line);
      State(st.stack + [None],
            if title.Some? then st.out + [PathOf(Parents(st.stack) + [title.value])] else st.out)
    else if line == "}" && st.stack != [] then st.(stack := st.stack[..|st.stack| - 1])
    else st
  }

  function Scan(st: State, lines: seq<string>): State {
    if lines == [] then st else Step(Scan(st, lines[..|lines| - 1]), lines[|lines| - 1])
  }

  /** `grub_entries`. */
  method GrubEntries(text: string) returns (out: seq<string>)
    ensures out == Scan(State([], []), SplitLines(text)).out
  {
    var lines := SplitLines(text);
    var stack: seq<Option<string>> := [];
    out := [];
    for i := 0 to |lines|
      invariant State(stack, out) == Scan(State([], []), lines[..i])
    {
      assert lines[..i + 1][..i] == lines[..i];
      var line := Strip(lines[i]);
      if ("submenu " <= line || "menuentry " <= line) && EndsWith(line, "{") {
        var title := GrubTitle(line);
        if "submenu " <= line {
          stack := stack + [title];
        } else {
          if title.Some? {
            out := out + [PathOf(Parents(stack) + [title.value])];
          }
          stack := stack + [None];
        }
      } else if line == "}" && stack != [] {
        stack := stack[..|stack| - 1];
      }
    }
    assert lines[..|lines|] == lines;
  }

  // ---- Menus ----

  /** A menu: entries and submenus with the lines that open and close them, and any other
      lines between. */
  datatype Node =
    | Noise(line: string)
    | Entry(header: string, body: seq<string>, close: string)
    | Submenu(header: string, children: seq<Node>, close: string)

  predicate IsPlain(raw: string) {
    var line := Strip(raw);
    !IsSubmenu(line) && !IsMenuEntry(line) && line != "}"
  }

  /** Stray closing braces are allowed outside every block. */
  predicate WellFormed(ns: seq<Node>, top: bool) {
    forall n :: n in ns ==> WellFormedNode(n, top)
  }

  predicate WellFormedNode(n: Node, top: bool) {
    match n
    case Noise(line) => IsPlain(line) || (top && Strip(line) == "}")
    case Entry(header, body, close) =>
      IsMenuEntry(Strip(header)) && (forall l :: l in body ==> IsPlain(l)) && Strip(close) == "}"
    case Submenu(header, children, close) =>
      IsSubmenu(Strip(header)) && (forall c :: c in children ==> WellFormedNode(c, false)) && Strip(close) == "}"
  }

  function Render(ns: seq<Node>): seq<string> {
    if ns == [] then [] else RenderNode(ns[0]) + Render(ns[1..])
  }

  function RenderNode(n: Node): seq<string> {
    match n
    case Noise(line) => [line]
    case Entry(header, body, close) => [header] + body + [close]
    case Submenu(header, children, close) => [header] + Render(children) + [close]
  }

  function OptionSeq(t: Option<string>): seq<string> { if t.Some? then [t.value] else [] }

  /** A title below submenus, outermost first: each in front of it, with a ">" behind. */
  function Under(parents: seq<string>, title: string): string {
    if parents == [] then title
    else Under(parents[..|parents| - 1], parents[|parents| - 1] + (">" + title))
  }

  /** The paths of the entries in preorder, below the given submenu titles. */
  function Preorder(ns: seq<Node>, parents: seq<string>): seq<string> {
    if ns == [] then [] else PreorderNode(ns[0], parents) + Preorder(ns[1..], parents)
  }

  function PreorderNode(n: Node, parents: seq<string>): seq<string> {
    match n
    case Noise(_) => []
    case Entry(header, _, _) =>
      var title := GrubTitle(Strip(header));
      if title.Some? then [Under(parents, title.value)] else []
    case Submenu(header, children, _) => Preorder(children, parents + OptionSeq(GrubTitle(Strip(header))))
  }

  // ---- The scan returns the preorder ----

  lemma {:induction false} UnderFirst(p: string, rest: seq<string>, title: string)
    ensures Under([p] + rest, title) == p + (">" + Under(rest, title))
    decreases |rest|
  {
    var ps := [p] + rest;
    if rest == [] {
      assert ps[..0] == [];
    } else {
      var last := rest[|rest| - 1];
      assert ps[..|ps| - 1] == [p] + rest[..|rest| - 1];
      UnderFirst(p, rest[..|rest| - 1], last + (">" + title));
    }
  }

  lemma {:induction false} PathIsUnder(parents: seq<string>, title: string)
    ensures PathOf(parents + [title]) == Under(parents, title)
  {
    if parents == [] {
      assert [] + [title] == [title];
    } else {
      var rest := parents[1..];
      PathIsUnder(rest, title);
      assert parents == [parents[0]] + rest && (parents + [title])[1..] == rest + [title];
      UnderFirst(parents[0], rest, title);
      assert parents[0] + ">" + PathOf(rest + [title]) == parents[0] + (">" + PathOf(rest + [title]));
    }
  }

  lemma {:induction false} ScanAppend(st: State, a: seq<string>, b: seq<string>)
    ensures Scan(st, a + b) == Scan(Scan(st, a), b)
    decreases |b|
  {
    if b == [] {
      assert a + b == a;
    } else {
      ScanAppend(st, a, b[..|b| - 1]);
      assert (a + b)[..|a + b| - 1] == a + b[..|b| - 1];
    }
  }

  lemma ScanOne(st: State, l: string)
    ensures Scan(st, [l]) == Step(st, l)
  {
    assert [l][..0] == [];
  }

  /** A block: its header, lines that leave the stack alone, its closing line. */
  lemma ScanBlock(st: State, header: string, inner: seq<string>, close: string, more: seq<string>)
    requires Strip(close) == "}"
    requires
      var inside := Step(st, header);
      |inside.stack| == |st.stack| + 1 && inside.stack[..|st.stack|] == st.stack
      && Scan(inside, inner) == State(inside.stack, inside.out + more)
    ensures Scan(st, [header] + inner + [close]) == State(st.stack, Step(st, header).out + more)
  {
    ScanAppend(st, [header] + inner, [close]);
    ScanAppend(st, [header], inner);
    ScanOne(st, header);
    var inside := Step(st, header);
    ScanOne(State(inside.stack, inside.out + more), close);
    assert !IsSubmenu("}") && !IsMenuEntry("}");
  }

  lemma {:induction false} ScanPlain(st: State, body: seq<string>)
    requires forall l :: l in body ==> IsPlain(l)
    ensures Scan(st, body) == st
  {
    if body != [] {
      ScanPlain(st, body[..|body| - 1]);
      assert body[|body| - 1] in body;
    }
  }

  lemma ParentsPush(stack: seq<Option<string>>, t: Option<string>)
    ensures Parents(stack + [t]) == Parents(stack) + OptionSeq(t)
  {
    assert (stack + [t])[..|stack|] == stack;
  }

  lemma Assoc(a: seq<string>, b: seq<string>, c: seq<string>)
    ensures a + b + c == a + (b + c)
  {
  }

  lemma {:induction false} ScanMenu(st: State, ns: seq<Node>, top: bool)
    requires WellFormed(ns, top) && (top ==> st.stack == [])
    ensures Scan(st, Render(ns)) == State(st.stack, st.out + Preorder(ns, Parents(st.stack)))
    decreases ns, 1
  {
    if ns != [] {
      var first, rest := RenderNode(ns[0]), Render(ns[1..]);
      assert ns[0] in ns;
      ScanNode(st, ns[0], top);
      var mid := State(st.stack, st.out + PreorderNode(ns[0], Parents(st.stack)));
      assert forall n :: n in ns[1..] ==> n in ns;
      ScanMenu(mid, ns[1..], top);
      ScanAppend(st, first, rest);
      Assoc(st.out, PreorderNode(ns[0], Parents(st.stack)), Preorder(ns[1..], Parents(st.stack)));
    }
  }

  lemma {:induction false} ScanNode(st: State, n: Node, top: bool)
    requires WellFormedNode(n, top) && (top ==> st.stack == [])
    ensures Scan(st, RenderNode(n)) == State(st.stack, st.out + PreorderNode(n, Parents(st.stack)))
    decreases n, 0
  {
    match n
    case Noise(line) =>
      ScanOne(st, line);
    case Entry(header, body, close) =>
      if GrubTitle(Strip(header)).Some? { PathIsUnder(Parents(st.stack), GrubTitle(Strip(header)).value); }
      ScanPlain(Step(st, header), body);
      ScanBlock(st, header, body, close, []);
    case Submenu(header, children, close) =>
      var inside := Step(st, header);
      ParentsPush(st.stack, GrubTitle(Strip(header)));
      ScanMenu(inside, children, false);
      ScanBlock(st, header, Render(children), close, Preorder(children, Parents(inside.stack)));
  }

  /** For every menu the scan returns exactly its entry paths in preorder, and ends with
      every block closed. */
  lemma EntriesArePreorder(ns: seq<Node>)
    requires WellFormed(ns, true)
    ensures Scan(State([], []), Render(ns)) == State([], Preorder(ns, []))
  {
    ScanMenu(State([], []), ns, true);
  }

  // ---- The entry of a release ----

  predicate Contains(s: string, t: string) { t <= s || (s != "" && Contains(s[1..], t)) }

  const LINUX := "with Linux "

  predicate IsHit(e: string, release: string) { EndsWith(e, LINUX + release) && !Contains(e, "recovery mode") }

  function Filter(es: seq<string>, keep: string -> bool): (out: seq<string>)
    ensures forall e :: e in out <==> e in es && keep(e)
  {
    if es == [] then [] else (if keep(es[0]) then [es[0]] else []) + Filter(es[1..], keep)
  }

  /** `grub_entry_for_release` on the entry list. */
  function EntryForRelease(release: string, entries: seq<string>): Option<string> {
    var hits := Filter(entries, e => IsHit(e, release));
    var nested := Filter(hits, (e: string) => '>' in e);
    if nested != [] then Some(nested[0]) else if hits != [] then Some(hits[0]) else None
  }

  /** t stands somewhere in s. */
  ghost predicate Occurs(t: string, s: string) { exists a, b :: s == a + (t + b) }

  lemma {:induction false} ContainsIff(s: string, t: string)
    ensures Contains(s, t) <==> Occurs(t, s)
  {
    if t <= s {
      assert s == "" + (t + s[|t|..]);
    } else if s != "" {
      ContainsIff(s[1..], t);
      if Occurs(t, s[1..]) {
        var a, b :| s[1..] == a + (t + b);
        assert s == ([s[0]] + a) + (t + b);
      }
      if Occurs(t, s) {
        var a, b :| s == a + (t + b);
        if a == "" {
          assert false;
        } else {
          assert s[1..] == a[1..] + (t + b);
        }
      }
    }
  }

  /** The release an entry path names: the word after a final "with Linux ". */
  ghost predicate Names(e: string, release: string) {
    ' ' !in release && exists p :: e == p + "with Linux " + release
  }

  /** An entry names at most one release. */
  lemma NamesOne(e: string, r1: string, r2: string)
    requires Names(e, r1) && Names(e, r2)
    ensures r1 == r2
  {
    LastSpace(e, r1);
    LastSpace(e, r2);
  }

  lemma LastSpace(e: string, r: string)
    requires Names(e, r)
    ensures |r| < |e| && e[|e| - |r|..] == r && e[|e| - |r| - 1] == ' '
    ensures forall k :: |e| - |r| <= k < |e| ==> e[k] != ' '
  {
    var p :| e == p + LINUX + r;
    assert LINUX[|LINUX| - 1] == ' ';
    assert forall k :: |e| - |r| <= k < |e| ==> e[k] == r[k - (|e| - |r|)];
  }

  lemma NamesIffSuffix(e: string, release: string)
    requires ' ' !in release
    ensures Names(e, release) <==> EndsWith(e, LINUX + release)
  {
    if EndsWith(e, LINUX + release) {
      var p := e[..|e| - |LINUX + release|];
      assert e == p + (LINUX + release);
      assert e == p + LINUX + release;
    }
    if Names(e, release) {
      var p :| e == p + LINUX + release;
      assert e[|p|..] == LINUX + release;
    }
  }

  lemma {:induction false} FilterFirst(es: seq<string>, keep: string -> bool) returns (i: nat)
    requires Filter(es, keep) != []
    ensures i < |es| && es[i] == Filter(es, keep)[0] && keep(es[i]) && forall j :: 0 <= j < i ==> !keep(es[j])
  {
    if keep(es[0]) {
      i := 0;
    } else {
      assert Filter(es, keep) == Filter(es[1..], keep);
      var k := FilterFirst(es[1..], keep);
      i := k + 1;
      assert forall j :: 1 <= j < i ==> es[j] == es[1..][j - 1];
    }
  }

  lemma {:induction false} FilterTwice(es: seq<string>, a: string -> bool, b: string -> bool, both: string -> bool)
    requires forall e :: both(e) <==> a(e) && b(e)
    ensures Filter(Filter(es, a), b) == Filter(es, both)
  {
    if es != [] {
      FilterTwice(es[1..], a, b, both);
      var rest := Filter(es[1..], a);
      if a(es[0]) {
        assert Filter(es, a) == [es[0]] + rest && ([es[0]] + rest)[1..] == rest;
        assert Filter([es[0]] + rest, b) == (if b(es[0]) then [es[0]] else []) + Filter(rest, b);
      } else {
        assert Filter(es, a) == rest;
        assert Filter(es, both) == Filter(es[1..], both);
      }
    }
  }

  /** A normal boot entry of the release. */
  ghost predicate Boots(e: string, release: string) { Names(e, release) && !Occurs("recovery mode", e) }

  /** entries[i] boots the release, and so does no entry before it, unless that one is at the
      top level and entries[i] is nested. */
  ghost predicate IsFirst(entries: seq<string>, i: nat, release: string)
    requires i < |entries|
  {
    Boots(entries[i], release) &&
    forall j :: 0 <= j < i && Boots(entries[j], release) ==> '>' in entries[i] && '>' !in entries[j]
  }

  /** r is the first entry that boots the release, the first nested one if there is any; and
      there is none exactly when no entry boots it. */
  ghost predicate IsBootEntry(r: Option<string>, entries: seq<string>, release: string) {
    && (r.None? <==> forall e :: e in entries ==> !Boots(e, release))
    && (r.Some? ==> exists i :: 0 <= i < |entries| && r.value == entries[i] && IsFirst(entries, i, release))
    && (r.Some? && '>' !in r.value ==> forall e :: e in entries && Boots(e, release) ==> '>' !in e)
  }

  /** That is what a release without blanks gets. */
  lemma EntryForReleaseExactly(release: string, entries: seq<string>)
    requires ' ' !in release
    ensures IsBootEntry(EntryForRelease(release, entries), entries, release)
  {
    forall e ensures Boots(e, release) <==> IsHit(e, release) {
      NamesIffSuffix(e, release);
      ContainsIff(e, "recovery mode");
    }
    var hit, deep, both := e => IsHit(e, release), (e: string) => '>' in e, e => IsHit(e, release) && '>' in e;
    var hits := Filter(entries, hit);
    FilterTwice(entries, hit, deep, both);
    if Filter(hits, deep) != [] {
      var i := FilterFirst(entries, both);
      assert IsFirst(entries, i, release);
    } else if hits != [] {
      var i := FilterFirst(entries, hit);
      assert IsFirst(entries, i, release);
      assert forall e :: e in entries && IsHit(e, release) ==> e in hits;
    } else {
      assert forall e :: e in entries && IsHit(e, release) ==> e in hits;
    }
  }

  /** `grub_entry_for_release`: the entry of the scanned list that boots the release; and for the
      text of a well-formed menu that is an entry of the menu, in preorder. */
  method GrubEntryForRelease(release: string, text: string) returns (r: Option<string>)
    ensures r == EntryForRelease(release, Scan(State([], []), SplitLines(text)).out)
    ensures ' ' !in release ==> IsBootEntry(r, Scan(State([], []), SplitLines(text)).out, release)
    ensures ' ' !in release ==> forall ns: seq<Node> :: WellFormed(ns, true) && Render(ns) == SplitLines(text) ==>
      IsBootEntry(r, Preorder(ns, []), release)
    ensures ' ' !in release ==> forall items: seq<Item> ::
      (forall i :: i in items ==> IsItem(i)) && TextOf(items) == SplitLines(text) ==>
        IsBootEntry(r, PathsOf(items, ""), release)
  {
    var entries := GrubEntries(text);
    r := EntryForRelease(release, entries);
    if ' ' !in release {
      EntryForReleaseExactly(release, entries);
      forall ns: seq<Node> | WellFormed(ns, true) && Render(ns) == SplitLines(text)
        ensures Preorder(ns, []) == entries
      {
        EntriesArePreorder(ns);
      }
      forall items: seq<Item> | (forall i :: i in items ==> IsItem(i)) && TextOf(items) == SplitLines(text)
        ensures PathsOf(items, "") == entries
      {
        MenuTextRead(items);
      }
    }
  }

  // ---- Menus as they are written ----

  /** An entry or a submenu with a title in single quotes, whatever follows it on its line. */
  datatype Item = Boot(title: string, options: string, body: seq<string>) | Group(title: string, options: string, items: seq<Item>)

  /** A line that neither opens nor closes a block. */
  predicate IsOther(raw: string) {
    var line := Strip(raw);
    line != "}" && (line != "" && line[|line| - 1] == '{' ==> !("submenu " <= line) && !("menuentry " <= line))
  }

  predicate IsItem(item: Item) {
    '\'' !in item.title &&
    match item
    case Boot(_, _, body) => forall l :: l in body ==> IsOther(l)
    case Group(_, _, items) => forall i :: i in items ==> IsItem(i)
  }

  function Opening(keyword: string, item: Item): string {
    keyword + (" '" + (item.title + ("'" + (item.options + "{"))))
  }

  function TextOf(items: seq<Item>): seq<string> {
    if items == [] then [] else ItemText(items[0]) + TextOf(items[1..])
  }

  function ItemText(item: Item): seq<string> {
    match item
    case Boot(_, _, body) => [Opening("menuentry", item)] + body + ["}"]
    case Group(_, _, items) => [Opening("submenu", item)] + TextOf(items) + ["}"]
  }

  /** The paths of the entries: the titles of the submenus and of the entry, ">" between them. */
  function PathsOf(items: seq<Item>, front: string): seq<string> {
    if items == [] then []
    else
      (match items[0]
       case Boot(title, _, _) => [front + title]
       case Group(title, _, inner) => PathsOf(inner, front + title + ">"))
      + PathsOf(items[1..], front)
  }

  function NodeOf(item: Item): Node {
    match item
    case Boot(_, _, body) => Entry(Opening("menuentry", item), body, "}")
    case Group(_, _, items) => Submenu(Opening("submenu", item), NodesOf(items), "}")
  }

  function NodesOf(items: seq<Item>): seq<Node> {
    if items == [] then [] else [NodeOf(items[0])] + NodesOf(items[1..])
  }

  lemma StripKeeps(s: string)
    requires s != "" && !IsSpace(s[0]) && !IsSpace(s[|s| - 1])
    ensures Strip(s) == s
  {
    TrimIdentity(s, IsSpace);
  }

  lemma OpeningForm(keyword: string, item: Item)
    ensures Opening(keyword, item) == keyword + (" " + (['\''] + item.title + ['\''] + (item.options + "{")))
  {
    var q, more := ['\''], item.options + "{";
    assert q + item.title + q + more == q + (item.title + (q + more));
    assert " '" + (item.title + ("'" + more)) == " " + (q + (item.title + (q + more)));
  }

  lemma OpeningTitle(keyword: string, item: Item)
    requires (keyword == "menuentry" || keyword == "submenu") && '\'' !in item.title
    ensures GrubTitle(Opening(keyword, item)) == Some(item.title)
  {
    OpeningForm(keyword, item);
    TitleIsQuoted(keyword, '\'', item.title, item.options + "{");
  }

  lemma OpeningEnds(keyword: string, item: Item)
    ensures var line := Opening(keyword, item);
            line != "" && line[|line| - 1] == '{' && EndsWith(line, "{")
  {
    var line := Opening(keyword, item);
    assert line == (keyword + (" '" + (item.title + ("'" + item.options)))) + "{";
  }

  lemma OpeningStarts(keyword: string, item: Item)
    requires keyword == "menuentry" || keyword == "submenu"
    ensures var line := Opening(keyword, item);
            line[0] == keyword[0] && ("menuentry " <= line <==> keyword == "menuentry") && ("submenu " <= line <==> keyword == "submenu")
  {
    var line := Opening(keyword, item);
    assert line[..|keyword|] == keyword && line[|keyword|] == ' ';
    assert "menuentry"[0] != "submenu"[0];
  }

  lemma OpeningRead(keyword: string, item: Item)
    requires (keyword == "menuentry" || keyword == "submenu") && '\'' !in item.title
    ensures
      var line := Opening(keyword, item);
      && Strip(line) == line && GrubTitle(line) == Some(item.title)
      && (IsMenuEntry(line) <==> keyword == "menuentry") && (IsSubmenu(line) <==> keyword == "submenu")
  {
    OpeningTitle(keyword, item);
    OpeningEnds(keyword, item);
    OpeningStarts(keyword, item);
    StripKeeps(Opening(keyword, item));
  }

  lemma OtherIsPlain(l: string)
    requires IsOther(l)
    ensures IsPlain(l)
  {
    var line := Strip(l);
    if EndsWith(line, "{") { assert line[|line| - 1..][0] == line[|line| - 1]; }
  }

  lemma BraceCloses()
    ensures Strip("}") == "}"
  {
    StripKeeps("}");
  }

  lemma {:induction false} ItemIsNode(item: Item)
    requires IsItem(item)
    ensures WellFormedNode(NodeOf(item), false) && RenderNode(NodeOf(item)) == ItemText(item)
    decreases item, 0
  {
    BraceCloses();
    match item
    case Boot(_, _, body) =>
      OpeningRead("menuentry", item);
      forall l | l in body ensures IsPlain(l) { OtherIsPlain(l); }
    case Group(_, _, items) =>
      OpeningRead("submenu", item);
      ItemsAreNodes(items);
  }

  lemma {:induction false} ItemsAreNodes(items: seq<Item>)
    requires forall i :: i in items ==> IsItem(i)
    ensures WellFormed(NodesOf(items), false) && Render(NodesOf(items)) == TextOf(items)
    decreases items, 1
  {
    if items != [] {
      assert items[0] in items && forall i :: i in items[1..] ==> i in items;
      ItemIsNode(items[0]);
      ItemsAreNodes(items[1..]);
      assert NodesOf(items)[1..] == NodesOf(items[1..]);
    }
  }

  /** What stands in front of a title below the given submenus. */
  function FrontOf(parents: seq<string>): string {
    if parents == [] then "" else FrontOf(parents[..|parents| - 1]) + parents[|parents| - 1] + ">"
  }

  lemma {:induction false} UnderIsFront(parents: seq<string>, title: string)
    ensures Under(parents, title) == FrontOf(parents) + title
  {
    if parents == [] {
      assert "" + title == title;
    } else {
      var rest, last := parents[..|parents| - 1], parents[|parents| - 1];
      UnderIsFront(rest, last + (">" + title));
      assert FrontOf(rest) + (last + (">" + title)) == FrontOf(rest) + last + ">" + title;
    }
  }

  lemma {:induction false} PreorderOfItems(items: seq<Item>, parents: seq<string>)
    requires forall i :: i in items ==> IsItem(i)
    ensures Preorder(NodesOf(items), parents) == PathsOf(items, FrontOf(parents))
    decreases items
  {
    if items != [] {
      var item := items[0];
      assert item in items && forall i :: i in items[1..] ==> i in items;
      PreorderOfItems(items[1..], parents);
      assert NodesOf(items)[1..] == NodesOf(items[1..]);
      match item
      case Boot(title, _, _) =>
        OpeningRead("menuentry", item);
        UnderIsFront(parents, title);
      case Group(title, _, inner) =>
        OpeningRead("submenu", item);
        var below := parents + [title];
        assert below[..|parents|] == parents;
        PreorderOfItems(inner, below);
    }
  }

  /** From text to paths: for every menu with quoted titles, the scan finds exactly its entries,
      in order, each with its submenus in front. */
  lemma MenuTextRead(items: seq<Item>)
    requires forall i :: i in items ==> IsItem(i)
    ensures Scan(State([], []), TextOf(items)) == State([], PathsOf(items, ""))
  {
    ItemsAreNodes(items);
    ItemsTop(NodesOf(items));
    EntriesArePreorder(NodesOf(items));
    PreorderOfItems(items, []);
  }

  lemma {:induction false} ItemsTop(ns: seq<Node>)
    requires WellFormed(ns, false)
    ensures WellFormed(ns, true)
  {
    forall n | n in ns ensures WellFormedNode(n, true) { assert WellFormedNode(n, false); }
  }
}
