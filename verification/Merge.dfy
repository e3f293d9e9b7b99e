/** Merging a fragment into a base configuration, and validating the result. */
module Merge {
  import opened Option
  import opened Chars
  import opened Lines
  import opened ConfigLines
  import opened Order
  import opened Kfrag

  // ---- Configurations as maps ----

  /** `_config_text_to_dict` on lines: the last setting of a symbol counts. */
  function Dict(ls: seq<string>): map<string, string> {
    if ls == [] then map[] else Dict(ls[..|ls| - 1]) + LineDict(ls[|ls| - 1])
  }

  function LineDict(line: string): map<string, string> {
    match NormalizeValue(line) case None => map[] case Some((x, v)) => map[x := v]
  }

  method ConfigTextToDict(text: string) returns (d: map<string, string>)
    ensures d == Dict(SplitLines(text))
  {
    var ls := SplitLines(text);
    d := map[];
    for i := 0 to |ls|
      invariant d == Dict(ls[..i])
    {
      var nv := NormalizeValue(ls[i]);
      MapUpdate(d, if nv.Some? then nv.value else ("", ""));
      if nv.Some? {
        d := d[nv.value.0 := nv.value.1];
      }
      assert ls[..i + 1][..i] == ls[..i];
    }
    assert ls[..|ls|] == ls;
  }

  lemma MapUpdate(d: map<string, string>, e: (string, string))
    ensures d + map[] == d && d + map[e.0 := e.1] == d[e.0 := e.1]
  {
  }

  /** The value the lines give to x: that of the last line that sets it. */
  function Value(ls: seq<string>, x: string): Option<string> {
    if ls == [] then None
    else
      var nv := NormalizeValue(ls[|ls| - 1]);
      if nv.Some? && nv.value.0 == x then Some(nv.value.1) else Value(ls[..|ls| - 1], x)
  }

  function Lookup(d: map<string, string>, x: string): Option<string> {
    if x in d then Some(d[x]) else None
  }

  lemma {:induction false} DictLookup(ls: seq<string>, x: string)
    ensures Lookup(Dict(ls), x) == Value(ls, x)
  {
    if ls != [] {
      DictLookup(ls[..|ls| - 1], x);
    }
  }

  lemma {:induction false} ValueAppend(a: seq<string>, b: seq<string>, x: string)
    ensures Value(a + b, x) == if Value(b, x).Some? then Value(b, x) else Value(a, x)
    decreases |b|
  {
    if b == [] {
      assert a + b == a;
    } else {
      assert (a + b)[..|a + b| - 1] == a + b[..|b| - 1];
      ValueAppend(a, b[..|b| - 1], x);
    }
  }

  // ---- The merge ----

  /** How a value is written.  Digits are the ASCII ones. */
  function FormatAssignment(x: string, v: string): string {
    if v == "n" then UnsetLine(x)
    else if IsBare(v) then SetLine(x, v)
    else SetLine(x, ['"'] + v + ['"'])
  }

  predicate IsBare(v: string) { v == "y" || v == "m" || AllDigits(v) || "0x" <= v }

  /** What is read back from it. */
  function Stored(v: string): string {
    if v == "n" then "n" else if IsBare(v) then ReadValue(v) else StripQuotes(v)
  }

  /** The values that come back as they are: no quote at either end, and no blank at the end
      of a value that starts with "0x". */
  predicate Restorable(v: string) {
    CleanEdges(v, IsQuote) && ("0x" <= v ==> !IsSpace(v[|v| - 1]))
  }

  lemma FormatReads(x: string, v: string)
    requires IsSymbol(x)
    ensures NormalizeValue(FormatAssignment(x, v)) == Some((x, Stored(v)))
  {
    if v == "n" {
      UnsetLineReads(x);
    } else if IsBare(v) {
      SetLineReads(x, v);
    } else {
      SetLineReads(x, ['"'] + v + ['"']);
      TrimIdentity(['"'] + v + ['"'], IsSpace);
      TrimQuoted(v);
      assert !IsSpace('"');
    }
  }

  /** A written value is read back unchanged exactly when it is restorable. */
  lemma StoredExactly(v: string)
    ensures Stored(v) == v <==> Restorable(v)
  {
    TrimIdentity(v, IsQuote);
    TrimIdentity(v, IsSpace);
    if IsBare(v) {
      BareEdges(v);
      if "0x" <= v && IsSpace(v[|v| - 1]) {
        TrimRightShrinks(v);
        assert TrimLeft(v, IsSpace) == v;
        TrimShorter(Strip(v), IsQuote);
      }
    }
  }

  lemma BareEdges(v: string)
    requires IsBare(v)
    ensures v != "" && !IsSpace(v[0]) && !IsQuote(v[0])
    ensures !("0x" <= v) ==> !IsSpace(v[|v| - 1]) && !IsQuote(v[|v| - 1])
  {
    assert "0x"[0] == '0';
  }

  lemma TrimShorter(s: string, drop: char -> bool)
    ensures |Trim(s, drop)| <= |s|
  {
  }

  lemma TrimRightShrinks(s: string)
    requires s != "" && IsSpace(s[|s| - 1])
    ensures |TrimRight(s, IsSpace)| < |s|
  {
  }

  type Assignments = m: map<string, string> | forall x :: x in m ==> IsSymbol(x)

  /** One base line: kept unless the fragment sets its symbol to another value. */
  function MergeLine(line: string, frag: Assignments): string {
    match NormalizeValue(line)
    case None => line
    case Some((x, v)) => if x in frag && frag[x] != v then FormatAssignment(x, frag[x]) else line
  }

  function MergeBase(base: seq<string>, frag: Assignments): (out: seq<string>)
    ensures |out| == |base|
  {
    if base == [] then []
    else MergeBase(base[..|base| - 1], frag) + [MergeLine(base[|base| - 1], frag)]
  }

  function FormatAll(xs: seq<string>, frag: Assignments): seq<string>
    requires forall x :: x in xs ==> x in frag
  {
    if xs == [] then []
    else FormatAll(xs[..|xs| - 1], frag) + [FormatAssignment(xs[|xs| - 1], frag[xs[|xs| - 1]])]
  }

  function Banner(): string { Title("autokernel: appended from kfrag", 17) }

  /** What is appended: the symbols the base does not set, in order. */
  function Appendix(xs: seq<string>, frag: Assignments): seq<string>
    requires forall x :: x in xs ==> x in frag
  {
    if xs == [] then [] else ["", Banner()] + FormatAll(xs, frag)
  }

  /** The fragment's symbols that no base line sets. */
  ghost function Unseen(base: seq<string>, frag: Assignments): set<string> {
    set x | x in frag && Value(base, x).None?
  }

  ghost predicate IsAppended(xs: seq<string>, base: seq<string>, frag: Assignments) {
    IsListing(xs, Unseen(base, frag), LexLeq)
  }

  function Merged(base: seq<string>, frag: Assignments, xs: seq<string>): seq<string>
    requires forall x :: x in xs ==> x in frag
  {
    MergeBase(base, frag) + Appendix(xs, frag)
  }

  /** The assignments of a parsed fragment: an assignment overrides a disable. */
  function FragValues(p: ParsedKfrag): map<string, string> {
    (map x | x in p.disables :: "n") + p.assignments
  }

  // ---- The merge is a map overlay ----

  /** What the merge makes of a base value of x, wherever it stands. */
  function Overridden(v: Option<string>, frag: Assignments, x: string): Option<string> {
    if v.Some? && x in frag && frag[x] != v.value then Some(Stored(frag[x])) else v
  }

  lemma MergeLineValue(line: string, frag: Assignments, x: string)
    ensures
      var nv, mv := NormalizeValue(line), NormalizeValue(MergeLine(line, frag));
      if nv.Some? && nv.value.0 == x
      then mv.Some? && mv.value.0 == x && Some(mv.value.1) == Overridden(Some(nv.value.1), frag, x)
      else mv.Some? ==> mv.value.0 != x
  {
    var nv := NormalizeValue(line);
    if nv.Some? && nv.value.0 in frag {
      FormatReads(nv.value.0, frag[nv.value.0]);
    }
  }

  lemma {:induction false} MergeBaseValue(base: seq<string>, frag: Assignments, x: string)
    ensures Value(MergeBase(base, frag), x) == Overridden(Value(base, x), frag, x)
  {
    if base != [] {
      var rest, l := base[..|base| - 1], base[|base| - 1];
      MergeBaseValue(rest, frag, x);
      MergeLineValue(l, frag, x);
      assert MergeBase(base, frag)[..|base| - 1] == MergeBase(rest, frag);
    }
  }

  lemma {:induction false} FormatAllValue(xs: seq<string>, frag: Assignments, x: string)
    requires forall y :: y in xs ==> y in frag
    ensures Value(FormatAll(xs, frag), x) == if x in xs then Some(Stored(frag[x])) else None
  {
    if xs != [] {
      var rest, y := xs[..|xs| - 1], xs[|xs| - 1];
      assert xs == rest + [y];
      FormatAllValue(rest, frag, x);
      assert FormatAll(xs, frag)[..|FormatAll(xs, frag)| - 1] == FormatAll(rest, frag);
      FormatReads(y, frag[y]);
    }
  }

  lemma BannerSetsNothing()
    ensures NormalizeValue(Banner()) == None && NormalizeValue("") == None
  {
    CommentSetsNothing(Banner(), 2);
  }

  lemma AppendixValue(xs: seq<string>, frag: Assignments, x: string)
    requires forall y :: y in xs ==> y in frag
    ensures Value(Appendix(xs, frag), x) == if x in xs then Some(Stored(frag[x])) else None
  {
    FormatAllValue(xs, frag, x);
    if xs != [] {
      BannerSetsNothing();
      var top := ["", Banner()];
      assert top[..1] == [""] && [""][..0] == [];
      assert Value(top, x) == Value([""], x) == None;
      ValueAppend(top, FormatAll(xs, frag), x);
    }
  }

  /** The value every symbol has after the merge, also when the base repeats it. */
  lemma MergedValue(base: seq<string>, frag: Assignments, xs: seq<string>, x: string)
    requires IsAppended(xs, base, frag)
    ensures Value(Merged(base, frag, xs), x)
         == if Value(base, x).Some? then Overridden(Value(base, x), frag, x)
            else if x in frag then Some(Stored(frag[x])) else None
  {
    ValueAppend(MergeBase(base, frag), Appendix(xs, frag), x);
    AppendixValue(xs, frag, x);
    MergeBaseValue(base, frag, x);
  }

  /** The fragment value of x is restorable, or it is already the base's. */
  predicate Kept(base: seq<string>, frag: Assignments, x: string) {
    x in frag ==> Restorable(frag[x]) || Value(base, x) == Some(frag[x])
  }

  lemma OverlayAt(base: seq<string>, frag: Assignments, xs: seq<string>, x: string)
    requires IsAppended(xs, base, frag)
    ensures Value(Merged(base, frag, xs), x) == Lookup(Dict(base) + frag, x)
       <==> Kept(base, frag, x)
    ensures Lookup(Dict(Merged(base, frag, xs)), x) == Value(Merged(base, frag, xs), x)
  {
    MergedValue(base, frag, xs, x);
    DictLookup(base, x);
    DictLookup(Merged(base, frag, xs), x);
    if x in frag { StoredExactly(frag[x]); }
  }

  lemma SameMaps(m: map<string, string>, o: map<string, string>)
    ensures m == o <==> forall x :: Lookup(m, x) == Lookup(o, x)
  {
    if forall x :: Lookup(m, x) == Lookup(o, x) {
      forall x ensures (x in m <==> x in o) && (x in m ==> m[x] == o[x]) { assert Lookup(m, x) == Lookup(o, x); }
    }
  }

  /** As maps, the merge is the overlay of the fragment over the base exactly when every
      fragment value is restorable or is already the base's value. */
  lemma MergeIsOverlay(base: seq<string>, frag: Assignments, xs: seq<string>)
    requires IsAppended(xs, base, frag)
    ensures Dict(Merged(base, frag, xs)) == Dict(base) + frag <==> forall x :: Kept(base, frag, x)
  {
    var m, o := Dict(Merged(base, frag, xs)), Dict(base) + frag;
    SameMaps(m, o);
    forall x ensures Lookup(m, x) == Lookup(o, x) <==> Kept(base, frag, x) { OverlayAt(base, frag, xs, x); }
  }

  // ---- Lines the fragment does not redefine ----

  lemma {:induction false} MergeBaseAt(base: seq<string>, frag: Assignments, i: nat)
    requires i < |base|
    ensures MergeBase(base, frag)[i] == MergeLine(base[i], frag)
  {
    if i < |base| - 1 {
      MergeBaseAt(base[..|base| - 1], frag, i);
    }
  }

  /** Lines that set no symbol of the fragment keep their position and text. */
  lemma OtherLinesKept(base: seq<string>, frag: Assignments, xs: seq<string>, i: nat)
    requires i < |base| && forall x :: x in xs ==> x in frag
    requires NormalizeValue(base[i]).Some? ==> NormalizeValue(base[i]).value.0 !in frag
    ensures i < |Merged(base, frag, xs)| && Merged(base, frag, xs)[i] == base[i]
  {
    MergeBaseAt(base, frag, i);
  }

  // ---- Idempotence ----

  lemma MergeLineTwice(line: string, frag: Assignments)
    ensures MergeLine(MergeLine(line, frag), frag) == MergeLine(line, frag)
  {
    if NormalizeValue(line).Some? && NormalizeValue(line).value.0 in frag {
      FormatReads(NormalizeValue(line).value.0, frag[NormalizeValue(line).value.0]);
    }
  }

  /** Lines that another round of merging leaves alone. */
  ghost predicate Settled(ls: seq<string>, frag: Assignments) {
    forall l :: l in ls ==> MergeLine(l, frag) == l
  }

  lemma {:induction false} SettledStays(ls: seq<string>, frag: Assignments)
    requires Settled(ls, frag)
    ensures MergeBase(ls, frag) == ls
  {
    if ls != [] {
      SettledStays(ls[..|ls| - 1], frag);
      assert ls[|ls| - 1] in ls;
    }
  }

  lemma {:induction false} MergeBaseSettles(base: seq<string>, frag: Assignments)
    ensures Settled(MergeBase(base, frag), frag)
  {
    if base != [] {
      MergeBaseSettles(base[..|base| - 1], frag);
      MergeLineTwice(base[|base| - 1], frag);
    }
  }

  lemma {:induction false} FormatAllSettled(xs: seq<string>, frag: Assignments)
    requires forall x :: x in xs ==> x in frag
    ensures Settled(FormatAll(xs, frag), frag)
  {
    if xs != [] {
      FormatAllSettled(xs[..|xs| - 1], frag);
      FormatReads(xs[|xs| - 1], frag[xs[|xs| - 1]]);
    }
  }

  /** Merging the same fragment again changes no line and appends nothing. */
  lemma MergeIdempotent(base: seq<string>, frag: Assignments, xs: seq<string>)
    requires IsAppended(xs, base, frag)
    ensures
      var out := Merged(base, frag, xs);
      IsAppended([], out, frag) && Merged(out, frag, []) == out
  {
    var out := Merged(base, frag, xs);
    forall x | x in frag ensures Value(out, x).Some? { MergedValue(base, frag, xs, x); }
    MergeBaseSettles(base, frag);
    FormatAllSettled(xs, frag);
    BannerSetsNothing();
    assert Settled(out, frag);
    SettledStays(out, frag);
    assert Unseen(out, frag) == {};
  }

  // ---- The text of the merged lines ----

  predicate OnlyDigits(v: string) { v != "" && forall c :: c in v ==> '0' <= c <= '9' }

  predicate StartsHex(v: string) { |v| > 1 && v[0] == '0' && v[1] == 'x' }

  /** The line for x and v as kernel configurations have it: "# x is not set" for n; tristates,
      numbers and what starts with 0x bare; anything else between quotes. */
  predicate IsKernelLine(l: string, x: string, v: string) {
    if v == "n" then l == "# " + (x + " is not set")
    else if v == "y" || v == "m" || OnlyDigits(v) || StartsHex(v) then l == x + ("=" + v)
    else l == x + ("=" + ("\"" + (v + "\"")))
  }

  lemma FormattedIsKernelLine(x: string, v: string)
    ensures IsKernelLine(FormatAssignment(x, v), x, v)
  {
    assert OnlyDigits(v) <==> AllDigits(v) by {
      assert forall k :: 0 <= k < |v| ==> v[k] in v;
    }
    assert StartsHex(v) <==> "0x" <= v;
    assert " " + UNSET == " is not set";
    assert x + "=" + v == x + ("=" + v);
    var q := ['"'] + v + ['"'];
    assert q == "\"" + (v + "\"");
    assert x + "=" + q == x + ("=" + q);
  }

  lemma {:induction false} FormatAllAt(xs: seq<string>, frag: Assignments, k: nat)
    requires k < |xs| && forall x :: x in xs ==> x in frag
    ensures |FormatAll(xs, frag)| == |xs| && FormatAll(xs, frag)[k] == FormatAssignment(xs[k], frag[xs[k]])
    decreases |xs|
  {
    if |xs| > 1 {
      FormatAllAt(xs[..|xs| - 1], frag, if k < |xs| - 1 then k else 0);
    }
    assert |xs| == 1 ==> xs[..0] == [];
  }

  /** A base line that gives x another value than the fragment becomes the fragment's line;
      every other base line stays as it is. */
  lemma MergedBaseLine(base: seq<string>, frag: Assignments, xs: seq<string>, i: nat)
    requires i < |base| && forall x :: x in xs ==> x in frag
    ensures
      var nv, l := NormalizeValue(base[i]), Merged(base, frag, xs)[i];
      if nv.Some? && nv.value.0 in frag && frag[nv.value.0] != nv.value.1
      then IsKernelLine(l, nv.value.0, frag[nv.value.0]) else l == base[i]
  {
    MergeBaseAt(base, frag, i);
    var nv := NormalizeValue(base[i]);
    if nv.Some? && nv.value.0 in frag { FormattedIsKernelLine(nv.value.0, frag[nv.value.0]); }
  }

  /** Behind the base stand an empty line, a comment and, in order, the fragment's lines for the
      symbols the base does not set. */
  lemma MergedAppendedLine(base: seq<string>, frag: Assignments, xs: seq<string>, k: nat)
    requires k < |xs| && forall x :: x in xs ==> x in frag
    ensures
      var out := Merged(base, frag, xs);
      && |out| == |base| + 2 + |xs|
      && out[|base|] == "" && NormalizeValue(out[|base| + 1]) == None
      && IsKernelLine(out[|base| + 2 + k], xs[k], frag[xs[k]])
  {
    FormatAllAt(xs, frag, k);
    FormattedIsKernelLine(xs[k], frag[xs[k]]);
    BannerSetsNothing();
    AppendedAt(MergeBase(base, frag), "", Banner(), FormatAll(xs, frag), k);
  }

  lemma AppendedAt(front: seq<string>, a: string, b: string, more: seq<string>, k: nat)
    requires k < |more|
    ensures
      var out := front + ([a, b] + more);
      && |out| == |front| + 2 + |more|
      && out[|front|] == a && out[|front| + 1] == b && out[|front| + 2 + k] == more[k]
  {
  }

  lemma {:induction false} LastSetting(ls: seq<string>, x: string)
    requires Value(ls, x).Some?
    ensures exists i :: 0 <= i < |ls| && NormalizeValue(ls[i]) == Some((x, Value(ls, x).value))
  {
    var nv := NormalizeValue(ls[|ls| - 1]);
    if !(nv.Some? && nv.value.0 == x) {
      LastSetting(ls[..|ls| - 1], x);
      var i :| 0 <= i < |ls[..|ls| - 1]| && NormalizeValue(ls[..|ls| - 1][i]) == Some((x, Value(ls, x).value));
      assert ls[..|ls| - 1][i] == ls[i];
    }
  }

  /** So wherever the fragment gives a symbol another value than the base has, its line is in
      the merged text. */
  lemma FragmentLineIsWritten(base: seq<string>, frag: Assignments, xs: seq<string>, x: string)
    requires IsAppended(xs, base, frag) && x in frag && Value(base, x) != Some(frag[x])
    ensures exists l :: l in Merged(base, frag, xs) && IsKernelLine(l, x, frag[x])
  {
    var out := Merged(base, frag, xs);
    if Value(base, x).None? {
      assert x in Unseen(base, frag);
      var k :| 0 <= k < |xs| && xs[k] == x;
      MergedAppendedLine(base, frag, xs, k);
      assert out[|base| + 2 + k] in out;
    } else {
      LastSetting(base, x);
      var i :| 0 <= i < |base| && NormalizeValue(base[i]) == Some((x, Value(base, x).value));
      MergedBaseLine(base, frag, xs, i);
      assert out[i] in out;
    }
  }
}
