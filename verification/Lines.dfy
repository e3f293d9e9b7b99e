/** Texts, lines and the trimming methods of Python strings.  A line break is "\n", as
    reading a file in text mode delivers it. */
module Lines {
  import opened Chars

  predicate NoBreak(s: string) { '\n' !in s }

  predicate AllNoBreak(ls: seq<string>) { forall l :: l in ls ==> NoBreak(l) }

  // ---- Lines of a text ----

  /** Position of the first line break, or |s|. */
  function BreakPos(s: string): (n: nat)
    ensures n <= |s| && (n < |s| ==> s[n] == '\n')
    ensures forall k :: 0 <= k < n ==> s[k] != '\n'
  {
    if s == "" || s[0] == '\n' then 0 else BreakPos(s[1..]) + 1
  }

  /** str.splitlines. */
  function SplitLines(text: string): (ls: seq<string>)
    ensures AllNoBreak(ls)
  {
    if text == "" then []
    else
      var n := BreakPos(text);
      if n == |text| then [text[..n]] else [text[..n]] + SplitLines(text[n + 1..])
  }

  /** "\n".join. */
  function JoinLines(ls: seq<string>): string {
    if ls == [] then "" else if |ls| == 1 then ls[0] else ls[0] + ("\n" + JoinLines(ls[1..]))
  }

  lemma BreakPosOf(l: string, r: string)
    requires NoBreak(l)
    ensures BreakPos(l + ("\n" + r)) == |l|
  {
    var s := l + ("\n" + r);
    assert s[|l|] == '\n';
    assert forall k :: 0 <= k < |l| ==> s[k] == l[k];
  }

  lemma SplitFirst(l: string, r: string)
    requires NoBreak(l)
    ensures SplitLines(l + ("\n" + r)) == [l] + SplitLines(r)
  {
    var s := l + ("\n" + r);
    BreakPosOf(l, r);
    assert s[..|l|] == l && s[|l| + 1..] == r;
  }

  /** Lines written with a final "\n" are read back unchanged. */
  lemma {:induction false} SplitJoin(ls: seq<string>)
    requires AllNoBreak(ls) && ls != []
    ensures SplitLines(JoinLines(ls) + "\n") == ls
  {
    assert ls == [ls[0]] + ls[1..];
    if |ls| == 1 {
      SplitFirst(ls[0], "");
      assert ls[0] + ("\n" + "") == ls[0] + "\n";
    } else {
      SplitJoin(ls[1..]);
      var rest := JoinLines(ls[1..]);
      SplitFirst(ls[0], rest + "\n");
      Regroup(ls[0], "\n", rest, "\n");
    }
  }

  lemma Regroup(a: string, b: string, c: string, d: string)
    ensures a + (b + (c + d)) == a + (b + c) + d
  {
  }

  lemma {:induction false} JoinTrailingEmpty(ls: seq<string>)
    requires ls != []
    ensures JoinLines(ls + [""]) == JoinLines(ls) + "\n"
  {
    if |ls| > 1 {
      JoinTrailingEmpty(ls[1..]);
      assert (ls + [""])[1..] == ls[1..] + [""];
      Regroup(ls[0], "\n", JoinLines(ls[1..]), "\n");
    } else {
      assert (ls + [""])[1..] == [""];
      assert "\n" + "" == "\n";
    }
  }

  // ---- Breaks inside a line ----

  /** The text up to the first line break. */
  function FirstLine(s: string): string { s[..BreakPos(s)] }

  /** s.split("\n"): what a line becomes when it is written and read again. */
  function Pieces(s: string): (ps: seq<string>)
    ensures ps != [] && ps[0] == FirstLine(s)
  {
    var n := BreakPos(s);
    if n == |s| then [s] else [s[..n]] + Pieces(s[n + 1..])
  }

  /** The lines after the first break. */
  function AfterBreak(s: string): seq<string> { Pieces(s)[1..] }

  lemma {:induction false} PiecesNoBreak(s: string)
    ensures AllNoBreak(Pieces(s))
  {
    var n := BreakPos(s);
    if n < |s| { PiecesNoBreak(s[n + 1..]); }
  }

  lemma FirstLineKeeps(s: string, k: nat)
    requires k < |s| && forall i :: 0 <= i <= k ==> s[i] != '\n'
    ensures |FirstLine(s)| > k && forall i :: 0 <= i < |FirstLine(s)| ==> FirstLine(s)[i] == s[i]
  {
  }

  lemma {:induction false} FirstLineOfNoBreak(s: string)
    requires NoBreak(s)
    ensures FirstLine(s) == s && Pieces(s) == [s] && AfterBreak(s) == []
  {
    assert BreakPos(s) == |s|;
  }

  /** A break-free front stays with the first line. */
  lemma {:induction false} BreakPosAfter(a: string, b: string)
    requires NoBreak(a)
    ensures BreakPos(a + b) == |a| + BreakPos(b)
  {
    if a == "" {
      assert a + b == b;
    } else {
      assert (a + b)[1..] == a[1..] + b;
      BreakPosAfter(a[1..], b);
    }
  }

  lemma PiecesAfter(a: string, b: string)
    requires NoBreak(a)
    ensures FirstLine(a + b) == a + FirstLine(b)
    ensures AfterBreak(a + b) == AfterBreak(b)
  {
    BreakPosAfter(a, b);
    var n := BreakPos(b);
    assert (a + b)[..|a| + n] == a + b[..n];
    if n < |b| { assert (a + b)[|a| + n + 1..] == b[n + 1..]; }
  }

  lemma {:induction false} JoinAppend(a: seq<string>, b: seq<string>)
    requires a != [] && b != []
    ensures JoinLines(a + b) == JoinLines(a) + ("\n" + JoinLines(b))
  {
    if |a| == 1 {
      assert (a + b)[1..] == b;
    } else {
      assert (a + b)[1..] == a[1..] + b;
      JoinAppend(a[1..], b);
      Regroup(a[0], "\n", JoinLines(a[1..]), "\n" + JoinLines(b));
    }
  }

  lemma JoinFirst(l: string, rest: seq<string>)
    requires rest != []
    ensures JoinLines([l] + rest) == l + ("\n" + JoinLines(rest))
  {
    assert ([l] + rest)[1..] == rest;
  }

  lemma CutAtBreak(s: string, n: nat)
    requires n < |s| && s[n] == '\n'
    ensures s == s[..n] + ("\n" + s[n + 1..])
  {
  }

  lemma {:induction false} JoinPieces(s: string)
    ensures JoinLines(Pieces(s)) == s
  {
    var n := BreakPos(s);
    if n < |s| {
      JoinPieces(s[n + 1..]);
      JoinFirst(s[..n], Pieces(s[n + 1..]));
      CutAtBreak(s, n);
    } else {
      assert s[..n] == s;
    }
  }

  /** All lines as they are read back, every break taken as one. */
  function Flat(ls: seq<string>): seq<string> {
    if ls == [] then [] else Flat(ls[..|ls| - 1]) + Pieces(ls[|ls| - 1])
  }

  function Firsts(ls: seq<string>): seq<string> {
    if ls == [] then [] else Firsts(ls[..|ls| - 1]) + [FirstLine(ls[|ls| - 1])]
  }

  /** The lines after a break of some line. */
  function Strays(ls: seq<string>): seq<string> {
    if ls == [] then [] else Strays(ls[..|ls| - 1]) + AfterBreak(ls[|ls| - 1])
  }

  /** Writing the lines is writing them with every break taken as one. */
  lemma {:induction false} JoinFlat(ls: seq<string>)
    ensures JoinLines(Flat(ls)) == JoinLines(ls) && AllNoBreak(Flat(ls)) && |Flat(ls)| >= |ls|
  {
    if ls != [] {
      var front, l := ls[..|ls| - 1], ls[|ls| - 1];
      assert ls == front + [l];
      JoinFlat(front);
      JoinPieces(l);
      PiecesNoBreak(l);
      if front == [] {
        assert Flat(front) + Pieces(l) == Pieces(l) && ls == [l];
      } else {
        JoinAppend(front, [l]);
        JoinAppend(Flat(front), Pieces(l));
      }
    }
  }

  lemma {:induction false} FirstsAppend(a: seq<string>, b: seq<string>)
    ensures Firsts(a + b) == Firsts(a) + Firsts(b)
    decreases |b|
  {
    if b == [] {
      assert a + b == a;
    } else {
      assert (a + b)[..|a + b| - 1] == a + b[..|b| - 1];
      FirstsAppend(a, b[..|b| - 1]);
    }
  }

  lemma {:induction false} StraysAppend(a: seq<string>, b: seq<string>)
    ensures Strays(a + b) == Strays(a) + Strays(b)
    decreases |b|
  {
    if b == [] {
      assert a + b == a;
    } else {
      assert (a + b)[..|a + b| - 1] == a + b[..|b| - 1];
      StraysAppend(a, b[..|b| - 1]);
      AssocLines(Strays(a), Strays(b[..|b| - 1]), AfterBreak(b[|b| - 1]));
    }
  }

  lemma AssocLines(a: seq<string>, b: seq<string>, c: seq<string>)
    ensures (a + b) + c == a + (b + c)
  {
  }

  lemma FirstsOne(l: string)
    ensures Firsts([l]) == [FirstLine(l)] && Strays([l]) == AfterBreak(l)
  {
    assert [l][..0] == [];
    assert [] + AfterBreak(l) == AfterBreak(l);
  }

  lemma {:induction false} NoStrays(ls: seq<string>)
    requires AllNoBreak(ls)
    ensures Strays(ls) == [] && Firsts(ls) == ls
  {
    if ls != [] {
      var front, l := ls[..|ls| - 1], ls[|ls| - 1];
      assert ls == front + [l];
      NoStrays(front);
      assert l in ls;
      FirstLineOfNoBreak(l);
    }
  }

  lemma {:induction false} StraysNoBreak(ls: seq<string>)
    ensures AllNoBreak(Strays(ls))
  {
    if ls != [] {
      StraysNoBreak(ls[..|ls| - 1]);
      PiecesNoBreak(ls[|ls| - 1]);
    }
  }

  // ---- Trimming ----

  /** str.lstrip and str.rstrip of the characters in `drop`. */
  function TrimLeft(s: string, drop: char -> bool): (r: string)
    ensures r == "" || !drop(r[0])
    ensures |r| <= |s|
  {
    if s != "" && drop(s[0]) then TrimLeft(s[1..], drop) else s
  }

  function TrimRight(s: string, drop: char -> bool): (r: string)
    ensures r == "" || !drop(r[|r| - 1])
    ensures |r| <= |s|
  {
    if s != "" && drop(s[|s| - 1]) then TrimRight(s[..|s| - 1], drop) else s
  }

  function Trim(s: string, drop: char -> bool): string { TrimRight(TrimLeft(s, drop), drop) }

  function Strip(s: string): string { Trim(s, IsSpace) }

  function RStrip(s: string): string { TrimRight(s, IsSpace) }

  predicate IsQuote(c: char) { c == '"' }

  function StripQuotes(s: string): string { Trim(s, IsQuote) }

  predicate CleanEdges(s: string, drop: char -> bool) {
    s == "" || (!drop(s[0]) && !drop(s[|s| - 1]))
  }

  lemma {:induction false} TrimLeftIsSuffix(s: string, drop: char -> bool)
    ensures TrimLeft(s, drop) == s[|s| - |TrimLeft(s, drop)|..]
  {
    if s != "" && drop(s[0]) { TrimLeftIsSuffix(s[1..], drop); }
  }

  lemma {:induction false} TrimRightIsPrefix(s: string, drop: char -> bool)
    ensures TrimRight(s, drop) == s[..|TrimRight(s, drop)|]
  {
    if s != "" && drop(s[|s| - 1]) { TrimRightIsPrefix(s[..|s| - 1], drop); }
  }

  lemma TrimIdentity(s: string, drop: char -> bool)
    ensures CleanEdges(s, drop) ==> Trim(s, drop) == s
    ensures CleanEdges(Trim(s, drop), drop)
  {
    TrimRightIsPrefix(TrimLeft(s, drop), drop);
  }

  lemma TrimNoBreak(s: string, drop: char -> bool)
    requires NoBreak(s)
    ensures NoBreak(TrimLeft(s, drop)) && NoBreak(TrimRight(s, drop)) && NoBreak(Trim(s, drop))
  {
    TrimLeftIsSuffix(s, drop);
    TrimRightIsPrefix(s, drop);
    TrimRightIsPrefix(TrimLeft(s, drop), drop);
  }

  /** One layer of quotes around s comes off together with any at its edges. */
  lemma {:induction false} TrimLeftExtra(s: string, drop: char -> bool, c: char)
    requires drop(c)
    ensures TrimLeft([c] + s, drop) == TrimLeft(s, drop)
    ensures TrimRight(s + [c], drop) == TrimRight(s, drop)
  {
    assert ([c] + s)[1..] == s;
    assert (s + [c])[..|s|] == s;
  }

  /** Trimming at the left does not look at what is kept at the right. */
  lemma {:induction false} TrimLeftOfRight(s: string, drop: char -> bool, c: char)
    requires drop(c)
    ensures TrimRight(TrimLeft(s + [c], drop), drop) == TrimRight(TrimLeft(s, drop), drop)
  {
    if s == "" {
      assert s + [c] == [c];
      assert TrimLeft([c][1..], drop) == "";
    } else if drop(s[0]) {
      assert (s + [c])[1..] == s[1..] + [c];
      TrimLeftOfRight(s[1..], drop, c);
    } else {
      TrimLeftExtra(s, drop, c);
    }
  }

  lemma TrimQuoted(s: string)
    ensures StripQuotes(['"'] + s + ['"']) == StripQuotes(s)
  {
    assert ['"'] + s + ['"'] == ['"'] + (s + ['"']);
    TrimLeftExtra(s + ['"'], IsQuote, '"');
    TrimLeftOfRight(s, IsQuote, '"');
  }
}
