/** Sorting: `sorted` returns the one listing of a set that is in order. */
module Order {

  /** Comparison of Python strings, character by character. */
  predicate LexLeq(a: string, b: string) {
    a == "" || (b != "" && (a[0] < b[0] || (a[0] == b[0] && LexLeq(a[1..], b[1..]))))
  }

  ghost predicate TotalOrder(leq: (string, string) -> bool) {
    && (forall a, b :: leq(a, b) || leq(b, a))
    && (forall a, b :: leq(a, b) && leq(b, a) ==> a == b)
    && (forall a, b, c :: leq(a, b) && leq(b, c) ==> leq(a, c))
  }

  lemma {:induction false} LexLeqTotal(a: string, b: string)
    ensures LexLeq(a, b) || LexLeq(b, a)
    ensures LexLeq(a, b) && LexLeq(b, a) ==> a == b
  {
    if a != "" && b != "" {
      assert a == [a[0]] + a[1..] && b == [b[0]] + b[1..];
      LexLeqTotal(a[1..], b[1..]);
    }
  }

  lemma {:induction false} LexLeqTransitive(a: string, b: string, c: string)
    requires LexLeq(a, b) && LexLeq(b, c)
    ensures LexLeq(a, c)
  {
    if a != "" && a[0] == b[0] && b[0] == c[0] {
      LexLeqTransitive(a[1..], b[1..], c[1..]);
    }
  }

  lemma LexLeqIsTotalOrder()
    ensures TotalOrder(LexLeq)
  {
    forall a, b ensures LexLeq(a, b) || LexLeq(b, a) { LexLeqTotal(a, b); }
    forall a, b | LexLeq(a, b) && LexLeq(b, a) ensures a == b { LexLeqTotal(a, b); }
    forall a, b, c | LexLeq(a, b) && LexLeq(b, c) ensures LexLeq(a, c) { LexLeqTransitive(a, b, c); }
  }

  /** xs lists S in order, each element once. */
  ghost predicate IsListing(xs: seq<string>, S: set<string>, leq: (string, string) -> bool) {
    && (forall x :: x in S <==> x in xs)
    && (forall i, j :: 0 <= i < j < |xs| ==> xs[i] != xs[j] && leq(xs[i], xs[j]))
  }

  lemma MinExists(S: set<string>, leq: (string, string) -> bool)
    requires S != {} && TotalOrder(leq)
    ensures exists m :: m in S && forall x :: x in S ==> leq(m, x)
  {
    var a :| a in S;
    var T := S - {a};
    assert S == T + {a};
    if T == {} {
      assert S == {a};
    } else {
      MinExists(T, leq);
      var m :| m in T && forall x :: x in T ==> leq(m, x);
      var w := if leq(a, m) then a else m;
      forall x | x in S ensures leq(w, x) {
        if x != a { assert x in T; }
      }
    }
  }

  method Sort(S: set<string>, leq: (string, string) -> bool) returns (xs: seq<string>)
    requires TotalOrder(leq)
    ensures IsListing(xs, S, leq)
  {
    xs := [];
    var rest := S;
    while rest != {}
      invariant rest <= S
      invariant forall x :: x in S <==> x in rest || x in xs
      invariant forall x, y :: x in xs && y in rest ==> x != y && leq(x, y)
      invariant forall i, j :: 0 <= i < j < |xs| ==> xs[i] != xs[j] && leq(xs[i], xs[j])
      decreases |rest|
    {
      MinExists(rest, leq);
      var m :| m in rest && forall x :: x in rest ==> leq(m, x);
      xs := xs + [m];
      rest := rest - {m};
    }
  }

  lemma {:induction false} ListingUnique(xs: seq<string>, ys: seq<string>, S: set<string>, leq: (string, string) -> bool)
    requires TotalOrder(leq) && IsListing(xs, S, leq) && IsListing(ys, S, leq)
    ensures xs == ys
    decreases |xs|
  {
    assert forall y :: y in ys ==> y in S && y in xs;
    assert |ys| > 0 ==> ys[0] in ys;
    if xs != [] {
      assert xs[0] in S && xs[0] in ys;
      assert ys[0] in S && ys[0] in xs;
      assert xs[0] == ys[0];
      TailListing(xs, S, leq);
      TailListing(ys, S, leq);
      ListingUnique(xs[1..], ys[1..], S - {xs[0]}, leq);
      assert xs == [xs[0]] + xs[1..] && ys == [ys[0]] + ys[1..];
    }
  }

  lemma TailListing(xs: seq<string>, S: set<string>, leq: (string, string) -> bool)
    requires xs != [] && IsListing(xs, S, leq)
    ensures IsListing(xs[1..], S - {xs[0]}, leq)
  {
    assert xs == [xs[0]] + xs[1..];
  }

  /** A listing is as long as its set is large. */
  lemma {:induction false} ListingSize(xs: seq<string>, S: set<string>, leq: (string, string) -> bool)
    requires IsListing(xs, S, leq)
    ensures |xs| == |S|
    decreases |xs|
  {
    if xs == [] {
      assert S == {};
    } else {
      assert xs[0] in S;
      TailListing(xs, S, leq);
      ListingSize(xs[1..], S - {xs[0]}, leq);
    }
  }

  /** An element of a listing comes before, in order, every element not found ahead of it. */
  lemma ListedAhead(xs: seq<string>, S: set<string>, leq: (string, string) -> bool, i: nat, y: string)
    requires TotalOrder(leq) && IsListing(xs, S, leq) && i < |xs| && y in S && y !in xs[..i]
    ensures leq(xs[i], y)
  {
    var k :| 0 <= k < |xs| && xs[k] == y;
    assert forall m :: 0 <= m < i ==> xs[m] in xs[..i];
  }
}
