/** Sorting of strings by code points, as Python's `sorted` does. */
module Ordering {

  predicate StringLeq(a: string, b: string) {
    a == [] || (b != [] && (a[0] < b[0] || (a[0] == b[0] && StringLeq(a[1..], b[1..]))))
  }

  predicate StringLess(a: string, b: string) {
    StringLeq(a, b) && a != b
  }

  lemma {:induction false} LeqTotal(a: string, b: string)
    ensures StringLeq(a, b) || StringLeq(b, a)
  {
    if a != [] && b != [] && a[0] == b[0] { LeqTotal(a[1..], b[1..]); }
  }

  lemma {:induction false} LeqAntisymmetric(a: string, b: string)
    requires StringLeq(a, b) && StringLeq(b, a)
    ensures a == b
  {
    if a != [] {
      LeqAntisymmetric(a[1..], b[1..]);
      assert a == [a[0]] + a[1..] && b == [b[0]] + b[1..];
    }
  }

  lemma {:induction false} LeqTransitive(a: string, b: string, c: string)
    requires StringLeq(a, b) && StringLeq(b, c)
    ensures StringLeq(a, c)
  {
    if a != [] && a[0] == b[0] && b[0] == c[0] { LeqTransitive(a[1..], b[1..], c[1..]); }
  }

  // Sorted without duplicates.
  ghost predicate StrictlySorted(s: seq<string>) {
    forall i, j :: 0 <= i < j < |s| ==> StringLess(s[i], s[j])
  }

  method Least(xs: set<string>) returns (least: string)
    requires xs != {}
    ensures least in xs && forall x :: x in xs ==> StringLeq(least, x)
  {
    least :| least in xs;
    var rest := xs - {least};
    LeqTotal(least, least);
    while rest != {}
      invariant rest <= xs && least in xs
      invariant forall x :: x in xs && x !in rest ==> StringLeq(least, x)
      decreases rest
    {
      var x :| x in rest;
      if !StringLeq(least, x) {
        LeqTotal(least, x);
        forall y | y in xs && y !in rest ensures StringLeq(x, y) { LeqTransitive(x, least, y); }
        least := x;
      }
      LeqTotal(x, x);
      rest := rest - {x};
    }
  }

  method Sorted(xs: set<string>) returns (s: seq<string>)
    ensures (set x | x in s) == xs
    ensures StrictlySorted(s)
  {
    s := [];
    var rest := xs;
    while rest != {}
      invariant rest <= xs
      invariant forall y :: y in s <==> y in xs && y !in rest
      invariant StrictlySorted(s)
      invariant forall x, y :: x in s && y in rest ==> StringLess(x, y)
      decreases rest
    {
      var x := Least(rest);
      assert forall y :: y in s ==> StringLess(y, x);
      s := s + [x];
      rest := rest - {x};
    }
  }

  lemma FirstIsLeast(s: seq<string>, x: string)
    requires StrictlySorted(s) && x in s
    ensures StringLeq(s[0], x)
  {
    LeqTotal(s[0], s[0]);
  }

  lemma RestIsSorted(s: seq<string>)
    requires s != [] && StrictlySorted(s)
    ensures StrictlySorted(s[1..]) && s[0] !in s[1..]
  {
  }

  lemma SomeFirst(s: seq<string>)
    ensures s != [] ==> s[0] in s
  {
  }

  /** There is one way to sort a set. */
  lemma {:induction false} SortedIsUnique(s: seq<string>, t: seq<string>)
    requires StrictlySorted(s) && StrictlySorted(t)
    requires forall x :: x in s <==> x in t
    ensures s == t
  {
    SomeFirst(s);
    SomeFirst(t);
    if s != [] {
      FirstIsLeast(s, t[0]);
      FirstIsLeast(t, s[0]);
      LeqAntisymmetric(s[0], t[0]);
      RestIsSorted(s);
      RestIsSorted(t);
      assert s == [s[0]] + s[1..] && t == [t[0]] + t[1..];
      forall x ensures x in s[1..] <==> x in t[1..] {
        assert x in s[1..] <==> x in s && x != s[0];
        assert x in t[1..] <==> x in t && x != t[0];
      }
      SortedIsUnique(s[1..], t[1..]);
    }
  }
}
