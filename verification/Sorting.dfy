/** A comparison sort, standing for the library sort the source calls: any order among equals will do. */
module Sorting {

  ghost predicate Ordered<T(!new)>(before: (T, T) -> bool) {
    && (forall a, b :: before(a, b) || before(b, a))
    && (forall a, b, c :: before(a, b) && before(b, c) ==> before(a, c))
  }

  ghost predicate Sorted<T(!new)>(s: seq<T>, before: (T, T) -> bool) {
    forall i, j :: 0 <= i < j < |s| ==> before(s[i], s[j])
  }

  lemma InsertSorted<T(!new)>(s: seq<T>, k: nat, x: T, before: (T, T) -> bool)
    requires Sorted(s, before) && k <= |s|
    requires forall i :: 0 <= i < k ==> before(s[i], x)
    requires forall i :: k <= i < |s| ==> before(x, s[i])
    ensures Sorted(s[..k] + [x] + s[k..], before)
    ensures multiset(s[..k] + [x] + s[k..]) == multiset(s) + multiset{x}
  {
    assert s == s[..k] + s[k..];
  }

  method Sort<T(!new)>(xs: seq<T>, before: (T, T) -> bool) returns (out: seq<T>)
    requires Ordered(before)
    ensures multiset(out) == multiset(xs) && Sorted(out, before)
  {
    out := [];
    assert xs[..0] == [];
    for n := 0 to |xs|
      invariant multiset(out) == multiset(xs[..n]) && Sorted(out, before)
    {
      var k := Place(out, xs[n], before);
      InsertSorted(out, k, xs[n], before);
      assert xs[..n + 1] == xs[..n] + [xs[n]];
      out := out[..k] + [xs[n]] + out[k..];
    }
    assert xs[..|xs|] == xs;
  }

  method Place<T(!new)>(s: seq<T>, x: T, before: (T, T) -> bool) returns (k: nat)
    requires Ordered(before) && Sorted(s, before)
    ensures k <= |s| && (forall i :: 0 <= i < k ==> before(s[i], x)) && forall i :: k <= i < |s| ==> before(x, s[i])
  {
    k := |s|;
    while k > 0 && !before(s[k - 1], x)
      invariant k <= |s| && forall i :: k <= i < |s| ==> before(x, s[i])
    {
      k := k - 1;
    }
    assert forall i :: 0 <= i < k - 1 ==> before(s[i], s[k - 1]);
  }

  lemma SameMembers<T>(a: seq<T>, b: seq<T>)
    requires multiset(a) == multiset(b)
    ensures forall x :: x in a <==> x in b
  {
    assert forall x :: x in a <==> x in multiset(a);
    assert forall x :: x in b <==> x in multiset(b);
  }
}
