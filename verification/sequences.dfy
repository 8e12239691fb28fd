/** Sequences without duplicates, and taking elements out of them. */
module Sequences {
  ghost predicate Distinct<T>(s: seq<T>) {
    forall i, j :: 0 <= i < j < |s| ==> s[i] != s[j]
  }

  function IndexOf<T(==)>(s: seq<T>, x: T): (k: nat)
    requires x in s
    ensures k < |s| && s[k] == x
  {
    if s[0] == x then 0 else 1 + IndexOf(s[1..], x)
  }

  function Remove<T>(s: seq<T>, k: nat): (r: seq<T>)
    requires k < |s|
    ensures |r| == |s| - 1
  {
    s[..k] + s[k + 1..]
  }

  // s without x, which occurs at most once.
  function Without<T(==)>(s: seq<T>, x: T): seq<T> {
    if x in s then Remove(s, IndexOf(s, x)) else s
  }

  lemma WithoutMembers<T>(s: seq<T>, x: T)
    requires Distinct(s)
    ensures Distinct(Without(s, x))
    ensures forall y :: y in Without(s, x) ==> y in s && y != x
    ensures forall y :: y in s && y != x ==> y in Without(s, x)
  {
    if x in s {
      var k := IndexOf(s, x);
      var r := Remove(s, k);
      forall y
        ensures y in r <==> y in s && y != x
      {
        if y in s && y != x {
          var i :| 0 <= i < |s| && s[i] == y;
          assert r[if i < k then i else i - 1] == y;
        }
      }
    }
  }

  lemma FirstTwo<T>(ks: seq<T>)
    requires Distinct(ks) && |ks| > 1
    ensures ks[0] != ks[1]
  {
  }
}
