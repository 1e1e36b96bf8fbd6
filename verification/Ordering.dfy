// The order std::map and std::sort use on std::string keys, and sorted key lists.
module Ordering {

  predicate Leq(a: string, b: string) {
    a == [] || (b != [] && (a[0] < b[0] || (a[0] == b[0] && Leq(a[1..], b[1..]))))
  }

  lemma {:induction false} LeqTotal(a: string, b: string)
    ensures Leq(a, b) || Leq(b, a)
  {
    if a != [] && b != [] { LeqTotal(a[1..], b[1..]); }
  }

  lemma {:induction false} LeqAntisymmetric(a: string, b: string)
    requires Leq(a, b) && Leq(b, a)
    ensures a == b
  {
    if a != [] {
      LeqAntisymmetric(a[1..], b[1..]);
      assert a == [a[0]] + a[1..] && b == [b[0]] + b[1..];
    }
  }

  lemma {:induction false} LeqTransitive(a: string, b: string, c: string)
    requires Leq(a, b) && Leq(b, c)
    ensures Leq(a, c)
  {
    if a != [] && a[0] == b[0] == c[0] { LeqTransitive(a[1..], b[1..], c[1..]); }
  }

  // `k` comes first among `s`.
  predicate IsLeast(k: string, s: set<string>) {
    k in s && forall j :: j in s ==> Leq(k, j)
  }

  lemma {:induction false} LeastExists(s: set<string>)
    requires s != {}
    ensures exists k :: IsLeast(k, s)
  {
    var k :| k in s;
    var rest := s - {k};
    LeqTotal(k, k);
    if rest == {} {
      forall j | j in s ensures Leq(k, j) { assert j !in rest; }
      assert IsLeast(k, s);
    } else {
      LeastExists(rest);
      var m :| IsLeast(m, rest);
      LeqTotal(k, m);
      var least := if Leq(k, m) then k else m;
      forall j | j in s ensures Leq(least, j) {
        if j in rest && Leq(k, m) { LeqTransitive(k, m, j); }
      }
      assert IsLeast(least, s);
    }
  }

  lemma LeastIsUnique(j: string, k: string, s: set<string>)
    requires IsLeast(j, s) && IsLeast(k, s)
    ensures j == k
  {
    LeqAntisymmetric(j, k);
  }

  function Least(s: set<string>): (k: string)
    requires s != {}
    ensures IsLeast(k, s)
  {
    LeastExists(s);
    assert forall i, j :: IsLeast(i, s) && IsLeast(j, s) ==> i == j by {
      forall i, j | IsLeast(i, s) && IsLeast(j, s) ensures i == j { LeastIsUnique(i, j, s); }
    }
    var k :| IsLeast(k, s);
    k
  }

  // The keys of a std::map in iteration order.
  function SortedKeys(s: set<string>): (ks: seq<string>)
    ensures forall k :: k in ks <==> k in s
    ensures |ks| == |s|
  {
    if s == {} then [] else [Least(s)] + SortedKeys(s - {Least(s)})
  }

  ghost predicate Distinct<T>(xs: seq<T>) {
    forall i, j :: 0 <= i < j < |xs| ==> xs[i] != xs[j]
  }

  lemma {:induction false} SortedKeysDistinct(s: set<string>)
    ensures Distinct(SortedKeys(s))
  {
    if s != {} {
      var rest := SortedKeys(s - {Least(s)});
      SortedKeysDistinct(s - {Least(s)});
      assert forall j :: 0 <= j < |rest| ==> rest[j] in rest;
    }
  }
}
