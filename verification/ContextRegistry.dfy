// src/system/registry.h: the registry a context is loaded from.
module ContextRegistry {
  import opened Bytes
  import opened Ordering
  import opened SystemContext
  import opened ContextSession

  datatype Registration<!V> = Registration(key: string, loader: Load<V>)

  predicate Alnum(c: char) { 'a' <= c <= 'z' || '0' <= c <= '9' }

  predicate Inner(c: char) { Alnum(c) || c == '.' || c == '_' || c == '-' }

  // Key::is_valid: a segment, a slash, and a segment that may hold more slashes.
  predicate ValidKey(k: string) {
    exists i :: 1 <= i < |k| - 1 && SplitsKey(k, i)
  }

  predicate SplitsKey(k: string, i: nat)
    requires 1 <= i < |k| - 1
  {
    && k[i] == '/' && Alnum(k[0]) && (forall j :: 1 <= j < i ==> Inner(k[j]))
    && Alnum(k[i + 1]) && (forall j :: i + 2 <= j < |k| ==> Inner(k[j]) || k[j] == '/')
  }

  ghost predicate DistinctRegistrations<V>(rs: seq<Registration<V>>) {
    forall i, j :: 0 <= i < j < |rs| ==> rs[i].key != rs[j].key
  }

  ghost predicate Ordered<V>(rs: seq<Registration<V>>) {
    forall i, j :: 0 <= i < j < |rs| ==> Leq(rs[i].key, rs[j].key) && rs[i].key != rs[j].key
  }

  // The registrations that remain, in order.
  function Dropped<V>(rs: seq<Registration<V>>, key: string): seq<Registration<V>> {
    if rs == [] then []
    else Dropped(rs[..|rs| - 1], key) + if rs[|rs| - 1].key == key then [] else [rs[|rs| - 1]]
  }

  lemma {:induction false} DroppedHas<V>(rs: seq<Registration<V>>, key: string, e: Registration<V>)
    ensures e in Dropped(rs, key) <==> e in rs && e.key != key
  {
    if rs != [] {
      var n := |rs| - 1;
      DroppedHas(rs[..n], key, e);
      assert rs == rs[..n] + [rs[n]];
    }
  }

  lemma {:induction false} DroppedStaysDistinct<V>(rs: seq<Registration<V>>, key: string)
    requires DistinctRegistrations(rs)
    ensures DistinctRegistrations(Dropped(rs, key))
  {
    if rs != [] {
      var n := |rs| - 1;
      var front := Dropped(rs[..n], key);
      DroppedStaysDistinct(rs[..n], key);
      forall i | 0 <= i < |front| ensures front[i].key != rs[n].key {
        DroppedHas(rs[..n], key, front[i]);
        OtherKey(rs, n, front[i]);
      }
    }
  }

  lemma OtherKey<V>(rs: seq<Registration<V>>, n: nat, e: Registration<V>)
    requires DistinctRegistrations(rs) && n < |rs| && e in rs[..n]
    ensures e.key != rs[n].key
  {
    var j :| 0 <= j < n && rs[..n][j] == e;
    assert rs[j] == e;
  }

  ghost predicate SameRegistrations<V>(a: seq<Registration<V>>, b: seq<Registration<V>>) {
    multiset(a) == multiset(b)
  }

  class SystemContextRegistry<V> {
    var entries: seq<Registration<V>>

    ghost predicate Valid()
      reads this
    {
      DistinctRegistrations(entries)
    }

    constructor ()
      ensures Valid() && entries == []
    {
      entries := [];
    }

    method RegisterContext(key: string, loader: Load<V>) returns (ok: bool)
      requires Valid()
      modifies this
      ensures Valid()
      ensures ok <==> ValidKey(key) && forall i :: 0 <= i < |old(entries)| ==> old(entries)[i].key != key
      ensures entries == if ok then old(entries) + [Registration(key, loader)] else old(entries)
    {
      if !ValidKey(key) { return false; }
      for i := 0 to |entries|
        invariant forall j :: 0 <= j < i ==> entries[j].key != key
      {
        if entries[i].key == key { return false; }
      }
      entries := entries + [Registration(key, loader)];
      return true;
    }

    // The clean-up of a registration handle.
    method Unregister(key: string)
      requires Valid()
      modifies this
      ensures Valid() && entries == Dropped(old(entries), key)
    {
      var kept: seq<Registration<V>> := [];
      for i := 0 to |entries|
        invariant entries == old(entries) && kept == Dropped(entries[..i], key)
      {
        assert entries[..i + 1][..i] == entries[..i];
        if entries[i].key != key { kept := kept + [entries[i]]; }
      }
      assert entries[..|entries|] == entries;
      DroppedStaysDistinct(entries, key);
      entries := kept;
    }

    // The loaders run in key order, whatever the order of registration.
    method Load() returns (r: Load<V>)
      requires Valid()
      ensures LoadsTo(SortedOf(entries), r)
      ensures Loadable(r)
    {
      var sorted := SortByKey(entries);
      var contexts: seq<seq<Entry<V>>> := [];
      for i := 0 to |sorted|
        invariant |contexts| == i
        invariant forall j :: 0 <= j < i ==> sorted[j].loader == Done(contexts[j])
      {
        if sorted[i].loader.Threw? { return Threw(sorted[i].loader.what); }
        contexts := contexts + [sorted[i].loader.value];
      }
      r := Combine(contexts);
      assert ContextsOf(sorted) == contexts by { ContextsAre(sorted, contexts); }
    }
  }

  // ---- load ----

  // The registrations in key order.
  function SortedOf<V>(entries: seq<Registration<V>>): seq<Registration<V>> {
    if entries == [] then []
    else Inserted(SortedOf(entries[..|entries| - 1]), entries[|entries| - 1])
  }

  function Inserted<V>(sorted: seq<Registration<V>>, e: Registration<V>): seq<Registration<V>> {
    if sorted == [] || !Leq(e.key, sorted[|sorted| - 1].key) then sorted + [e]
    else Inserted(sorted[..|sorted| - 1], e) + [sorted[|sorted| - 1]]
  }

  ghost predicate AllLoad<V>(rs: seq<Registration<V>>) {
    forall i :: 0 <= i < |rs| ==> rs[i].loader.Done?
  }

  ghost function ContextsOf<V>(rs: seq<Registration<V>>): seq<seq<Entry<V>>>
    requires AllLoad(rs)
  {
    if rs == [] then [] else ContextsOf(rs[..|rs| - 1]) + [rs[|rs| - 1].loader.value]
  }

  lemma {:induction false} ContextsAre<V>(rs: seq<Registration<V>>, contexts: seq<seq<Entry<V>>>)
    requires |contexts| == |rs| && forall i :: 0 <= i < |rs| ==> rs[i].loader == Done(contexts[i])
    ensures AllLoad(rs) && ContextsOf(rs) == contexts
  {
    if rs != [] {
      ContextsAre(rs[..|rs| - 1], contexts[..|rs| - 1]);
      assert contexts == contexts[..|rs| - 1] + [contexts[|rs| - 1]];
    }
  }

  // `r` is what running the loaders of `rs` in order and combining their contexts gives.
  ghost predicate LoadsTo<V>(rs: seq<Registration<V>>, r: Load<V>) {
    if AllLoad(rs) then
      var sources := Flatten(ContextsOf(rs));
      (r.Done? <==> DistinctKeys(sources)) && (r.Done? ==> r.value == sources)
    else r.Threw?
  }

  // std::sort on keys that are all different: there is one result.
  method SortByKey<V>(entries: seq<Registration<V>>) returns (sorted: seq<Registration<V>>)
    ensures sorted == SortedOf(entries)
  {
    sorted := [];
    for i := 0 to |entries|
      invariant sorted == SortedOf(entries[..i])
    {
      assert entries[..i + 1][..i] == entries[..i];
      sorted := Insert(sorted, entries[i]);
    }
    assert entries[..|entries|] == entries;
  }

  method Insert<V>(sorted: seq<Registration<V>>, e: Registration<V>) returns (r: seq<Registration<V>>)
    ensures r == Inserted(sorted, e)
  {
    var i := |sorted|;
    assert sorted[..i] == sorted && sorted[i..] == [];
    while i > 0 && Leq(e.key, sorted[i - 1].key)
      invariant 0 <= i <= |sorted|
      invariant Inserted(sorted, e) == Inserted(sorted[..i], e) + sorted[i..]
    {
      assert sorted[..i][..i - 1] == sorted[..i - 1];
      assert sorted[i - 1..] == [sorted[i - 1]] + sorted[i..];
      ConcatAssoc(Inserted(sorted[..i - 1], e), [sorted[i - 1]], sorted[i..]);
      i := i - 1;
    }
    r := sorted[..i] + [e] + sorted[i..];
  }

  lemma {:induction false} InsertedSame<V>(sorted: seq<Registration<V>>, e: Registration<V>)
    ensures multiset(Inserted(sorted, e)) == multiset(sorted) + multiset{e}
  {
    if sorted != [] {
      var n := |sorted| - 1;
      InsertedSame(sorted[..n], e);
      assert sorted == sorted[..n] + [sorted[n]];
    }
  }

  // `last` may follow every registration in `front`.
  ghost predicate Below<V>(front: seq<Registration<V>>, last: Registration<V>) {
    forall i :: 0 <= i < |front| ==> Leq(front[i].key, last.key) && front[i].key != last.key
  }

  lemma OrderedSnoc<V>(front: seq<Registration<V>>, last: Registration<V>)
    ensures Ordered(front + [last]) <==> Ordered(front) && Below(front, last)
  {
    hide Leq;
    var all := front + [last];
    assert all[|front|] == last;
    assert forall i :: 0 <= i < |front| ==> all[i] == front[i];
  }

  lemma {:induction false} InsertedOrdered<V>(sorted: seq<Registration<V>>, e: Registration<V>)
    requires Ordered(sorted) && forall i :: 0 <= i < |sorted| ==> sorted[i].key != e.key
    ensures Ordered(Inserted(sorted, e))
  {
    if sorted != [] {
      var n := |sorted| - 1;
      var front, last := sorted[..n], sorted[n];
      assert sorted == front + [last];
      OrderedSnoc(front, last);
      LeqTotal(e.key, last.key);
      hide Leq, Ordered;
      if Leq(e.key, last.key) {
        InsertedOrdered(front, e);
        InsertedBelow(front, e, last);
        OrderedSnoc(Inserted(front, e), last);
      } else {
        AllBelow(front, last, e);
        OrderedSnoc(sorted, e);
      }
    }
  }

  lemma InsertedBelow<V>(front: seq<Registration<V>>, e: Registration<V>, last: Registration<V>)
    requires Below(front, last) && Leq(e.key, last.key) && e.key != last.key
    ensures Below(Inserted(front, e), last)
  {
    var r := Inserted(front, e);
    InsertedSame(front, e);
    hide Leq, Inserted;
    forall i | 0 <= i < |r| ensures Leq(r[i].key, last.key) && r[i].key != last.key {
      assert r[i] in multiset(r);
      assert r[i] == e || r[i] in front;
    }
  }

  lemma AllBelow<V>(front: seq<Registration<V>>, last: Registration<V>, e: Registration<V>)
    requires Below(front, last) && Leq(last.key, e.key) && last.key != e.key
    requires forall i :: 0 <= i < |front| ==> front[i].key != e.key
    ensures Below(front + [last], e)
  {
    hide Leq;
    forall i | 0 <= i < |front| ensures Leq(front[i].key, e.key) {
      LeqTransitive(front[i].key, last.key, e.key);
    }
  }

  lemma {:induction false} SortedOfOrdered<V>(entries: seq<Registration<V>>)
    requires DistinctRegistrations(entries)
    ensures Ordered(SortedOf(entries)) && SameRegistrations(SortedOf(entries), entries)
  {
    if entries != [] {
      var n := |entries| - 1;
      var front, e := entries[..n], entries[n];
      SortedOfOrdered(front);
      assert entries == front + [e];
      var sorted := SortedOf(front);
      forall i | 0 <= i < |sorted| ensures sorted[i].key != e.key {
        assert sorted[i] in multiset(sorted);
        assert sorted[i] in front;
      }
      InsertedOrdered(sorted, e);
      InsertedSame(sorted, e);
    }
  }

  lemma {:induction false} OrderedIsUnique<V>(a: seq<Registration<V>>, b: seq<Registration<V>>)
    requires Ordered(a) && Ordered(b) && SameRegistrations(a, b)
    ensures a == b
    decreases |a|
  {
    assert |a| == |multiset(a)| == |multiset(b)| == |b|;
    if a != [] {
      SameHead(a, b);
      TailsOrdered(a);
      TailsOrdered(b);
      hide Ordered;
      HeadTail(a);
      HeadTail(b);
      OrderedIsUnique(a[1..], b[1..]);
    }
  }

  lemma TailsOrdered<V>(a: seq<Registration<V>>)
    requires Ordered(a) && a != []
    ensures Ordered(a[1..]) && multiset(a[1..]) == multiset(a) - multiset{a[0]}
  {
    HeadTail(a);
    hide Leq;
  }

  lemma SameHead<V>(a: seq<Registration<V>>, b: seq<Registration<V>>)
    requires Ordered(a) && Ordered(b) && SameRegistrations(a, b) && a != [] && b != []
    ensures a[0] == b[0]
  {
    hide Leq;
    LeqTotal(a[0].key, a[0].key);
    assert a[0] in multiset(b) && b[0] in multiset(a);
    LeqAntisymmetric(a[0].key, b[0].key);
  }

  // Registering the same sources in another order loads the same context.
  lemma LoadIgnoresOrder<V>(a: seq<Registration<V>>, b: seq<Registration<V>>)
    requires DistinctRegistrations(a) && DistinctRegistrations(b) && SameRegistrations(a, b)
    ensures SortedOf(a) == SortedOf(b)
  {
    SortedOfOrdered(a);
    SortedOfOrdered(b);
    OrderedIsUnique(SortedOf(a), SortedOf(b));
  }
}
