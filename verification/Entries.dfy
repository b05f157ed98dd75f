/** Entries sorted by key, as `Object.keys(value).sort()` orders them. */
module Entries {
  import opened Text

  datatype Entry<V> = Entry(key: Utf16, value: V)

  function Insert<V>(e: Entry<V>, sorted: seq<Entry<V>>): seq<Entry<V>> {
    if sorted == [] || AtMost(e.key, sorted[0].key) then [e] + sorted
    else [sorted[0]] + Insert(e, sorted[1..])
  }

  function SortByKey<V>(entries: seq<Entry<V>>): seq<Entry<V>> {
    if entries == [] then [] else Insert(entries[0], SortByKey(entries[1..]))
  }

  ghost predicate DistinctKeys<V>(entries: seq<Entry<V>>) {
    forall i, j :: 0 <= i < j < |entries| ==> entries[i].key != entries[j].key
  }

  ghost predicate StrictlySorted<V>(entries: seq<Entry<V>>) {
    forall i, j :: 0 <= i < j < |entries| ==> Less(entries[i].key, entries[j].key)
  }

  lemma {:induction false} InsertMembers<V>(e: Entry<V>, sorted: seq<Entry<V>>)
    ensures multiset(Insert(e, sorted)) == multiset{e} + multiset(sorted)
  {
    if sorted != [] && !AtMost(e.key, sorted[0].key) {
      InsertMembers(e, sorted[1..]);
      assert sorted == [sorted[0]] + sorted[1..];
    }
  }

  lemma {:induction false} SortMembers<V>(entries: seq<Entry<V>>)
    ensures multiset(SortByKey(entries)) == multiset(entries)
  {
    if entries != [] {
      SortMembers(entries[1..]);
      InsertMembers(entries[0], SortByKey(entries[1..]));
      assert entries == [entries[0]] + entries[1..];
    }
  }

  lemma {:induction false} InsertSorted<V>(e: Entry<V>, sorted: seq<Entry<V>>)
    requires StrictlySorted(sorted)
    requires forall x :: x in sorted ==> x.key != e.key
    ensures StrictlySorted(Insert(e, sorted))
  {
    if sorted == [] {
    } else if AtMost(e.key, sorted[0].key) {
      assert sorted[0] in sorted;
      forall j | 0 <= j < |sorted|
        ensures Less(e.key, sorted[j].key)
      {
        if j > 0 { LessTransitive(e.key, sorted[0].key, sorted[j].key); }
      }
    } else {
      var rest := sorted[1..];
      InsertSorted(e, rest);
      InsertMembers(e, rest);
      LessTrichotomy(e.key, sorted[0].key);
      var tail := Insert(e, rest);
      forall j | 0 <= j < |tail|
        ensures Less(sorted[0].key, tail[j].key)
      {
        assert tail[j] in tail;
        if tail[j] != e {
          assert tail[j] in multiset(tail) && tail[j] in rest;
          var k :| 0 <= k < |rest| && rest[k] == tail[j];
          assert sorted[k + 1] == tail[j];
        }
      }
    }
  }

  lemma {:induction false} SortSorts<V>(entries: seq<Entry<V>>)
    requires DistinctKeys(entries)
    ensures StrictlySorted(SortByKey(entries))
  {
    if entries != [] {
      var rest := entries[1..];
      SortSorts(rest);
      SortMembers(rest);
      forall x: Entry<V> | x in SortByKey(rest)
        ensures x.key != entries[0].key
      {
        assert x in multiset(rest);
        var k :| 0 <= k < |rest| && rest[k] == x;
        assert entries[k + 1] == x;
      }
      InsertSorted(entries[0], SortByKey(rest));
    }
  }

  lemma FirstIsLeast<V>(a: seq<Entry<V>>, x: Entry<V>)
    requires StrictlySorted(a) && x in multiset(a)
    ensures x == a[0] || Less(a[0].key, x.key)
  {
  }

  lemma SameFirst<V>(a: seq<Entry<V>>, b: seq<Entry<V>>)
    requires StrictlySorted(a) && StrictlySorted(b) && a != [] && b != []
    requires multiset(a) == multiset(b)
    ensures a[0] == b[0]
  {
    assert a[0] in multiset(a) && b[0] in multiset(b);
    FirstIsLeast(a, b[0]);
    FirstIsLeast(b, a[0]);
    LessTrichotomy(a[0].key, b[0].key);
  }

  lemma {:induction false} SortedUnique<V>(a: seq<Entry<V>>, b: seq<Entry<V>>)
    requires StrictlySorted(a) && StrictlySorted(b)
    requires multiset(a) == multiset(b)
    ensures a == b
  {
    assert |a| == |multiset(a)| == |multiset(b)| == |b|;
    if a != [] {
      SameFirst(a, b);
      assert a == [a[0]] + a[1..] && b == [b[0]] + b[1..];
      assert multiset(a[1..]) == multiset(a) - multiset{a[0]};
      SortedUnique(a[1..], b[1..]);
    }
  }

  // With distinct keys and equally many entries, inclusion is equality.
  lemma {:induction false} SameMembers<V>(a: seq<Entry<V>>, b: seq<Entry<V>>)
    requires DistinctKeys(a) && |a| == |b|
    requires forall i :: 0 <= i < |a| ==> a[i] in b
    ensures multiset(a) == multiset(b)
  {
    if a != [] {
      assert a[0] in b;
      var i :| 0 <= i < |b| && b[i] == a[0];
      var rest := b[..i] + b[i + 1..];
      assert b == b[..i] + [b[i]] + b[i + 1..];
      assert a == [a[0]] + a[1..];
      forall k | 0 <= k < |a[1..]|
        ensures a[1..][k] in rest
      {
        assert a[1..][k] == a[k + 1] && a[k + 1] in b && a[k + 1] != a[0];
      }
      SameMembers(a[1..], rest);
    }
  }

  /** Two lists with the same distinct-keyed members sort to the same list. */
  lemma SortCanonical<V>(a: seq<Entry<V>>, b: seq<Entry<V>>)
    requires DistinctKeys(a) && DistinctKeys(b) && |a| == |b|
    requires forall i :: 0 <= i < |a| ==> a[i] in b
    ensures SortByKey(a) == SortByKey(b)
  {
    SameMembers(a, b);
    SortMembers(a);
    SortMembers(b);
    SortSorts(a);
    SortSorts(b);
    SortedUnique(SortByKey(a), SortByKey(b));
  }
}
