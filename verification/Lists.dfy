/** Lists and the maps built from them, up to the order of the list. */
module Lists {
  import opened Wrappers

  // `xs.map(f).filter(value => value !== undefined)`
  function Collect<T, U>(f: T -> Option<U>, xs: seq<T>): seq<U> {
    if xs == [] then []
    else
      var rest := Collect(f, xs[..|xs| - 1]);
      match f(xs[|xs| - 1])
      case Some(u) => rest + [u]
      case None => rest
  }

  // `new Map(entries)`: a later entry replaces an earlier one.
  function ToMap<K, V>(entries: seq<(K, V)>): map<K, V> {
    if entries == [] then map[]
    else ToMap(entries[..|entries| - 1])[entries[|entries| - 1].0 := entries[|entries| - 1].1]
  }

  function FindFirst<T>(p: T -> bool, xs: seq<T>): Option<T> {
    if xs == [] then None else if p(xs[0]) then Some(xs[0]) else FindFirst(p, xs[1..])
  }

  function Elements<T>(xs: seq<T>): set<T> {
    set x | x in xs
  }

  ghost predicate Permuted<T>(xs: seq<T>, ys: seq<T>) {
    multiset(xs) == multiset(ys)
  }

  ghost predicate DistinctBy<T, K>(key: T -> K, xs: seq<T>) {
    forall i, j :: 0 <= i < j < |xs| ==> key(xs[i]) != key(xs[j])
  }

  ghost predicate DistinctFirsts<K, V>(entries: seq<(K, V)>) {
    forall i, j :: 0 <= i < j < |entries| ==> entries[i].0 != entries[j].0
  }

  lemma MultisetAround<T>(before: seq<T>, x: T, after: seq<T>)
    ensures multiset(before + [x] + after) == multiset(before + after) + multiset{x}
  {
    assert multiset(before + [x]) == multiset(before) + multiset{x};
    assert multiset(before + [x] + after) == multiset(before + [x]) + multiset(after);
    assert multiset(before + after) == multiset(before) + multiset(after);
  }

  lemma MultisetWithout<T>(xs: seq<T>, i: nat)
    requires i < |xs|
    ensures xs == xs[..i] + [xs[i]] + xs[i + 1..]
    ensures multiset(xs) == multiset(xs[..i] + xs[i + 1..]) + multiset{xs[i]}
  {
    assert xs == xs[..i] + [xs[i]] + xs[i + 1..];
    MultisetAround(xs[..i], xs[i], xs[i + 1..]);
  }

  lemma Cancel<T>(a: multiset<T>, b: multiset<T>, x: T)
    requires a + multiset{x} == b + multiset{x}
    ensures a == b
  {
    assert a == a + multiset{x} - multiset{x} && b == b + multiset{x} - multiset{x};
  }

  lemma Position<T>(xs: seq<T>, x: T) returns (i: nat)
    requires x in xs
    ensures i < |xs| && xs[i] == x
  {
    i :| 0 <= i < |xs| && xs[i] == x;
  }

  // An element of `ys` like the last of `xs`, and `ys` without it.
  lemma TakeOut<T>(xs: seq<T>, ys: seq<T>) returns (i: nat, rest: seq<T>)
    requires Permuted(xs, ys) && xs != []
    ensures i < |ys| && ys[i] == xs[|xs| - 1]
    ensures rest == ys[..i] + ys[i + 1..] && Permuted(xs[..|xs| - 1], rest)
    ensures ys == ys[..i] + [ys[i]] + ys[i + 1..]
  {
    var x := xs[|xs| - 1];
    MultisetWithout(xs, |xs| - 1);
    assert x in multiset(ys);
    i := Position(ys, x);
    rest := ys[..i] + ys[i + 1..];
    MultisetWithout(ys, i);
    assert xs[..|xs| - 1] + xs[|xs| - 1 + 1..] == xs[..|xs| - 1];
    Cancel(multiset(xs[..|xs| - 1]), multiset(rest), x);
  }

  lemma PermutedMembers<T>(xs: seq<T>, ys: seq<T>, x: T)
    requires Permuted(xs, ys)
    ensures x in xs <==> x in ys
    ensures |xs| == |ys|
  {
    assert x in xs <==> x in multiset(xs);
    assert x in ys <==> x in multiset(ys);
    assert |multiset(xs)| == |multiset(ys)|;
  }

  lemma {:induction false} CollectConcat<T, U>(f: T -> Option<U>, a: seq<T>, b: seq<T>)
    ensures Collect(f, a + b) == Collect(f, a) + Collect(f, b)
  {
    if b == [] {
      assert a + b == a;
    } else {
      assert (a + b)[..|a + b| - 1] == a + b[..|b| - 1];
      CollectConcat(f, a, b[..|b| - 1]);
    }
  }

  lemma {:induction false} CollectPermuted<T, U>(f: T -> Option<U>, xs: seq<T>, ys: seq<T>)
    requires Permuted(xs, ys)
    ensures Permuted(Collect(f, xs), Collect(f, ys))
  {
    if xs == [] {
      assert |multiset(ys)| == 0;
      assert ys == [];
    } else {
      var i, rest := TakeOut(xs, ys);
      CollectPermuted(f, xs[..|xs| - 1], rest);
      CollectConcat(f, ys[..i], ys[i + 1..]);
      CollectConcat(f, ys[..i] + [ys[i]], ys[i + 1..]);
      CollectConcat(f, ys[..i], [ys[i]]);
      assert [ys[i]][..0] == [];
    }
  }

  /** What is collected comes, in order, from exactly the elements that give something. */
  lemma {:induction false} CollectedAll<T, U>(f: T -> Option<U>, xs: seq<T>) returns (at: seq<nat>)
    ensures |at| == |Collect(f, xs)|
    ensures forall k :: 0 <= k < |at| ==> at[k] < |xs| && f(xs[at[k]]) == Some(Collect(f, xs)[k])
    ensures forall k, m :: 0 <= k < m < |at| ==> at[k] < at[m]
    ensures forall i :: i in at <==> 0 <= i < |xs| && f(xs[i]).Some?
  {
    at := [];
    if xs != [] {
      var last := |xs| - 1;
      at := CollectedAll(f, xs[..last]);
      var before := at;
      assert forall i :: 0 <= i < last ==> xs[..last][i] == xs[i];
      assert forall i :: i in before ==> i < last;
      if f(xs[last]).Some? {
        at := before + [last];
        assert forall k :: 0 <= k < |before| ==> before[k] in before;
      }
    }
  }

  lemma CollectedFrom<T, U>(f: T -> Option<U>, xs: seq<T>, k: nat) returns (i: nat)
    requires k < |Collect(f, xs)|
    ensures i < |xs| && f(xs[i]) == Some(Collect(f, xs)[k])
  {
    var at := CollectedAll(f, xs);
    i := at[k];
  }

  lemma {:induction false} ToMapMembers<K, V>(entries: seq<(K, V)>)
    requires DistinctFirsts(entries)
    ensures forall e :: e in entries ==> e.0 in ToMap(entries) && ToMap(entries)[e.0] == e.1
    ensures forall k :: k in ToMap(entries) ==> (k, ToMap(entries)[k]) in entries
  {
    if entries != [] {
      var earlier, last := entries[..|entries| - 1], entries[|entries| - 1];
      ToMapMembers(earlier);
      forall e | e in entries
        ensures e.0 in ToMap(entries) && ToMap(entries)[e.0] == e.1
      {
        var i :| 0 <= i < |entries| && entries[i] == e;
        if i < |earlier| {
          assert earlier[i] == e && e in earlier;
        }
      }
    }
  }

  /** With distinct keys, the map does not depend on the order of the entries. */
  lemma ToMapPermuted<K, V>(a: seq<(K, V)>, b: seq<(K, V)>)
    requires Permuted(a, b) && DistinctFirsts(a)
    ensures ToMap(a) == ToMap(b)
  {
    DistinctPermuted(a, b);
    ToMapMembers(a);
    ToMapMembers(b);
    forall k | k in ToMap(a)
      ensures k in ToMap(b) && ToMap(b)[k] == ToMap(a)[k]
    {
      PermutedMembers(a, b, (k, ToMap(a)[k]));
    }
    forall k | k in ToMap(b)
      ensures k in ToMap(a)
    {
      PermutedMembers(a, b, (k, ToMap(b)[k]));
    }
  }

  lemma {:induction false} DistinctPermuted<K, V>(xs: seq<(K, V)>, ys: seq<(K, V)>)
    requires Permuted(xs, ys) && DistinctFirsts(xs)
    ensures DistinctFirsts(ys)
  {
    if xs == [] {
      assert |multiset(ys)| == 0;
    } else {
      var i, rest := TakeOut(xs, ys);
      var earlier := xs[..|xs| - 1];
      DistinctPermuted(earlier, rest);
      forall k | 0 <= k < |rest|
        ensures rest[k].0 != ys[i].0
      {
        PermutedMembers(earlier, rest, rest[k]);
        var j :| 0 <= j < |earlier| && earlier[j] == rest[k];
        assert xs[j] == rest[k];
      }
      forall j, k | 0 <= j < k < |ys|
        ensures ys[j].0 != ys[k].0
      {
        assert j != i ==> ys[j] == rest[if j < i then j else j - 1];
        assert k != i ==> ys[k] == rest[if k < i then k else k - 1];
      }
    }
  }

  // Collecting from records with distinct keys, keyed by them, gives distinct keys.
  lemma {:induction false} CollectDistinct<T(!new), V, K>(f: T -> Option<(K, V)>, key: T -> K, xs: seq<T>)
    requires DistinctBy(key, xs)
    requires forall x :: f(x).Some? ==> f(x).value.0 == key(x)
    ensures DistinctFirsts(Collect(f, xs))
  {
    if xs != [] {
      var earlier, last := xs[..|xs| - 1], xs[|xs| - 1];
      CollectDistinct(f, key, earlier);
      forall k | 0 <= k < |Collect(f, earlier)|
        ensures Collect(f, earlier)[k].0 != key(last)
      {
        var i := CollectedFrom(f, earlier, k);
        assert xs[i] == earlier[i];
      }
    }
  }

  /** A lookup table built from records with distinct keys does not depend on their order. */
  lemma TablePermuted<T(!new), V, K>(f: T -> Option<(K, V)>, key: T -> K, xs: seq<T>, ys: seq<T>)
    requires Permuted(xs, ys) && DistinctBy(key, xs)
    requires forall x :: f(x).Some? ==> f(x).value.0 == key(x)
    ensures ToMap(Collect(f, xs)) == ToMap(Collect(f, ys))
  {
    CollectPermuted(f, xs, ys);
    CollectDistinct(f, key, xs);
    ToMapPermuted(Collect(f, xs), Collect(f, ys));
  }

  lemma ElementsPermuted<T>(xs: seq<T>, ys: seq<T>)
    requires Permuted(xs, ys)
    ensures Elements(xs) == Elements(ys)
  {
    forall x
      ensures x in xs <==> x in ys
    {
      PermutedMembers(xs, ys, x);
    }
  }

  // The one record with a given key is found in any order.
  lemma {:induction false} FindFirstFinds<T>(p: T -> bool, xs: seq<T>)
    ensures FindFirst(p, xs).Some? ==> FindFirst(p, xs).value in xs && p(FindFirst(p, xs).value)
    ensures FindFirst(p, xs).None? ==> forall x :: x in xs ==> !p(x)
  {
    if xs != [] {
      FindFirstFinds(p, xs[1..]);
      assert xs == [xs[0]] + xs[1..];
    }
  }

  lemma FindFirstPermuted<T>(p: T -> bool, xs: seq<T>, ys: seq<T>)
    requires Permuted(xs, ys)
    requires forall x, y :: x in xs && y in xs && p(x) && p(y) ==> x == y
    ensures FindFirst(p, xs) == FindFirst(p, ys)
  {
    FindFirstFinds(p, xs);
    FindFirstFinds(p, ys);
    if FindFirst(p, xs).Some? { PermutedMembers(xs, ys, FindFirst(p, xs).value); }
    if FindFirst(p, ys).Some? { PermutedMembers(xs, ys, FindFirst(p, ys).value); }
  }
}
