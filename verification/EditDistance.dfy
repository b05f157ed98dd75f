/** The edit distance of the ingredient search: the in-place rolling row, the recursion it
    computes, and the edit scripts whose least cost that recursion is. */
module EditDistance {
  import opened Text

  function Min(a: nat, b: nat): nat { if a <= b then a else b }

  /** The recursion behind the table of `editDistance`, on the last characters of both words. */
  function Distance<T(==)>(a: seq<T>, b: seq<T>): nat
    decreases |a| + |b|
  {
    if a == [] then |b|
    else if b == [] then |a|
    else
      var a' := a[..|a| - 1];
      var b' := b[..|b| - 1];
      if a[|a| - 1] == b[|b| - 1] then Distance(a', b')
      else 1 + Min(Distance(a', b'), Min(Distance(a', b), Distance(a, b')))
  }

  // `table[i][j]` is the distance between the first `i` and the first `j` characters: its borders
  // and the rule by which each entry follows from its neighbours.
  ghost predicate IsTable<T>(table: seq<seq<nat>>, a: seq<T>, b: seq<T>) {
    && |table| == |a| + 1
    && (forall i :: 0 <= i <= |a| ==> |table[i]| == |b| + 1 && table[i][0] == i)
    && (forall j :: 0 <= j <= |b| ==> table[0][j] == j)
    && (forall i, j :: 1 <= i <= |a| && 1 <= j <= |b| ==> EntryFollows(table, a, b, i, j))
  }

  ghost predicate EntryFollows<T>(table: seq<seq<nat>>, a: seq<T>, b: seq<T>, i: nat, j: nat)
    requires |table| == |a| + 1 && forall i :: 0 <= i <= |a| ==> |table[i]| == |b| + 1
    requires 1 <= i <= |a| && 1 <= j <= |b|
  {
    table[i][j] ==
      if a[i - 1] == b[j - 1] then table[i - 1][j - 1]
      else 1 + Min(table[i - 1][j - 1], Min(table[i - 1][j], table[i][j - 1]))
  }

  lemma DistanceTable<T>(a: seq<T>, b: seq<T>) returns (table: seq<seq<nat>>)
    ensures IsTable(table, a, b) && table[|a|][|b|] == Distance(a, b)
  {
    table := seq(|a| + 1, i requires 0 <= i <= |a| =>
      seq(|b| + 1, j requires 0 <= j <= |b| => Distance(a[..i], b[..j])));
    forall i, j | 1 <= i <= |a| && 1 <= j <= |b|
      ensures EntryFollows(table, a, b, i, j)
    {
      assert a[..i] == a[..i - 1] + [a[i - 1]] && b[..j] == b[..j - 1] + [b[j - 1]];
      DistanceSnoc(a[..i - 1], a[i - 1], b[..j - 1], b[j - 1]);
    }
    assert a[..|a|] == a && b[..|b|] == b;
  }

  method ComputeDistance(left: Utf16, right: Utf16) returns (distance: nat)
    ensures distance == Distance(Characters(left), Characters(right))
  {
    var leftCharacters := Characters(left);
    var rightCharacters := Characters(right);
    var width := |rightCharacters|;
    ghost var table := DistanceTable(leftCharacters, rightCharacters);
    var previous := new nat[width + 1](index => index);
    var row := 1;
    while row <= |leftCharacters|
      invariant 1 <= row <= |leftCharacters| + 1
      invariant forall j :: 0 <= j <= width ==> previous[j] == table[row - 1][j]
    {
      var diagonal := previous[0];
      previous[0] := row;
      var column := 1;
      while column <= width
        invariant 1 <= column <= width + 1
        invariant diagonal == table[row - 1][column - 1]
        invariant forall j :: 0 <= j < column ==> previous[j] == table[row][j]
        invariant forall j :: column <= j <= width ==> previous[j] == table[row - 1][j]
      {
        assert EntryFollows(table, leftCharacters, rightCharacters, row, column);
        var above := previous[column];
        previous[column] :=
          if leftCharacters[row - 1] == rightCharacters[column - 1] then diagonal
          else 1 + Min(diagonal, Min(above, previous[column - 1]));
        diagonal := above;
        column := column + 1;
      }
      row := row + 1;
    }
    distance := previous[width];
  }

  // ---------- Edit scripts: an independent meaning of the distance ----------

  datatype Edit<T> = Keep(kept: T) | Insert(inserted: T) | Delete(deleted: T) | Substitute(before: T, after: T)

  function Source<T>(script: seq<Edit<T>>): seq<T> {
    if script == [] then []
    else
      var rest := Source(script[..|script| - 1]);
      match script[|script| - 1]
      case Keep(c) => rest + [c]
      case Insert(_) => rest
      case Delete(c) => rest + [c]
      case Substitute(c, _) => rest + [c]
  }

  function Target<T>(script: seq<Edit<T>>): seq<T> {
    if script == [] then []
    else
      var rest := Target(script[..|script| - 1]);
      match script[|script| - 1]
      case Keep(c) => rest + [c]
      case Insert(c) => rest + [c]
      case Delete(_) => rest
      case Substitute(_, c) => rest + [c]
  }

  function Cost<T>(script: seq<Edit<T>>): nat {
    if script == [] then 0
    else Cost(script[..|script| - 1]) + if script[|script| - 1].Keep? then 0 else 1
  }

  ghost predicate Transforms<T>(script: seq<Edit<T>>, a: seq<T>, b: seq<T>) {
    Source(script) == a && Target(script) == b
  }

  lemma {:induction false} Snoc<T>(script: seq<Edit<T>>, e: Edit<T>)
    ensures var longer := script + [e];
      && Source(longer) == Source(script) + (
           if e.Insert? then [] else if e.Keep? then [e.kept] else if e.Delete? then [e.deleted] else [e.before])
      && Target(longer) == Target(script) + (
           if e.Delete? then [] else if e.Keep? then [e.kept] else if e.Insert? then [e.inserted] else [e.after])
      && Cost(longer) == Cost(script) + (if e.Keep? then 0 else 1)
  {
  }

  lemma {:induction false} DistanceSymmetric<T>(a: seq<T>, b: seq<T>)
    ensures Distance(a, b) == Distance(b, a)
    decreases |a| + |b|
  {
    if a != [] && b != [] {
      var a', b' := a[..|a| - 1], b[..|b| - 1];
      DistanceSymmetric(a', b');
      DistanceSymmetric(a', b);
      DistanceSymmetric(a, b');
    }
  }

  // The recursion read forwards: what appending one character to each word does.
  lemma DistanceSnoc<T>(a: seq<T>, x: T, b: seq<T>, y: T)
    ensures Distance(a + [x], b + [y]) ==
      if x == y then Distance(a, b)
      else 1 + Min(Distance(a, b), Min(Distance(a, b + [y]), Distance(a + [x], b)))
  {
  }

  // One more character on the left moves the distance by at most one.
  lemma {:induction false} OneMoreCharacter<T>(a: seq<T>, x: T, b: seq<T>)
    ensures Distance(a, b) <= 1 + Distance(a + [x], b)
    ensures Distance(a + [x], b) <= 1 + Distance(a, b)
    decreases |a| + |b|, 0
  {
    var ax := a + [x];
    assert ax[..|ax| - 1] == a;
    if b != [] {
      var b', y := b[..|b| - 1], b[|b| - 1];
      assert b == b' + [y];
      OneMoreOnTheRight(a, b', y);
      OneMoreCharacter(a, x, b');
    }
  }

  lemma {:induction false} OneMoreOnTheRight<T>(a: seq<T>, b: seq<T>, y: T)
    ensures Distance(a, b) <= 1 + Distance(a, b + [y])
    ensures Distance(a, b + [y]) <= 1 + Distance(a, b)
    decreases |a| + |b|, 1
  {
    OneMoreCharacter(b, y, a);
    DistanceSymmetric(a, b);
    DistanceSymmetric(a, b + [y]);
  }

  // No script is cheaper than the distance.
  lemma {:induction false} DistanceIsLowerBound<T>(script: seq<Edit<T>>)
    ensures Distance(Source(script), Target(script)) <= Cost(script)
  {
    if script != [] {
      var rest, e := script[..|script| - 1], script[|script| - 1];
      DistanceIsLowerBound(rest);
      var a, b := Source(rest), Target(rest);
      match e
      case Insert(y) => OneMoreOnTheRight(a, b, y);
      case Delete(x) => OneMoreCharacter(a, x, b);
      case Keep(x) =>
        assert (a + [x])[..|a|] == a && (b + [x])[..|b|] == b;
      case Substitute(x, y) =>
        assert (a + [x])[..|a|] == a && (b + [y])[..|b|] == b;
    }
  }

  // Some script costs exactly the distance.
  lemma {:induction false} ShortestScript<T>(a: seq<T>, b: seq<T>) returns (script: seq<Edit<T>>)
    ensures Transforms(script, a, b) && Cost(script) == Distance(a, b)
    decreases |a| + |b|
  {
    assert Source<T>([]) == [] && Target<T>([]) == [] && Cost<T>([]) == 0;
    hide Source, Target, Cost;
    if a == [] && b == [] {
      script := [];
    } else if a == [] {
      var b', y := b[..|b| - 1], b[|b| - 1];
      var rest := ShortestScript(a, b');
      Snoc(rest, Insert(y));
      script := rest + [Insert(y)];
    } else if b == [] {
      var a', x := a[..|a| - 1], a[|a| - 1];
      var rest := ShortestScript(a', b);
      Snoc(rest, Delete(x));
      script := rest + [Delete(x)];
    } else {
      var a', x := a[..|a| - 1], a[|a| - 1];
      var b', y := b[..|b| - 1], b[|b| - 1];
      assert a == a' + [x] && b == b' + [y];
      var both := ShortestScript(a', b');
      if x == y {
        Snoc(both, Keep(x));
        script := both + [Keep(x)];
      } else {
        var left := ShortestScript(a', b);
        var right := ShortestScript(a, b');
        Snoc(both, Substitute(x, y));
        Snoc(left, Delete(x));
        Snoc(right, Insert(y));
        if Distance(a, b) == 1 + Distance(a', b') {
          script := both + [Substitute(x, y)];
        } else if Distance(a, b) == 1 + Distance(a', b) {
          script := left + [Delete(x)];
        } else {
          script := right + [Insert(y)];
        }
      }
    }
  }

  /** The distance is the least cost of a script of insertions, deletions and substitutions. */
  lemma DistanceIsLeastCost<T>(a: seq<T>, b: seq<T>)
    ensures exists script: seq<Edit<T>> :: Transforms(script, a, b) && Cost(script) == Distance(a, b)
    ensures forall script: seq<Edit<T>> :: Transforms(script, a, b) ==> Distance(a, b) <= Cost(script)
  {
    var shortest := ShortestScript(a, b);
    forall script: seq<Edit<T>> | Transforms(script, a, b)
      ensures Distance(a, b) <= Cost(script)
    {
      DistanceIsLowerBound(script);
    }
  }

  // ---------- Metric laws ----------

  lemma {:induction false} ZeroDistance<T>(a: seq<T>, b: seq<T>)
    ensures Distance(a, b) == 0 <==> a == b
    decreases |a| + |b|
  {
    if a != [] && b != [] {
      assert a == a[..|a| - 1] + [a[|a| - 1]] && b == b[..|b| - 1] + [b[|b| - 1]];
      ZeroDistance(a[..|a| - 1], b[..|b| - 1]);
    }
  }

  // The step of the next lemma for a kept or substituted character: appending `x` to one word
  // and `y` to the other, at price `step`, keeps a bound of `k`.
  lemma BoundAfterOneCharacter<T>(a: seq<T>, z: T, b: seq<T>, x: T, c: seq<T>, y: T, k: nat, step: nat)
    requires step == 1 || (step == 0 && x == y)
    requires Distance(a + [z], c) <= Distance(a + [z], b) + k
    requires Distance(a, c) <= Distance(a, b) + k
    requires Distance(a, c + [y]) <= Distance(a, b + [x]) + k + step
    ensures Distance(a + [z], c + [y]) <= Distance(a + [z], b + [x]) + k + step
  {
    hide Distance;
    DistanceSnoc(a, z, b, x);
    DistanceSnoc(a, z, c, y);
    if z == y && z != x {
      OneMoreOnTheRight(a, c, y);
      OneMoreCharacter(a, z, c);
    }
  }

  // Editing the second word further costs at most the edits made.
  lemma {:induction false} DistanceAfterEdits<T>(a: seq<T>, script: seq<Edit<T>>)
    ensures Distance(a, Target(script)) <= Distance(a, Source(script)) + Cost(script)
    decreases |script|, |a|
  {
    if script != [] {
      var rest, e := script[..|script| - 1], script[|script| - 1];
      var b, c := Source(rest), Target(rest);
      DistanceAfterEdits(a, rest);
      if e.Insert? {
        OneMoreOnTheRight(a, c, e.inserted);
      } else if e.Delete? {
        OneMoreOnTheRight(a, b, e.deleted);
      } else if a != [] {
        var a', z := a[..|a| - 1], a[|a| - 1];
        assert a == a' + [z];
        DistanceAfterEdits(a', rest);
        DistanceAfterEdits(a', script);
        var x := if e.Keep? then e.kept else e.before;
        var y := if e.Keep? then e.kept else e.after;
        BoundAfterOneCharacter(a', z, b, x, c, y, Cost(rest), if e.Keep? then 0 else 1);
      }
    }
  }

  lemma DistanceTriangle<T>(a: seq<T>, b: seq<T>, c: seq<T>)
    ensures Distance(a, c) <= Distance(a, b) + Distance(b, c)
  {
    var script := ShortestScript(b, c);
    DistanceAfterEdits(a, script);
  }
}
