/** Per-field last-writer-wins: cells under (time, mutation id) stamps, and why replaying the same
    writes in any order, with any repeats, ends in the same cells. */
module LastWriter {
  import opened Text

  /** What a stored clock says about a field: `Unset` yields to every write, `Frozen` (a clock that
      cannot be read) to none, and a stamp to strictly newer ones. */
  datatype Stamp = Unset | Frozen | At(time: int, id: Utf16)

  datatype Cell<V> = Cell(content: V, stamp: Stamp)

  datatype Write<F, V> = Write(time: int, id: Utf16, contents: map<F, V>) {
    function Stamp(): Stamp { At(time, id) }
  }

  predicate Newer(a: Stamp, b: Stamp) {
    a.At? && (b.Unset? || (b.At? && (a.time > b.time || (a.time == b.time && Less(b.id, a.id)))))
  }

  lemma NewerTransitive(a: Stamp, b: Stamp, c: Stamp)
    requires Newer(a, b) && Newer(b, c)
    ensures Newer(a, c)
  {
    if c.At? && a.time == b.time == c.time {
      LessTransitive(c.id, b.id, a.id);
    }
  }

  // Of two stamps one is newer, unless they are equal.
  lemma NewerTotal(a: Stamp, b: Stamp)
    requires a.At? && b.At?
    ensures Newer(a, b) || Newer(b, a) || a == b
    ensures !(Newer(a, b) && Newer(b, a)) && !Newer(a, a)
  {
    LessTrichotomy(a.id, b.id);
    LessTrichotomy(a.id, a.id);
  }

  lemma NewerNegative(a: Stamp, b: Stamp, c: Stamp)
    requires a.At? && !Newer(a, b) && (b == c || Newer(c, b))
    ensures !Newer(a, c)
  {
    if Newer(a, c) && b != c {
      NewerTransitive(a, c, b);
    }
  }

  function StepCell<F, V>(cell: Cell<V>, w: Write<F, V>, f: F): Cell<V> {
    if f in w.contents && Newer(w.Stamp(), cell.stamp) then Cell(w.contents[f], w.Stamp()) else cell
  }

  function Step<F, V>(cells: map<F, Cell<V>>, w: Write<F, V>): map<F, Cell<V>> {
    map f | f in cells :: StepCell(cells[f], w, f)
  }

  function Replay<F, V>(cells: map<F, Cell<V>>, ws: seq<Write<F, V>>): map<F, Cell<V>> {
    if ws == [] then cells else Step(Replay(cells, ws[..|ws| - 1]), ws[|ws| - 1])
  }

  // A cell is the outcome of writes `ws` on `base`: the newest of them that beats the base, if any.
  ghost predicate IsWinner<F, V>(base: Cell<V>, ws: seq<Write<F, V>>, f: F, result: Cell<V>) {
    && (result == base || exists i :: 0 <= i < |ws| && WroteCell(ws[i], f, result) && Newer(result.stamp, base.stamp))
    && (forall i :: 0 <= i < |ws| && f in ws[i].contents ==> !Newer(ws[i].Stamp(), result.stamp))
  }

  predicate WroteCell<F, V(==)>(w: Write<F, V>, f: F, result: Cell<V>) {
    f in w.contents && result == Cell(w.contents[f], w.Stamp())
  }

  lemma {:induction false} ReplayWinner<F, V>(cells: map<F, Cell<V>>, ws: seq<Write<F, V>>, f: F)
    requires f in cells
    ensures Replay(cells, ws).Keys == cells.Keys
    ensures IsWinner(cells[f], ws, f, Replay(cells, ws)[f])
  {
    if ws != [] {
      var earlier, w := ws[..|ws| - 1], ws[|ws| - 1];
      ReplayWinner(cells, earlier, f);
      var before := Replay(cells, earlier)[f];
      var after := StepCell(before, w, f);
      assert ws[|ws| - 1] == w;
      if after == before {
        if before != cells[f] {
          var i :| 0 <= i < |earlier| && WroteCell(earlier[i], f, before) && Newer(before.stamp, cells[f].stamp);
          assert WroteCell(ws[i], f, after);
        }
        forall i | 0 <= i < |ws| && f in ws[i].contents
          ensures !Newer(ws[i].Stamp(), after.stamp)
        {
          if i < |earlier| {
            assert ws[i] == earlier[i];
          } else if Newer(w.Stamp(), before.stamp) {
            NewerTotal(w.Stamp(), w.Stamp());
          }
        }
      } else {
        assert WroteCell(ws[|ws| - 1], f, after);
        if before != cells[f] {
          NewerTransitive(after.stamp, before.stamp, cells[f].stamp);
        }
        forall i | 0 <= i < |ws| && f in ws[i].contents
          ensures !Newer(ws[i].Stamp(), after.stamp)
        {
          if i < |earlier| {
            assert ws[i] == earlier[i];
            NewerNegative(ws[i].Stamp(), before.stamp, after.stamp);
          } else {
            NewerTotal(w.Stamp(), w.Stamp());
          }
        }
      }
    }
  }

  ghost predicate SameWrites<F(!new), V(!new)>(xs: seq<Write<F, V>>, ys: seq<Write<F, V>>) {
    forall w :: w in xs <==> w in ys
  }

  ghost predicate DistinctIds<F, V>(ws: seq<Write<F, V>>) {
    forall i, j :: 0 <= i < |ws| && 0 <= j < |ws| && ws[i].id == ws[j].id ==> ws[i] == ws[j]
  }

  // An outcome that is not the base comes from a write, and is not newer than another outcome.
  lemma WinnerNotBeaten<F(!new), V(!new)>(
      base: Cell<V>, xs: seq<Write<F, V>>, ys: seq<Write<F, V>>, f: F, a: Cell<V>, b: Cell<V>)
    returns (w: Write<F, V>)
    requires SameWrites(xs, ys)
    requires IsWinner(base, xs, f, a) && IsWinner(base, ys, f, b) && b != base
    ensures w in xs && WroteCell(w, f, b) && Newer(b.stamp, base.stamp) && !Newer(b.stamp, a.stamp)
  {
    var j :| 0 <= j < |ys| && WroteCell(ys[j], f, b) && Newer(b.stamp, base.stamp);
    w := ys[j];
    assert w in ys;
    var i :| 0 <= i < |xs| && xs[i] == w;
  }

  lemma WinnerUnique<F(!new), V(!new)>(base: Cell<V>, xs: seq<Write<F, V>>, ys: seq<Write<F, V>>, f: F, a: Cell<V>,
        b: Cell<V>)
    requires SameWrites(xs, ys) && DistinctIds(xs)
    requires IsWinner(base, xs, f, a) && IsWinner(base, ys, f, b)
    ensures a == b
  {
    if a != base && b != base {
      var wb := WinnerNotBeaten(base, xs, ys, f, a, b);
      var wa := WinnerNotBeaten(base, ys, xs, f, b, a);
      NewerTotal(a.stamp, b.stamp);
      var i :| 0 <= i < |xs| && xs[i] == wb;
      assert wa in xs;
      var j :| 0 <= j < |xs| && xs[j] == wa;
    } else if a != base {
      var wa := WinnerNotBeaten(base, ys, xs, f, b, a);
    } else if b != base {
      var wb := WinnerNotBeaten(base, xs, ys, f, a, b);
    }
  }

  /** Replay converges: with distinct ids, the same set of writes in any order and with any repeats
      ends in the same cells. */
  lemma ReplayConverges<F(!new), V(!new)>(cells: map<F, Cell<V>>, xs: seq<Write<F, V>>, ys: seq<Write<F, V>>)
    requires SameWrites(xs, ys) && DistinctIds(xs)
    ensures Replay(cells, xs) == Replay(cells, ys)
  {
    forall f | f in cells
      ensures f in Replay(cells, xs) && f in Replay(cells, ys) && Replay(cells, xs)[f] == Replay(cells, ys)[f]
    {
      ReplayWinner(cells, xs, f);
      ReplayWinner(cells, ys, f);
      WinnerUnique(cells[f], xs, ys, f, Replay(cells, xs)[f], Replay(cells, ys)[f]);
    }
    ReplayKeys(cells, xs);
    ReplayKeys(cells, ys);
  }

  lemma {:induction false} ReplayKeys<F, V>(cells: map<F, Cell<V>>, ws: seq<Write<F, V>>)
    ensures Replay(cells, ws).Keys == cells.Keys
  {
    if ws != [] {
      ReplayKeys(cells, ws[..|ws| - 1]);
    }
  }

  // A cell never goes back: it is still the first one, or newer.
  lemma ReplayProgress<F, V>(cells: map<F, Cell<V>>, ws: seq<Write<F, V>>, f: F)
    requires f in cells
    ensures f in Replay(cells, ws)
    ensures Replay(cells, ws)[f] == cells[f] || Newer(Replay(cells, ws)[f].stamp, cells[f].stamp)
  {
    ReplayWinner(cells, ws, f);
  }

  // ---------- Commands ----------

  // The writes of a list of commands.
  function Writes<C, F, V>(writeOf: C -> Write<F, V>, cs: seq<C>): seq<Write<F, V>> {
    if cs == [] then [] else Writes(writeOf, cs[..|cs| - 1]) + [writeOf(cs[|cs| - 1])]
  }

  ghost predicate SameMembers<C(!new)>(xs: seq<C>, ys: seq<C>) {
    forall c :: c in xs <==> c in ys
  }

  lemma {:induction false} WritesAt<C, F, V>(writeOf: C -> Write<F, V>, cs: seq<C>)
    ensures |Writes(writeOf, cs)| == |cs|
    ensures forall i :: 0 <= i < |cs| ==> Writes(writeOf, cs)[i] == writeOf(cs[i])
  {
    if cs != [] {
      WritesAt(writeOf, cs[..|cs| - 1]);
    }
  }

  lemma WritesIncluded<C, F, V>(writeOf: C -> Write<F, V>, xs: seq<C>, ys: seq<C>)
    requires forall c :: c in xs ==> c in ys
    ensures forall w :: w in Writes(writeOf, xs) ==> w in Writes(writeOf, ys)
  {
    WritesAt(writeOf, xs);
    WritesAt(writeOf, ys);
    forall w | w in Writes(writeOf, xs)
      ensures w in Writes(writeOf, ys)
    {
      var i :| 0 <= i < |xs| && Writes(writeOf, xs)[i] == w;
      assert xs[i] in ys;
      var j :| 0 <= j < |ys| && ys[j] == xs[i];
      assert Writes(writeOf, ys)[j] == w;
    }
  }

  /** The same for commands: those with the same members and distinct ids end in the same cells. */
  lemma CommandsConverge<C(!new), F(!new), V(!new)>(
      cells: map<F, Cell<V>>, writeOf: C -> Write<F, V>, xs: seq<C>, ys: seq<C>)
    requires SameMembers(xs, ys)
    requires forall c, d :: c in xs && d in xs && writeOf(c).id == writeOf(d).id ==> c == d
    ensures Replay(cells, Writes(writeOf, xs)) == Replay(cells, Writes(writeOf, ys))
  {
    WritesAt(writeOf, xs);
    WritesIncluded(writeOf, xs, ys);
    WritesIncluded(writeOf, ys, xs);
    var ws := Writes(writeOf, xs);
    forall i, j | 0 <= i < |ws| && 0 <= j < |ws| && ws[i].id == ws[j].id
      ensures ws[i] == ws[j]
    {
      assert xs[i] in xs && xs[j] in xs;
    }
    ReplayConverges(cells, ws, Writes(writeOf, ys));
  }

  // ---------- Runs ----------

  // The state after a list of commands.
  function Run<S, C>(next: (S, C) -> S, s: S, cs: seq<C>): S {
    if cs == [] then s else next(Run(next, s, cs[..|cs| - 1]), cs[|cs| - 1])
  }

  // Some cell takes the write.
  ghost predicate Advances<F(!new), V>(cells: map<F, Cell<V>>, w: Write<F, V>) {
    exists f :: f in cells && f in w.contents && Newer(w.Stamp(), cells[f].stamp)
  }

  // A state whose cells are advanced by commands one write at a time, and which stays as it is unless
  // some cell takes the write.
  ghost predicate StepsByWrite<S(!new), C(!new), F(!new), V>(
      good: S -> bool, cellsOf: S -> map<F, Cell<V>>, next: (S, C) -> S, writeOf: C -> Write<F, V>)
  {
    forall s, c {:trigger next(s, c)} :: good(s) ==>
      && good(next(s, c)) && cellsOf(next(s, c)) == Step(cellsOf(s), writeOf(c))
      && (next(s, c) == s || Advances(cellsOf(s), writeOf(c)))
  }

  lemma StepNothing<F, V>(cells: map<F, Cell<V>>, w: Write<F, V>)
    requires w.contents == map[]
    ensures Step(cells, w) == cells
  {
  }

  // Once a cell has taken a write, the cells are no longer the first ones.
  lemma AdvancedCells<F(!new), V>(first: map<F, Cell<V>>, ws: seq<Write<F, V>>, w: Write<F, V>)
    requires Advances(Replay(first, ws), w)
    ensures Step(Replay(first, ws), w) != first
  {
    var cells := Replay(first, ws);
    var f :| f in cells && f in w.contents && Newer(w.Stamp(), cells[f].stamp);
    ReplayKeys(first, ws);
    ReplayProgress(first, ws, f);
    if cells[f] != first[f] {
      NewerTransitive(w.Stamp(), cells[f].stamp, first[f].stamp);
    }
    NewerTotal(w.Stamp(), w.Stamp());
    assert Step(cells, w)[f].stamp == w.Stamp();
  }

  /** A run advances the cells by its writes, and ends with other cells or with the very state it began with. */
  lemma {:induction false} RunReplays<S(!new), C(!new), F(!new), V>(
      good: S -> bool, cellsOf: S -> map<F, Cell<V>>, next: (S, C) -> S, writeOf: C -> Write<F, V>, s: S, cs: seq<C>)
    requires StepsByWrite(good, cellsOf, next, writeOf) && good(s)
    ensures good(Run(next, s, cs))
    ensures cellsOf(Run(next, s, cs)) == Replay(cellsOf(s), Writes(writeOf, cs))
    ensures Run(next, s, cs) == s || cellsOf(Run(next, s, cs)) != cellsOf(s)
  {
    if cs != [] {
      hide Step, Advances;
      var earlier, c := cs[..|cs| - 1], cs[|cs| - 1];
      RunReplays(good, cellsOf, next, writeOf, s, earlier);
      var before := Run(next, s, earlier);
      var ws := Writes(writeOf, cs);
      assert ws[..|ws| - 1] == Writes(writeOf, earlier);
      if next(before, c) != before {
        AdvancedCells(cellsOf(s), Writes(writeOf, earlier), writeOf(c));
      }
    }
  }

  /** Runs converge: commands with the same members and distinct ids, in any order and with any repeats, end
      with the same cells, and either both runs end where they began or both end elsewhere. */
  lemma RunsConverge<S(!new), C(!new), F(!new), V(!new)>(
      good: S -> bool, cellsOf: S -> map<F, Cell<V>>, next: (S, C) -> S, writeOf: C -> Write<F, V>,
      s: S, xs: seq<C>, ys: seq<C>)
    requires StepsByWrite(good, cellsOf, next, writeOf) && good(s)
    requires SameMembers(xs, ys) && forall c, d :: c in xs && d in xs && writeOf(c).id == writeOf(d).id ==> c == d
    ensures good(Run(next, s, xs)) && good(Run(next, s, ys))
    ensures cellsOf(Run(next, s, xs)) == cellsOf(Run(next, s, ys))
    ensures Run(next, s, xs) == s <==> Run(next, s, ys) == s
  {
    hide StepsByWrite, SameMembers;
    RunReplays(good, cellsOf, next, writeOf, s, xs);
    RunReplays(good, cellsOf, next, writeOf, s, ys);
    CommandsConverge(cellsOf(s), writeOf, xs, ys);
  }
}
