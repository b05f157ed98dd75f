/** The outbox table: the version 7 upgrade and the operations of later versions. */
module OutboxStore {
  import opened Text
  import opened Wrappers
  import opened Lists
  import opened Outbox

  // ---------- The numbers the upgrade gives ----------

  // The text under which the upgrade counts a queue.
  function QueueKey(c: Command): Utf16 {
    c.userId + [Ascii(':')] + c.organizationId
  }

  function CountKey(cs: seq<Command>, key: Utf16): nat {
    if cs == [] then 0
    else CountKey(cs[..|cs| - 1], key) + if QueueKey(cs[|cs| - 1]) == key then 1 else 0
  }

  function CountQueue(cs: seq<Command>, queue: (Utf16, Utf16)): nat {
    if cs == [] then 0
    else CountQueue(cs[..|cs| - 1], queue) + if QueueOf(cs[|cs| - 1]) == queue then 1 else 0
  }

  function Numbered(order: seq<Command>, i: nat): Command
    requires i < |order|
  {
    order[i].(sequence := Some(CountKey(order[..i + 1], QueueKey(order[i]))))
  }

  function IdsOf(order: seq<Command>): seq<Utf16> {
    seq(|order|, i requires 0 <= i < |order| => order[i].id)
  }

  // `order` lists each row of the table once.
  ghost predicate Arranges(order: seq<Command>, t: Table) {
    && (forall i :: 0 <= i < |order| ==> order[i].id in t && t[order[i].id] == order[i])
    && (forall i, j :: 0 <= i < j < |order| ==> order[i].id != order[j].id)
    && (forall id :: id in t ==> id in IdsOf(order))
  }

  ghost predicate IsUpgrade(order: seq<Command>, t': Table) {
    && (forall id :: id in t' <==> id in IdsOf(order))
    && (forall i :: 0 <= i < |order| ==> order[i].id in t' && t'[order[i].id] == Numbered(order, i))
  }

  lemma CountStep(order: seq<Command>, i: nat)
    requires i < |order|
    ensures forall key ::
      CountKey(order[..i + 1], key) == CountKey(order[..i], key) + if QueueKey(order[i]) == key then 1 else 0
  {
    assert order[..i + 1][..i] == order[..i];
  }

  lemma {:induction false} CountGrows(order: seq<Command>, i: nat, j: nat, key: Utf16)
    requires i < j < |order| && QueueKey(order[j]) == key
    ensures CountKey(order[..i + 1], key) < CountKey(order[..j + 1], key)
    decreases j
  {
    assert order[..j + 1][..j] == order[..j];
    if i < j - 1 {
      CountMonotone(order, i, j - 1, key);
    }
  }

  lemma {:induction false} CountMonotone(order: seq<Command>, i: nat, j: nat, key: Utf16)
    requires i <= j < |order|
    ensures CountKey(order[..i + 1], key) <= CountKey(order[..j + 1], key)
    decreases j
  {
    if i < j {
      CountMonotone(order, i, j - 1, key);
      assert order[..j + 1][..j] == order[..j];
    }
  }

  /** After the upgrade the numbers of every queue rise along the order the rows were taken in, so by
      `SortIsAppendOrder` that order is the one later sorting gives. */
  lemma UpgradeInOrder(order: seq<Command>, t: Table, t': Table)
    requires Arranges(order, t) && IsUpgrade(order, t')
    ensures InOrder(t', IdsOf(order))
  {
    hide Numbered, QueueOf, QueueKey;
    forall i | 0 <= i < |order|
      ensures t'[IdsOf(order)[i]] == Numbered(order, i)
    {
      assert order[i].id in t';
    }
    forall id | id in t'
      ensures t'[id].id == id && t'[id].sequence.Some?
    {
      var i :| 0 <= i < |order| && IdsOf(order)[i] == id;
      NumberedKeeps(order, i);
    }
    forall i, j | 0 <= i < j < |order| && QueueOf(t'[order[i].id]) == QueueOf(t'[order[j].id])
      ensures t'[order[i].id].sequence.value < t'[order[j].id].sequence.value
    {
      NumbersRise(order, i, j);
    }
  }

  lemma NumberedKeeps(order: seq<Command>, i: nat)
    requires i < |order|
    ensures Numbered(order, i).sequence.Some? && Numbered(order, i).id == order[i].id
    ensures QueueOf(Numbered(order, i)) == QueueOf(order[i])
  {
  }

  lemma NumberedIs(order: seq<Command>, i: nat)
    requires i < |order|
    ensures Numbered(order, i) == order[i].(sequence := Some(CountKey(order[..i], QueueKey(order[i])) + 1))
  {
    CountStep(order, i);
  }

  lemma NumbersRise(order: seq<Command>, i: nat, j: nat)
    requires i < j < |order| && QueueOf(Numbered(order, i)) == QueueOf(Numbered(order, j))
    ensures Numbered(order, i).sequence.value < Numbered(order, j).sequence.value
  {
    hide CountKey, QueueKey;
    SameKey(order[i], order[j]);
    CountGrows(order, i, j, QueueKey(order[j]));
  }

  lemma SameKey(c: Command, d: Command)
    requires QueueOf(c) == QueueOf(d)
    ensures QueueKey(c) == QueueKey(d)
  {
  }

  // The order in which commands without a number are sorted.
  ghost predicate LegacySorted(compare: (Utf16, Utf16) -> int, order: seq<Command>) {
    && (forall i :: 0 <= i < |order| ==> order[i].sequence.None?)
    && Sorted(compare, order)
  }

  function SameQueue(queue: (Utf16, Utf16), c: Command): Option<Command> {
    if QueueOf(c) == queue then Some(c) else None
  }

  // A queue as an arrangement of the whole table lists it.
  function QueueOfOrder(order: seq<Command>, queue: (Utf16, Utf16)): seq<Command> {
    Collect(c => SameQueue(queue, c), order)
  }

  lemma QueueStep(t: Table, log: seq<Utf16>, queue: (Utf16, Utf16))
    requires log != []
    ensures QueueInOrder(t, log, queue) == QueueInOrder(t, log[..|log| - 1], queue)
      + if InQueue(t, queue, log[|log| - 1]) then [t[log[|log| - 1]]] else []
  {
  }

  // The same commands, whatever their numbers.
  ghost predicate SameIds(a: seq<Command>, b: seq<Command>) {
    |a| == |b| && forall k :: 0 <= k < |a| ==> a[k].id == b[k].id
  }

  lemma SameIdsSnoc(a: seq<Command>, b: seq<Command>, c: Command, d: Command)
    requires SameIds(a, b) && c.id == d.id
    ensures SameIds(a + [c], b + [d])
  {
  }

  lemma OrderStep(order: seq<Command>, queue: (Utf16, Utf16))
    requires order != []
    ensures QueueOfOrder(order, queue) == QueueOfOrder(order[..|order| - 1], queue)
      + if QueueOf(order[|order| - 1]) == queue then [order[|order| - 1]] else []
  {
  }

  // The table holds each of these commands, numbered or not.
  ghost predicate HoldsAll(cs: seq<Command>, t': Table) {
    forall i :: 0 <= i < |cs| ==>
      cs[i].id in t' && t'[cs[i].id].id == cs[i].id && QueueOf(t'[cs[i].id]) == QueueOf(cs[i])
  }

  lemma UpgradeHoldsAll(order: seq<Command>, t': Table)
    requires IsUpgrade(order, t')
    ensures HoldsAll(order, t')
  {
    hide Numbered;
    forall i | 0 <= i < |order|
      ensures order[i].id in t' && t'[order[i].id] == Numbered(order, i)
      ensures Numbered(order, i).id == order[i].id && QueueOf(Numbered(order, i)) == QueueOf(order[i])
    {
      NumberedKeeps(order, i);
    }
  }

  lemma IdsStep(cs: seq<Command>)
    requires cs != []
    ensures |IdsOf(cs)| == |cs| && IdsOf(cs)[|cs| - 1] == cs[|cs| - 1].id
    ensures IdsOf(cs)[..|cs| - 1] == IdsOf(cs[..|cs| - 1])
  {
  }

  lemma {:induction false} QueueIds(cs: seq<Command>, t': Table, queue: (Utf16, Utf16))
    requires HoldsAll(cs, t')
    ensures SameIds(QueueInOrder(t', IdsOf(cs), queue), QueueOfOrder(cs, queue))
  {
    if cs != [] {
      var earlier, c := cs[..|cs| - 1], cs[|cs| - 1];
      assert HoldsAll(earlier, t') && c.id in t' && t'[c.id].id == c.id && QueueOf(t'[c.id]) == QueueOf(c);
      hide IdsOf, QueueInOrder, QueueOfOrder, SameIds, HoldsAll;
      QueueIds(earlier, t', queue);
      IdsStep(cs);
      QueueStep(t', IdsOf(cs), queue);
      OrderStep(cs, queue);
      if QueueOf(c) == queue {
        SameIdsSnoc(QueueInOrder(t', IdsOf(earlier), queue), QueueOfOrder(earlier, queue), t'[c.id], c);
      }
    }
  }

  lemma {:induction false} QueueStaysSorted(compare: (Utf16, Utf16) -> int, order: seq<Command>, queue: (Utf16, Utf16))
    requires Sorted(compare, order)
    ensures Sorted(compare, QueueOfOrder(order, queue))
  {
    if order != [] {
      var earlier, last := order[..|order| - 1], order[|order| - 1];
      QueueStaysSorted(compare, earlier, queue);
      forall k | 0 <= k < |QueueOfOrder(earlier, queue)|
        ensures CompareCommands(compare, QueueOfOrder(earlier, queue)[k], last) <= 0
      {
        var i := CollectedFrom(c => SameQueue(queue, c), earlier, k);
        assert earlier[i] == order[i];
      }
    }
  }

  /** The upgrade leaves the order of a queue as it was: the arrangement that sorted it before is,
      by id, the only one that sorts it afterwards. */
  lemma UpgradeKeepsOrder(
      compare: (Utf16, Utf16) -> int, order: seq<Command>, t: Table, t': Table, queue: (Utf16, Utf16),
      sorted: seq<Command>)
    requires Arranges(order, t) && IsUpgrade(order, t') && LegacySorted(compare, order)
    requires Permuted(sorted, QueueInOrder(t', IdsOf(order), queue)) && Sorted(compare, sorted)
    ensures Sorted(compare, QueueOfOrder(order, queue))
    ensures SameIds(sorted, QueueOfOrder(order, queue))
  {
    hide QueueInOrder, QueueOfOrder, IsUpgrade, IdsOf, Arranges;
    QueueStaysSorted(compare, order, queue);
    UpgradeInOrder(order, t, t');
    SortIsAppendOrder(compare, t', IdsOf(order), queue, sorted);
    UpgradeHoldsAll(order, t');
    QueueIds(order, t', queue);
  }

  // ---------- 1 to n ----------

  // Every queue is numbered 1, 2, 3, ... along the order.
  ghost predicate NumberedFromOne(order: seq<Command>) {
    forall i :: 0 <= i < |order| ==> Numbered(order, i).sequence == Some(CountQueue(order[..i + 1], QueueOf(order[i])))
  }

  // No two queues are counted under one text.
  ghost predicate KeysApart(order: seq<Command>) {
    forall i, j :: 0 <= i < j < |order| && QueueKey(order[i]) == QueueKey(order[j]) ==>
      QueueOf(order[i]) == QueueOf(order[j])
  }

  lemma {:induction false} CountsCompare(cs: seq<Command>, c: Command)
    ensures CountQueue(cs, QueueOf(c)) <= CountKey(cs, QueueKey(c))
    ensures CountQueue(cs, QueueOf(c)) == CountKey(cs, QueueKey(c)) <==>
      forall i :: 0 <= i < |cs| && QueueKey(cs[i]) == QueueKey(c) ==> QueueOf(cs[i]) == QueueOf(c)
  {
    if cs != [] {
      var earlier := cs[..|cs| - 1];
      CountsCompare(earlier, c);
      assert forall i :: 0 <= i < |earlier| ==> earlier[i] == cs[i];
    }
  }

  /** The numbers of every queue run 1 to n exactly when no two queues share their counting text. */
  lemma NumberingExact(order: seq<Command>)
    ensures NumberedFromOne(order) <==> KeysApart(order)
  {
    hide CountQueue, CountKey, QueueKey;
    forall i | 0 <= i < |order|
      ensures Numbered(order, i).sequence == Some(CountQueue(order[..i + 1], QueueOf(order[i]))) <==>
        forall k :: 0 <= k < i && QueueKey(order[k]) == QueueKey(order[i]) ==> QueueOf(order[k]) == QueueOf(order[i])
    {
      CountsCompare(order[..i + 1], order[i]);
      assert forall k :: 0 <= k <= i ==> order[..i + 1][k] == order[k];
    }
  }

  lemma ColonInside(u: Utf16, o: Utf16, v: Utf16, p: Utf16)
    requires |u| < |v| && u + [Ascii(':')] + o == v + [Ascii(':')] + p
    ensures Ascii(':') in v
  {
    assert (v + [Ascii(':')] + p)[|u|] == v[|u|];
    assert (u + [Ascii(':')] + o)[|u|] == Ascii(':');
  }

  /** User ids without a colon keep the texts apart. */
  lemma PlainUsersApart(order: seq<Command>)
    requires forall i :: 0 <= i < |order| ==> Ascii(':') !in order[i].userId
    ensures KeysApart(order) && NumberedFromOne(order)
  {
    forall i, j | 0 <= i < j < |order| && QueueKey(order[i]) == QueueKey(order[j])
      ensures QueueOf(order[i]) == QueueOf(order[j])
    {
      var a, b := order[i], order[j];
      if |a.userId| < |b.userId| {
        ColonInside(a.userId, a.organizationId, b.userId, b.organizationId);
        assert false;
      } else if |b.userId| < |a.userId| {
        ColonInside(b.userId, b.organizationId, a.userId, a.organizationId);
        assert false;
      } else {
        assert a.userId == QueueKey(a)[..|a.userId|] == QueueKey(b)[..|b.userId|] == b.userId;
        assert a.organizationId == QueueKey(a)[|a.userId| + 1..] == QueueKey(b)[|b.userId| + 1..] == b.organizationId;
      }
    }
    NumberingExact(order);
  }

  /** Two users whose texts coincide are counted together, and the second queue starts at 2. */
  lemma SharedCount(time: Utf16, first: Utf16, second: Utf16)
    ensures var colon := [Ascii(':')];
      var order := [Command(first, colon, [], time, None, Pending), Command(second, [], colon, time, None, Pending)];
      QueueOf(order[0]) != QueueOf(order[1]) && Numbered(order, 1).sequence == Some(2) && !NumberedFromOne(order)
  {
    var colon := [Ascii(':')];
    var order := [Command(first, colon, [], time, None, Pending), Command(second, [], colon, time, None, Pending)];
    assert QueueKey(order[0]) == [Ascii(':'), Ascii(':')] == QueueKey(order[1]);
    assert order[..2][..1] == [order[0]] && order[..2][..1][..0] == [];
    assert CountKey(order[..2][..1], QueueKey(order[1])) == 1;
    NumberingExact(order);
    assert !KeysApart(order);
  }

  // The first rows carry their new numbers, the others are as they were.
  ghost predicate UpTo(order: seq<Command>, t: Table, n: nat) {
    forall k :: 0 <= k < |order| ==>
      order[k].id in t && t[order[k].id] == if k < n then Numbered(order, k) else order[k]
  }

  // The map holds the last number of every text counted so far.
  ghost predicate Counted(sequences: map<Utf16, nat>, cs: seq<Command>) {
    forall key :: Lookup(sequences, key).GetOr(0) == CountKey(cs, key)
  }

  lemma NothingCounted(order: seq<Command>, t: Table)
    requires Arranges(order, t)
    ensures UpTo(order, t, 0) && Counted(map[], order[..0])
  {
  }

  lemma UpgradeStep(order: seq<Command>, t: Table, sequences: map<Utf16, nat>, i: nat)
    requires i < |order| && UpTo(order, t, i) && Counted(sequences, order[..i])
    requires forall j, k :: 0 <= j < k < |order| ==> order[j].id != order[k].id
    ensures var c := order[i];
      var sequence := Lookup(sequences, QueueKey(c)).GetOr(0) + 1;
      && c.id in t
      && Counted(sequences[QueueKey(c) := sequence], order[..i + 1])
      && UpTo(order, t[c.id := t[c.id].(sequence := Some(sequence))], i + 1)
  {
    hide CountKey, QueueKey, Numbered;
    CountStep(order, i);
    NumberedIs(order, i);
    var c := order[i];
    var t' := t[c.id := t[c.id].(sequence := Some(Lookup(sequences, QueueKey(c)).GetOr(0) + 1))];
    var sequences' := sequences[QueueKey(c) := Lookup(sequences, QueueKey(c)).GetOr(0) + 1];
    forall key
      ensures Lookup(sequences', key).GetOr(0) == CountKey(order[..i + 1], key)
    {
      assert Lookup(sequences, key).GetOr(0) == CountKey(order[..i], key);
    }
    forall k | 0 <= k < |order|
      ensures order[k].id in t' && t'[order[k].id] == if k < i + 1 then Numbered(order, k) else order[k]
    {
      if k != i { assert order[k].id != c.id; }
    }
  }

  lemma AllUpgraded(order: seq<Command>, t: Table, t': Table)
    requires Arranges(order, t) && t'.Keys == t.Keys && UpTo(order, t', |order|)
    ensures IsUpgrade(order, t')
  {
  }

  // ---------- The table ----------

  class LocalOutbox {
    var table: Table

    // Numbers the rows of an earlier version in the order the host sorted them.
    method Upgrade(order: seq<Command>)
      requires Arranges(order, table)
      modifies this
      ensures IsUpgrade(order, table)
    {
      hide CountKey, QueueKey, Numbered, IdsOf, UpTo, Counted;
      var sequences: map<Utf16, nat> := map[];
      NothingCounted(order, table);
      for i := 0 to |order|
        invariant table.Keys == old(table).Keys && UpTo(order, table, i) && Counted(sequences, order[..i])
      {
        var command := order[i];
        var sequence := Lookup(sequences, QueueKey(command)).GetOr(0) + 1;
        UpgradeStep(order, table, sequences, i);
        sequences := sequences[QueueKey(command) := sequence];
        table := table[command.id := table[command.id].(sequence := Some(sequence))];
      }
      AllUpgraded(order, old(table), table);
    }

    // Adds a command at the end of its queue; a known id fails the transaction.
    method Append(command: Command) returns (added: bool)
      modifies this
      ensures added <==> command.id !in old(table)
      ensures table == Appended(old(table), command)
    {
      var latest, rest := 0, table.Keys;
      while rest != {}
        invariant table == old(table) && rest <= table.Keys
        invariant forall id :: InQueue(table, QueueOf(command), id) && id !in rest && table[id].sequence.Some? ==>
          table[id].sequence.value <= latest
        invariant latest == 0 || exists id :: InQueue(table, QueueOf(command), id) && table[id].sequence == Some(latest)
        decreases rest
      {
        var id :| id in rest;
        rest := rest - {id};
        if InQueue(table, QueueOf(command), id) && table[id].sequence.Some? && latest < table[id].sequence.value {
          latest := table[id].sequence.value;
        }
      }
      LatestUnique(table, QueueOf(command), latest);
      added := command.id !in table;
      if added { table := table[command.id := command.(sequence := Some(latest + 1))]; }
    }

    method DiscardFailed(userId: Utf16, organizationId: Utf16, id: Utf16) returns (discarded: bool)
      modifies this
      ensures table == Discarded(old(table), userId, organizationId, id)
      ensures discarded <==> InQueue(old(table), (userId, organizationId), id) && old(table)[id].state == Failed
    {
      if id !in table || table[id].state != Failed || table[id].userId != userId
        || table[id].organizationId != organizationId {
        return false;
      }
      table := table - {id};
      return true;
    }

    // Applies the outcomes of one push.
    method Settle(outcomes: seq<Outcome>)
      modifies this
      ensures table == Settled(old(table), outcomes)
    {
      for i := 0 to |outcomes|
        invariant table == Settled(old(table), outcomes[..i])
      {
        assert outcomes[..i + 1][..i] == outcomes[..i];
        if outcomes[i].rejected {
          if outcomes[i].id in table { table := table[outcomes[i].id := table[outcomes[i].id].(state := Failed)]; }
        } else {
          table := table - {outcomes[i].id};
        }
      }
      assert outcomes[..|outcomes|] == outcomes;
    }
  }

  lemma LatestUnique(t: Table, queue: (Utf16, Utf16), n: nat)
    requires IsLatest(t, queue, n)
    ensures n == Latest(t, queue)
  {
  }
}
