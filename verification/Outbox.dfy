/** The durable outbox: numbered command queues, one for each user and organization. */
module Outbox {
  import opened Text
  import opened Wrappers
  import opened Lists

  datatype State = Pending | Failed

  datatype Command = Command(
    id: Utf16, userId: Utf16, organizationId: Utf16, createdAt: Utf16, sequence: Option<nat>, state: State)

  type Table = map<Utf16, Command>

  // The queue a command waits in.
  function QueueOf(c: Command): (Utf16, Utf16) {
    (c.userId, c.organizationId)
  }

  predicate InQueue(t: Table, queue: (Utf16, Utf16), id: Utf16) {
    id in t && QueueOf(t[id]) == queue
  }

  // ---------- Comparing ----------

  /** `compare` stands for the host's `localeCompare`. */
  function CompareCommands(compare: (Utf16, Utf16) -> int, left: Command, right: Command): int {
    if left.sequence.Some? && right.sequence.Some? then left.sequence.value - right.sequence.value
    else
      var byTime := compare(left.createdAt, right.createdAt);
      if byTime != 0 then byTime else compare(left.id, right.id)
  }

  // What a host sort by `compareOutboxCommands` leaves.
  ghost predicate Sorted(compare: (Utf16, Utf16) -> int, cs: seq<Command>) {
    forall i, j :: 0 <= i < j < |cs| ==> CompareCommands(compare, cs[i], cs[j]) <= 0
  }

  // ---------- One step ----------

  // The latest number in a queue, 0 when there is none.
  ghost predicate IsLatest(t: Table, queue: (Utf16, Utf16), latest: nat) {
    && (forall id :: InQueue(t, queue, id) && t[id].sequence.Some? ==> t[id].sequence.value <= latest)
    && (latest == 0 || exists id :: InQueue(t, queue, id) && t[id].sequence == Some(latest))
  }

  lemma LatestExists(t: Table, queue: (Utf16, Utf16), ids: set<Utf16>) returns (latest: nat)
    requires ids <= t.Keys
    ensures forall id :: id in ids && InQueue(t, queue, id) && t[id].sequence.Some? ==> t[id].sequence.value <= latest
    ensures latest == 0 || exists id :: id in ids && InQueue(t, queue, id) && t[id].sequence == Some(latest)
  {
    if ids == {} { return 0; }
    var id :| id in ids;
    latest := LatestExists(t, queue, ids - {id});
    if InQueue(t, queue, id) && t[id].sequence.Some? && t[id].sequence.value > latest {
      latest := t[id].sequence.value;
    }
  }

  ghost function Latest(t: Table, queue: (Utf16, Utf16)): (latest: nat)
    ensures IsLatest(t, queue, latest)
  {
    assert exists n: nat :: IsLatest(t, queue, n) by {
      var n := LatestExists(t, queue, t.Keys);
      assert IsLatest(t, queue, n);
    }
    var n: nat :| IsLatest(t, queue, n);
    n
  }

  /** The answer of the server to one command: rejected, or settled. */
  datatype Outcome = Outcome(id: Utf16, rejected: bool)

  datatype Action =
    | Append(command: Command)
    | Discard(userId: Utf16, organizationId: Utf16, id: Utf16)
    | Settle(outcomes: seq<Outcome>)

  ghost function Appended(t: Table, c: Command): Table {
    if c.id in t then t
    else t[c.id := c.(sequence := Some(Latest(t, QueueOf(c)) + 1))]
  }

  function Discarded(t: Table, userId: Utf16, organizationId: Utf16, id: Utf16): Table {
    if InQueue(t, (userId, organizationId), id) && t[id].state == Failed then t - {id} else t
  }

  function Settled(t: Table, outcomes: seq<Outcome>): Table {
    if outcomes == [] then t
    else
      var earlier, o := Settled(t, outcomes[..|outcomes| - 1]), outcomes[|outcomes| - 1];
      if !o.rejected then earlier - {o.id}
      else if o.id in earlier then earlier[o.id := earlier[o.id].(state := Failed)]
      else earlier
  }

  ghost function After(t: Table, a: Action): Table {
    match a
    case Append(command) => Appended(t, command)
    case Discard(userId, organizationId, id) => Discarded(t, userId, organizationId, id)
    case Settle(outcomes) => Settled(t, outcomes)
  }

  // ---------- Whole runs ----------

  // The ids still held after an action, in the order they were appended.
  ghost function LogAfter(t: Table, log: seq<Utf16>, a: Action): seq<Utf16> {
    var grown := if a.Append? && a.command.id !in t then log + [a.command.id] else log;
    Collect(id => KeepId(After(t, a), id), grown)
  }

  function KeepId(t: Table, id: Utf16): Option<Utf16> {
    if id in t then Some(id) else None
  }

  ghost function Run(t: Table, log: seq<Utf16>, actions: seq<Action>): (Table, seq<Utf16>) {
    if actions == [] then (t, log)
    else
      var (t', log') := Run(t, log, actions[..|actions| - 1]);
      var last := actions[|actions| - 1];
      (After(t', last), LogAfter(t', log', last))
  }

  // The log lists every held command once; within a queue the numbers rise along it.
  ghost predicate InOrder(t: Table, log: seq<Utf16>) {
    && (forall id :: id in t ==> t[id].id == id && t[id].sequence.Some?)
    && (forall id :: id in log <==> id in t)
    && (forall i, j :: 0 <= i < j < |log| ==> log[i] != log[j])
    && (forall i, j :: 0 <= i < j < |log| && QueueOf(t[log[i]]) == QueueOf(t[log[j]]) ==>
          t[log[i]].sequence.value < t[log[j]].sequence.value)
  }

  lemma {:induction false} SettledKeeps(t: Table, outcomes: seq<Outcome>)
    ensures forall id :: id in Settled(t, outcomes) ==>
      id in t && Settled(t, outcomes)[id] == t[id].(state := Settled(t, outcomes)[id].state)
  {
    if outcomes != [] { SettledKeeps(t, outcomes[..|outcomes| - 1]); }
  }

  // Where the kept ids stood in the log.
  lemma KeptPositions(t: Table, log: seq<Utf16>) returns (at: seq<nat>)
    ensures |at| == |Collect(id => KeepId(t, id), log)|
    ensures forall k :: 0 <= k < |at| ==>
      at[k] < |log| && Collect(id => KeepId(t, id), log)[k] == log[at[k]] && log[at[k]] in t
    ensures forall k, m :: 0 <= k < m < |at| ==> at[k] < at[m]
    ensures forall i :: 0 <= i < |log| && log[i] in t ==> i in at
  {
    at := CollectedAll(id => KeepId(t, id), log);
  }

  // Dropping ids that are gone, and rows whose numbers stand, keeps the order.
  lemma KeptInOrder(t: Table, log: seq<Utf16>, t': Table)
    requires InOrder(t, log)
    requires forall id :: id in t' ==> id in t && t'[id] == t[id].(state := t'[id].state)
    ensures InOrder(t', Collect(id => KeepId(t', id), log))
  {
    hide Collect;
    var at := KeptPositions(t', log);
    var kept := Collect(id => KeepId(t', id), log);
    forall id
      ensures id in kept <==> id in t'
    {
      if id in kept {
        var k :| 0 <= k < |kept| && kept[k] == id;
        assert log[at[k]] in t';
      }
      if id in t' {
        assert id in log;
        var i :| 0 <= i < |log| && log[i] == id;
        var k :| 0 <= k < |at| && at[k] == i;
        assert kept[k] == id;
      }
    }
    forall i, j | 0 <= i < j < |kept|
      ensures kept[i] != kept[j]
      ensures QueueOf(t'[kept[i]]) == QueueOf(t'[kept[j]]) ==> t'[kept[i]].sequence.value < t'[kept[j]].sequence.value
    {
      assert kept[i] == log[at[i]] && kept[j] == log[at[j]] && at[i] < at[j];
    }
  }

  lemma AppendInOrder(t: Table, log: seq<Utf16>, c: Command)
    requires InOrder(t, log) && c.id !in t
    ensures InOrder(Appended(t, c), log + [c.id])
  {
    var t', log' := Appended(t, c), log + [c.id];
    forall i, j | 0 <= i < j < |log'| && QueueOf(t'[log'[i]]) == QueueOf(t'[log'[j]])
      ensures t'[log'[i]].sequence.value < t'[log'[j]].sequence.value
    {
      assert log[i] in t;
      if j == |log| {
        assert InQueue(t, QueueOf(c), log[i]);
      } else {
        assert log[j] in t;
      }
    }
  }

  lemma StepInOrder(t: Table, log: seq<Utf16>, a: Action)
    requires InOrder(t, log)
    ensures InOrder(After(t, a), LogAfter(t, log, a))
  {
    hide InOrder, Appended, Collect;
    match a {
      case Append(command) =>
        if command.id in t {
          AppendKnown(t, command);
          KeptInOrder(t, log, t);
        } else {
          AppendInOrder(t, log, command);
          KeptInOrder(Appended(t, command), log + [command.id], Appended(t, command));
        }
      case Discard(userId, organizationId, id) => KeptInOrder(t, log, Discarded(t, userId, organizationId, id));
      case Settle(outcomes) =>
        SettledKeeps(t, outcomes);
        KeptInOrder(t, log, Settled(t, outcomes));
    }
  }

  lemma AppendKnown(t: Table, c: Command)
    ensures c.id in t ==> Appended(t, c) == t
  {
  }

  /** Any run of appends, discards and settled pushes keeps every queue numbered in append order. */
  lemma {:induction false} RunInOrder(t: Table, log: seq<Utf16>, actions: seq<Action>)
    requires InOrder(t, log)
    ensures InOrder(Run(t, log, actions).0, Run(t, log, actions).1)
  {
    hide InOrder, After, LogAfter;
    if actions != [] {
      RunInOrder(t, log, actions[..|actions| - 1]);
      var (t', log') := Run(t, log, actions[..|actions| - 1]);
      StepInOrder(t', log', actions[|actions| - 1]);
    }
  }

  // ---------- Sorting gives the append order ----------

  function InQueueId(t: Table, queue: (Utf16, Utf16), id: Utf16): Option<Command> {
    if InQueue(t, queue, id) then Some(t[id]) else None
  }

  // The commands of a queue in append order.
  function QueueInOrder(t: Table, log: seq<Utf16>, queue: (Utf16, Utf16)): seq<Command> {
    Collect(id => InQueueId(t, queue, id), log)
  }

  ghost predicate Rising(cs: seq<Command>) {
    && (forall i :: 0 <= i < |cs| ==> cs[i].sequence.Some?)
    && (forall i, j :: 0 <= i < j < |cs| ==> cs[i].sequence.value < cs[j].sequence.value)
  }

  lemma {:induction false} QueueRises(t: Table, log: seq<Utf16>, queue: (Utf16, Utf16))
    requires forall id :: id in t ==> t[id].sequence.Some?
    requires forall i, j ::
      0 <= i < j < |log| && log[i] in t && log[j] in t && QueueOf(t[log[i]]) == QueueOf(t[log[j]]) ==>
      t[log[i]].sequence.value < t[log[j]].sequence.value
    ensures Rising(QueueInOrder(t, log, queue))
  {
    if log != [] {
      var earlier, last := log[..|log| - 1], log[|log| - 1];
      QueueRises(t, earlier, queue);
      if InQueue(t, queue, last) {
        forall k | 0 <= k < |QueueInOrder(t, earlier, queue)|
          ensures QueueInOrder(t, earlier, queue)[k].sequence.value < t[last].sequence.value
        {
          var i := CollectedFrom(id => InQueueId(t, queue, id), earlier, k);
          assert log[i] == earlier[i];
        }
      }
    }
  }

  // A rising arrangement is the only sorted one.
  lemma {:induction false} SortedUnique(compare: (Utf16, Utf16) -> int, a: seq<Command>, b: seq<Command>)
    requires Sorted(compare, a) && Rising(b) && Permuted(a, b)
    ensures a == b
  {
    if a == [] {
      assert |multiset(b)| == 0;
    } else {
      var i, rest := TakeOut(a, b);
      var last := |b| - 1;
      PermutedMembers(a, b, b[last]);
      LargestIsLast(compare, a, b, i);
      assert rest == b[..last];
      SortedUnique(compare, a[..|a| - 1], b[..last]);
      assert a == a[..|a| - 1] + [a[|a| - 1]];
    }
  }

  // The last of a sorted arrangement is the last of a rising one.
  lemma LargestIsLast(compare: (Utf16, Utf16) -> int, a: seq<Command>, b: seq<Command>, i: nat)
    requires Sorted(compare, a) && Rising(b) && a != [] && i < |b| && b[i] == a[|a| - 1] && b[|b| - 1] in a
    ensures i == |b| - 1
  {
  }

  /** Whatever arrangement of a queue sorts by `compareOutboxCommands`, it is the append order. */
  lemma SortIsAppendOrder(compare: (Utf16, Utf16) -> int, t: Table, log: seq<Utf16>, queue: (Utf16, Utf16),
        sorted: seq<Command>)
    requires InOrder(t, log)
    requires Permuted(sorted, QueueInOrder(t, log, queue))
    ensures Sorted(compare, sorted) <==> sorted == QueueInOrder(t, log, queue)
  {
    hide QueueInOrder;
    QueueRises(t, log, queue);
    if Sorted(compare, sorted) {
      SortedUnique(compare, sorted, QueueInOrder(t, log, queue));
    }
  }

  /** Numbers may be reused: once the newest command of a queue is gone, the next one gets its number
      exactly when that was the first number or the one before it is still held in the queue. */
  lemma NumberReused(t: Table, log: seq<Utf16>, newest: Command, next: Command)
    requires InOrder(t, log) && newest.id in t && t[newest.id] == newest
    requires newest.sequence.Some? && 0 < newest.sequence.value && newest.sequence.value == Latest(t, QueueOf(newest))
    requires next.id !in t && QueueOf(next) == QueueOf(newest)
    ensures Appended(t - {newest.id}, next)[next.id].sequence == newest.sequence <==>
      || newest.sequence.value == 1
      || exists id :: InQueue(t, QueueOf(newest), id) && t[id].sequence == Some(newest.sequence.value - 1)
  {
    var t' := t - {newest.id};
    var n := Latest(t', QueueOf(newest));
    forall id | InQueue(t', QueueOf(newest), id)
      ensures t'[id].sequence.value < newest.sequence.value
    {
      assert InQueue(t, QueueOf(newest), id);
      var i :| 0 <= i < |log| && log[i] == id;
      var j :| 0 <= j < |log| && log[j] == newest.id;
    }
    if newest.sequence.value != 1 {
      if id :| InQueue(t, QueueOf(newest), id) && t[id].sequence == Some(newest.sequence.value - 1) {
        assert InQueue(t', QueueOf(newest), id);
      }
      if n == newest.sequence.value - 1 {
        var id :| InQueue(t', QueueOf(newest), id) && t'[id].sequence == Some(n);
        assert InQueue(t, QueueOf(newest), id);
      }
    }
  }
}
