/** What the outbox holds after each operation, command by command. */
module OutboxRules {
  import opened Text
  import opened Wrappers
  import opened Outbox
  import opened OutboxStore

  ghost predicate Owned(t: Table, userId: Utf16, organizationId: Utf16, id: Utf16) {
    id in t && t[id].userId == userId && t[id].organizationId == organizationId
  }

  ghost predicate Answered(outcomes: seq<Outcome>, id: Utf16, rejected: bool) {
    exists i :: 0 <= i < |outcomes| && outcomes[i] == Outcome(id, rejected)
  }

  lemma AnsweredStep(outcomes: seq<Outcome>, id: Utf16, rejected: bool)
    requires outcomes != []
    ensures Answered(outcomes, id, rejected) <==>
      || Answered(outcomes[..|outcomes| - 1], id, rejected)
      || outcomes[|outcomes| - 1] == Outcome(id, rejected)
  {
    var earlier := outcomes[..|outcomes| - 1];
    if Answered(earlier, id, rejected) {
      var i :| 0 <= i < |earlier| && earlier[i] == Outcome(id, rejected);
      assert outcomes[i] == earlier[i];
    }
    if Answered(outcomes, id, rejected) {
      var i :| 0 <= i < |outcomes| && outcomes[i] == Outcome(id, rejected);
      assert i < |earlier| ==> earlier[i] == outcomes[i];
    }
  }

  lemma NeverAnswered(id: Utf16)
    ensures !Answered([], id, false) && !Answered([], id, true)
  {
  }

  /** After a push exactly the commands that no answer settled are held: the rejected ones as failed, and the
      others as they were. */
  lemma {:induction false} SettledIs(t: Table, outcomes: seq<Outcome>, id: Utf16)
    ensures Lookup(Settled(t, outcomes), id) ==
      if id !in t || Answered(outcomes, id, false) then None
      else if Answered(outcomes, id, true) then Some(t[id].(state := Failed))
      else Some(t[id])
  {
    hide Answered;
    if outcomes == [] {
      NeverAnswered(id);
    } else {
      SettledIs(t, outcomes[..|outcomes| - 1], id);
      AnsweredStep(outcomes, id, false);
      AnsweredStep(outcomes, id, true);
    }
  }

  // No row of the user and organization has a number above this one, and one has it unless it is 0.
  ghost predicate Largest(t: Table, userId: Utf16, organizationId: Utf16, n: nat) {
    && (forall id :: Owned(t, userId, organizationId, id) && t[id].sequence.Some? ==> t[id].sequence.value <= n)
    && (n == 0 || exists id :: Owned(t, userId, organizationId, id) && t[id].sequence == Some(n))
  }

  /** An added command keeps what it holds and gets the number after the largest of its user and
      organization; no other row changes. */
  lemma AppendedIs(t: Table, c: Command, n: nat)
    requires Largest(t, c.userId, c.organizationId, n)
    ensures Appended(t, c) == if c.id in t then t else t[c.id := c.(sequence := Some(n + 1))]
  {
    assert forall id :: Owned(t, c.userId, c.organizationId, id) <==> InQueue(t, QueueOf(c), id);
    LatestUnique(t, QueueOf(c), n);
  }

  /** Only a failed command of the same user and organization is discarded, and nothing else changes. */
  lemma DiscardedIs(t: Table, userId: Utf16, organizationId: Utf16, id: Utf16, other: Utf16)
    ensures Lookup(Discarded(t, userId, organizationId, id), other) ==
      if other == id && Owned(t, userId, organizationId, id) && t[id].state == Failed then None else Lookup(t, other)
  {
  }

  /** Two numbered commands go by their numbers, any others by time and then by id. */
  lemma ComparedIs(compare: (Utf16, Utf16) -> int, left: Command, right: Command)
    ensures var byTime, byId := compare(left.createdAt, right.createdAt), compare(left.id, right.id);
      CompareCommands(compare, left, right) <= 0 <==>
        if left.sequence.Some? && right.sequence.Some? then left.sequence.value <= right.sequence.value
        else byTime < 0 || (byTime == 0 && byId <= 0)
    ensures var byTime, byId := compare(left.createdAt, right.createdAt), compare(left.id, right.id);
      CompareCommands(compare, left, right) == 0 <==>
        if left.sequence.Some? && right.sequence.Some? then left.sequence.value == right.sequence.value
        else byTime == 0 && byId == 0
  {
  }

  // The rows up to the i-th whose user, a colon and organization make the same text as its own.
  ghost function CountedWith(order: seq<Command>, i: nat): set<nat>
    requires i < |order|
  {
    set k: nat | k <= i
      && order[k].userId + AsciiText(":") + order[k].organizationId ==
         order[i].userId + AsciiText(":") + order[i].organizationId
  }

  ghost function Matching(order: seq<Command>, n: nat, key: Utf16): set<nat>
    requires n <= |order|
  {
    set k: nat | k < n && order[k].userId + AsciiText(":") + order[k].organizationId == key
  }

  lemma NoneMatch(order: seq<Command>, key: Utf16)
    ensures CountKey(order[..0], key) == 0 && Matching(order, 0, key) == {}
  {
  }

  lemma MatchingStep(order: seq<Command>, n: nat, key: Utf16)
    requires n < |order|
    ensures |Matching(order, n + 1, key)| == |Matching(order, n, key)| + if QueueKey(order[n]) == key then 1 else 0
  {
    assert QueueKey(order[n]) == order[n].userId + AsciiText(":") + order[n].organizationId;
    assert Matching(order, n + 1, key) == Matching(order, n, key) + if QueueKey(order[n]) == key then {n} else {};
  }

  lemma {:induction false} CountsAre(order: seq<Command>, n: nat, key: Utf16)
    requires n <= |order|
    ensures CountKey(order[..n], key) == |Matching(order, n, key)|
  {
    hide QueueKey, CountKey, Matching;
    if n > 0 {
      CountsAre(order, n - 1, key);
      CountStep(order, n - 1);
      MatchingStep(order, n - 1, key);
    } else {
      NoneMatch(order, key);
    }
  }

  lemma SameRows(order: seq<Command>, i: nat)
    requires i < |order|
    ensures CountedWith(order, i) == Matching(order, i + 1, QueueKey(order[i]))
  {
    assert QueueKey(order[i]) == order[i].userId + AsciiText(":") + order[i].organizationId;
  }

  /** The upgrade numbers a row by how many rows so far share its counting text. */
  lemma UpgradeIs(order: seq<Command>, t': Table, i: nat)
    requires IsUpgrade(order, t') && i < |order|
    ensures order[i].id in t' && t'[order[i].id] == order[i].(sequence := Some(|CountedWith(order, i)|))
    ensures forall id :: id in t' ==> exists k :: 0 <= k < |order| && order[k].id == id
  {
    hide CountKey, Matching, CountedWith, QueueKey;
    var key := QueueKey(order[i]);
    CountsAre(order, i + 1, key);
    SameRows(order, i);
    assert t'[order[i].id] == Numbered(order, i);
    forall id | id in t'
      ensures exists k :: 0 <= k < |order| && order[k].id == id
    {
      assert id in IdsOf(order);
    }
  }
}
