/** The queue of receipt images over whole runs, and the loop that dispatches it. */
module ReceiptQueue {
  import opened Text
  import opened Wrappers
  import opened Digits
  import opened Replica
  import opened ReceiptUploads

  // ---------- Runs ----------

  /** The random ids of a new upload. */
  datatype FreshIds = FreshIds(id: Utf16, attachmentId: Utf16, createMutationId: Utf16, finalizeMutationId: Utf16)

  datatype Action =
    | QueueImage(userId: Utf16, organizationId: Utf16, receiptId: Utf16, blob: Blob, replaceAttachmentId: Option<Utf16>,
        ids: FreshIds, createdAt: Utf16)
    | DispatchPass(userId: Utf16, organizationId: Utf16, uploads: seq<Upload>)
    | Retry(id: Utf16)

  datatype DeviceState = DeviceState(table: Table, sent: nat, queued: seq<Upload>)

  function PendingIds(t: Table, userId: Utf16, organizationId: Utf16): set<Utf16> {
    set id | id in t && t[id].userId == userId && t[id].organizationId == organizationId && t[id].state == Pending
  }

  // The row a request to queue an image adds; `None` when it throws.
  function NewUpload(t: Table, a: Action): Option<Upload>
    requires a.QueueImage?
  {
    if !IsUuid(a.userId) || !IsUuid(a.organizationId) || !IsUuid(a.receiptId) || !ValidBlob(a.blob)
      || a.ids.id in t then None
    else Some(Upload(
      a.ids.id, a.userId, a.organizationId, a.ids.attachmentId, Some(a.receiptId),
      Some(NatText(|PendingIds(t, a.userId, a.organizationId)| + 1)),
      Some(a.ids.createMutationId), Some(a.ids.finalizeMutationId), a.replaceAttachmentId,
      false, a.blob, a.createdAt, Pending, None))
  }

  function Retried(t: Table, id: Utf16): Table {
    if id in t then t[id := t[id].(state := Pending, failureReason := None)] else t
  }

  ghost function After(host: Host, s: DeviceState, a: Action): DeviceState {
    match a
    case QueueImage(_, _, _, _, _, _, _) =>
      var u := NewUpload(s.table, a);
      if u.None? then s else DeviceState(s.table[u.value.id := u.value], s.sent, s.queued + [u.value])
    case DispatchPass(userId, organizationId, uploads) =>
      if PendingRows(s.table, userId, organizationId, uploads) then
        var p := PassOver(host, s.table, uploads, s.sent);
        DeviceState(p.table, p.next, s.queued)
      else s
    case Retry(id) => s.(table := Retried(s.table, id))
  }

  ghost function Run(host: Host, actions: seq<Action>): DeviceState {
    if actions == [] then DeviceState(map[], 0, [])
    else After(host, Run(host, actions[..|actions| - 1]), actions[|actions| - 1])
  }

  // The image is still stored, or a reply proved that the server holds it.
  ghost predicate Safe(host: Host, u: Upload, t: Table, sent: nat) {
    (u.id in t && SameImage(t[u.id], u)) || ConfirmedBetween(host, u, 0, sent)
  }

  ghost predicate AllSafe(host: Host, s: DeviceState) {
    && (forall i :: 0 <= i < |s.queued| ==> Safe(host, s.queued[i], s.table, s.sent))
    && (forall id :: id in s.table ==> s.table[id].id == id && s.table[id].state != Uploading)
  }

  lemma SameImageConfirms(host: Host, u: Upload, row: Upload, from: nat, to: nat)
    requires SameImage(row, u)
    ensures ConfirmedBetween(host, row, from, to) <==> ConfirmedBetween(host, u, from, to)
  {
  }

  lemma PassKeepsRow(host: Host, t: Table, uploads: seq<Upload>, sent: nat, settled: nat, id: Utf16)
    requires id in t && t[id].id == id && t[id].state != Uploading
    requires forall i :: 0 <= i < |uploads| ==> uploads[i].id in t && t[uploads[i].id] == uploads[i]
    requires Progress(host, t, uploads, sent, PassOver(host, t, uploads, sent), settled)
    ensures var p := PassOver(host, t, uploads, sent);
      && (id in p.table ==> SameImage(p.table[id], t[id]) && p.table[id].state != Uploading)
      && (id !in p.table ==> ConfirmedBetween(host, t[id], sent, p.next))
  {
    hide PassOver, ConfirmedBetween;
    var p := PassOver(host, t, uploads, sent);
    var touched := if p.thrown.Some? then settled + 1 else settled;
    if id in IdsOf(uploads, touched) {
      var i :| 0 <= i < touched && uploads[i].id == id;
      assert Lookup(p.table, uploads[i].id) == Lookup(p.table, id);
    } else {
      assert Lookup(p.table, id) == Lookup(t, id);
    }
  }

  lemma PassKeepsNothingNew(host: Host, t: Table, uploads: seq<Upload>, sent: nat, settled: nat, id: Utf16)
    requires forall i :: 0 <= i < |uploads| ==> uploads[i].id in t && t[uploads[i].id] == uploads[i]
    requires Progress(host, t, uploads, sent, PassOver(host, t, uploads, sent), settled)
    ensures id in PassOver(host, t, uploads, sent).table ==> id in t
  {
    hide PassOver;
    var p := PassOver(host, t, uploads, sent);
    var touched := if p.thrown.Some? then settled + 1 else settled;
    if id in IdsOf(uploads, touched) {
      var i :| 0 <= i < touched && uploads[i].id == id;
    } else {
      assert Lookup(p.table, id) == Lookup(t, id);
    }
  }

  lemma PassKeepsSafe(host: Host, s: DeviceState, userId: Utf16, organizationId: Utf16, uploads: seq<Upload>)
    requires AllSafe(host, s) && PendingRows(s.table, userId, organizationId, uploads)
    ensures var p := PassOver(host, s.table, uploads, s.sent); AllSafe(host, DeviceState(p.table, p.next, s.queued))
  {
    hide PassOver, Progress, SameImage, ConfirmedBetween;
    var p := PassOver(host, s.table, uploads, s.sent);
    var settled := PassSettles(host, s.table, uploads, s.sent);
    ProgressMoves(host, s.table, uploads, s.sent, settled);
    forall i | 0 <= i < |s.queued|
      ensures Safe(host, s.queued[i], p.table, p.next)
    {
      var u := s.queued[i];
      if u.id in s.table && SameImage(s.table[u.id], u) {
        PassKeepsRow(host, s.table, uploads, s.sent, settled, u.id);
        if u.id in p.table {
          SameImageChain(p.table[u.id], s.table[u.id], u);
        } else {
          SameImageConfirms(host, u, s.table[u.id], s.sent, p.next);
          LaterConfirmed(host, u, s.sent, p.next, 0, p.next);
        }
      } else {
        LaterConfirmed(host, u, 0, s.sent, 0, p.next);
      }
    }
    forall id | id in p.table
      ensures p.table[id].id == id && p.table[id].state != Uploading
    {
      PassKeepsNothingNew(host, s.table, uploads, s.sent, settled, id);
      PassKeepsRow(host, s.table, uploads, s.sent, settled, id);
      SameImageId(p.table[id], s.table[id]);
    }
  }

  lemma ProgressMoves(host: Host, t: Table, uploads: seq<Upload>, at: nat, settled: nat)
    requires Progress(host, t, uploads, at, PassOver(host, t, uploads, at), settled)
    ensures at <= PassOver(host, t, uploads, at).next
  {
  }

  lemma SameImageChain(a: Upload, b: Upload, c: Upload)
    requires SameImage(a, b) && SameImage(b, c)
    ensures SameImage(a, c)
  {
  }

  lemma SameImageId(a: Upload, b: Upload)
    requires SameImage(a, b)
    ensures a.id == b.id
  {
  }

  lemma LaterConfirmed(host: Host, u: Upload, from: nat, to: nat, from': nat, to': nat)
    requires ConfirmedBetween(host, u, from, to) && from' <= from && to <= to'
    ensures ConfirmedBetween(host, u, from', to')
  {
  }

  /** Over any run of queueing, dispatching with any replies and retrying, every queued image is
      still stored or was confirmed, and between actions no row is uploading. */
  lemma {:induction false} NoImageIsLost(host: Host, actions: seq<Action>)
    ensures AllSafe(host, Run(host, actions))
  {
    hide PassOver, ConfirmedBetween, PendingRows;
    if actions != [] {
      NoImageIsLost(host, actions[..|actions| - 1]);
      var s, a := Run(host, actions[..|actions| - 1]), actions[|actions| - 1];
      if a.DispatchPass? && PendingRows(s.table, a.userId, a.organizationId, a.uploads) {
        PassKeepsSafe(host, s, a.userId, a.organizationId, a.uploads);
      }
    }
  }

  // ---------- The device ----------

  class UploadQueue {
    const host: Host
    var pendingUploads: Table
    var sent: nat

    constructor (host: Host, pendingUploads: Table)
      ensures this.host == host && this.pendingUploads == pendingUploads && sent == 0
    {
      this.host := host;
      this.pendingUploads := pendingUploads;
      this.sent := 0;
    }

    method Fetch() returns (reply: Reply)
      modifies this`sent
      ensures reply == host.network(old(sent)) && sent == old(sent) + 1
    {
      reply := host.network(sent);
      sent := sent + 1;
    }

    method QueueReceiptAttachment(a: Action) returns (added: Option<Upload>)
      requires a.QueueImage?
      modifies this`pendingUploads
      ensures added == NewUpload(old(pendingUploads), a)
      ensures pendingUploads ==
        if added.Some? then old(pendingUploads)[added.value.id := added.value] else old(pendingUploads)
    {
      added := NewUpload(pendingUploads, a);
      if added.Some? { pendingUploads := pendingUploads[added.value.id := added.value]; }
    }

    method RetryReceiptUpload(id: Utf16)
      modifies this`pendingUploads
      ensures pendingUploads == Retried(old(pendingUploads), id)
    {
      if id in pendingUploads {
        pendingUploads := pendingUploads[id := pendingUploads[id].(state := Pending, failureReason := None)];
      }
    }

    // Deletes the row only when the server proves it holds these bytes.
    method ReconcileReceiptUpload(u: Upload) returns (outcome: Reconciliation)
      requires u.id in pendingUploads
      modifies this
      ensures sent == old(sent) + 1 && outcome == Reconcile(host, u, host.network(old(sent)))
      ensures pendingUploads ==
        match outcome
        case Synchronized => old(pendingUploads) - {u.id}
        case Mismatch => old(pendingUploads)[u.id := Mismatched(old(pendingUploads)[u.id])]
        case _ => old(pendingUploads)
    {
      hide Proves;
      var reply := Fetch();
      if reply.Unreachable? { return Threw(reply.thrown); }
      if !reply.Ok() || !reply.body.Body? || reply.body.attachmentId != Str(u.attachmentId) { return Continue; }
      if reply.body.storageState == Str(AsciiText("pending")) { return Continue; }
      if Proves(host, u, reply.body) {
        pendingUploads := pendingUploads - {u.id};
        return Synchronized;
      }
      pendingUploads := pendingUploads[u.id := Mismatched(pendingUploads[u.id])];
      return Mismatch;
    }

    // What a reconciliation that ends the attempt makes of it.
    function ThrownBy(outcome: Reconciliation): Option<Thrown> {
      if outcome.Threw? then Some(outcome.thrown) else None
    }

    // Sends the bytes with a ticket and asks whether they arrived.
    method SendBytes(u: Upload, ticket: Body) returns (thrown: Option<Thrown>)
      requires u.id in pendingUploads
      modifies this
      ensures var a := Finalize(host, u, old(pendingUploads)[u.id], ticket, old(sent));
        thrown == a.thrown && sent == a.next && pendingUploads == Store(old(pendingUploads), u.id, a.row)
    {
      hide Reconcile, Falsy, Mismatched;
      StoreSame(pendingUploads, u.id);
      if !ticket.Body? { return Some(ticket.thrown); }
      if ticket.attachmentId != Str(u.attachmentId) || Falsy(ticket.ticketSecret) {
        return Some(Error(AsciiText("invalid ticket")));
      }
      var finalized := Fetch();
      if finalized.Unreachable? { return Some(finalized.thrown); }
      if !finalized.Ok() { return Some(StatusError(finalized.status)); }
      var outcome := ReconcileReceiptUpload(u);
      if outcome.Continue? { return Some(Error(AsciiText("finalization reconciliation required"))); }
      return ThrownBy(outcome);
    }

    // Asks for another ticket after a conflict.
    method ReplaceTicket(u: Upload) returns (thrown: Option<Thrown>)
      requires u.id in pendingUploads
      modifies this
      ensures var a := Replace(host, u, old(pendingUploads)[u.id], old(sent));
        thrown == a.thrown && sent == a.next && pendingUploads == Store(old(pendingUploads), u.id, a.row)
    {
      hide Reconcile, Finalize, Mismatched;
      StoreSame(pendingUploads, u.id);
      var replacement := Fetch();
      if replacement.Unreachable? { return Some(replacement.thrown); }
      if replacement.status == 422 {
        var outcome := ReconcileReceiptUpload(u);
        if !outcome.Continue? { return ThrownBy(outcome); }
      }
      if !replacement.Ok() { return Some(StatusError(replacement.status)); }
      if replacement.body.Unreadable? { return Some(replacement.body.thrown); }
      thrown := SendBytes(u, replacement.body);
    }

    method TryUpload(u: Upload) returns (thrown: Option<Thrown>)
      requires u.id in pendingUploads && pendingUploads[u.id] == u
      modifies this
      ensures var a := Tried(host, u, old(sent));
        thrown == a.thrown && sent == a.next && pendingUploads == Store(old(pendingUploads), u.id, a.row)
    {
      hide Reconcile, Finalize, Replace, Mismatched;
      pendingUploads := pendingUploads[u.id := u.(state := Uploading, failureReason := None)];
      StoreSame(pendingUploads, u.id);
      var created := Fetch();
      if created.Unreachable? { return Some(created.thrown); }
      if created.Ok() {
        if created.body.Unreadable? { return Some(created.body.thrown); }
        pendingUploads := pendingUploads[u.id := pendingUploads[u.id].(serverCreated := true)];
        thrown := SendBytes(u, created.body);
      } else if created.status == 409 {
        var outcome := ReconcileReceiptUpload(u);
        if !outcome.Continue? { return ThrownBy(outcome); }
        pendingUploads := pendingUploads[u.id := pendingUploads[u.id].(serverCreated := true)];
        thrown := ReplaceTicket(u);
      } else {
        return Some(StatusError(created.status));
      }
    }

    // One upload with its `catch`: a rejection fails the row, anything else gives it back.
    method AttemptUpload(u: Upload) returns (thrown: Option<Thrown>)
      requires u.id in pendingUploads && pendingUploads[u.id] == u
      modifies this
      ensures var a := Attempted(host, u, old(sent));
        thrown == a.thrown && sent == a.next && pendingUploads == Store(old(pendingUploads), u.id, a.row)
    {
      hide Tried, ValidUpload, IsRejection;
      if !ValidUpload(u) {
        pendingUploads := pendingUploads[u.id := u.(state := Failed, failureReason := Some("invalid_image"))];
        return None;
      }
      TriedKeepsRow(host, u, sent);
      thrown := TryUpload(u);
      if thrown.Some? {
        if IsRejection(thrown.value) {
          pendingUploads := pendingUploads[u.id := Rejected(pendingUploads[u.id])];
          return None;
        }
        pendingUploads := pendingUploads[u.id := pendingUploads[u.id].(state := Pending)];
      }
    }

    // One pass over the pending uploads; an error that is no rejection ends it.
    method DispatchReceiptUploads(uploads: seq<Upload>) returns (thrown: Option<Thrown>)
      requires forall i :: 0 <= i < |uploads| ==>
        uploads[i].id in pendingUploads && pendingUploads[uploads[i].id] == uploads[i]
      requires DistinctIds(uploads)
      modifies this
      ensures var p := PassOver(host, old(pendingUploads), uploads, old(sent));
        pendingUploads == p.table && sent == p.next && thrown == p.thrown
    {
      for k := 0 to |uploads|
        invariant Pass(pendingUploads, sent, None) == PassOver(host, old(pendingUploads), uploads[..k], old(sent))
        invariant forall i :: k <= i < |uploads| ==>
          uploads[i].id in pendingUploads && pendingUploads[uploads[i].id] == uploads[i]
      {
        hide Attempted, PassOver;
        assert uploads[..k + 1][..k] == uploads[..k];
        PassUnfolds(host, old(pendingUploads), uploads[..k + 1], old(sent));
        thrown := AttemptUpload(uploads[k]);
        if thrown.Some? {
          PassStops(host, old(pendingUploads), uploads, k, old(sent));
          return;
        }
      }
      assert uploads[..|uploads|] == uploads;
      return None;
    }
  }

  lemma StoreSame(t: Table, id: Utf16)
    requires id in t
    ensures Store(t, id, Some(t[id])) == t
  {
  }

  lemma TriedKeepsRow(host: Host, u: Upload, at: nat)
    ensures Tried(host, u, at).thrown.Some? ==> Tried(host, u, at).row.Some?
  {
    hide Tried;
    TriedKeeps(host, u, at);
  }

  // Once an upload has thrown, the rest of the pass is not reached.
  lemma {:induction false} PassStops(host: Host, t: Table, uploads: seq<Upload>, k: nat, at: nat)
    requires k < |uploads| && PassOver(host, t, uploads[..k + 1], at).thrown.Some?
    ensures PassOver(host, t, uploads, at) == PassOver(host, t, uploads[..k + 1], at)
    decreases |uploads|
  {
    hide Attempted, Store;
    if |uploads| == k + 1 {
      assert uploads[..k + 1] == uploads;
    } else {
      var n := |uploads| - 1;
      assert uploads[..n][..k + 1] == uploads[..k + 1];
      PassStops(host, t, uploads[..n], k, at);
    }
  }
}
