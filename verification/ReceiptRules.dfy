/** When an upload of a receipt image is confirmed, refused or given back, written out from the replies. */
module ReceiptRules {
  import opened Text
  import opened Wrappers
  import opened Digits
  import opened Replica
  import opened ReceiptUploads
  import opened ReceiptQueue
  import opened Shapes

  // ---------- Replies ----------

  ghost predicate Succeeded(reply: Reply) {
    reply.Reply? && 200 <= reply.status < 300
  }

  // Equal but for the case of the letters, the second one being in lower case.
  ghost predicate InLowerCase(a: Utf16, b: Utf16) {
    |a| == |b| && forall i :: 0 <= i < |a| ==> b[i] == if Between(a[i], 'A', 'F') then a[i] + 32 else a[i]
  }

  // A successful status of this attachment: ready, and of the type, size and digest of the image.
  ghost predicate Proven(host: Host, u: Upload, reply: Reply) {
    && Succeeded(reply) && reply.body.Body? && reply.body.attachmentId == Str(u.attachmentId)
    && reply.body.storageState == Str(AsciiText("ready")) && reply.body.mediaType == Str(u.blob.mediaType)
    && reply.body.sourceByteSize == Whole(|u.blob.bytes|) && reply.body.sourceContentHash.Str?
    && |reply.body.sourceContentHash.s| == 64 && OnlyHex(reply.body.sourceContentHash.s)
    && InLowerCase(reply.body.sourceContentHash.s, host.hash(u.blob.bytes))
  }

  // A reply that says nothing about the bytes.
  ghost predicate Inconclusive(u: Upload, reply: Reply) {
    reply.Reply? && (Succeeded(reply) && reply.body.Body? && reply.body.attachmentId == Str(u.attachmentId) ==>
      reply.body.storageState == Str(AsciiText("pending")))
  }

  ghost predicate Contradicted(host: Host, u: Upload, reply: Reply) {
    reply.Reply? && !Proven(host, u, reply) && !Inconclusive(u, reply)
  }

  lemma HashIs(a: Utf16, b: Utf16)
    ensures IsHash(a) && LowerHex(a) == b <==> |a| == 64 && OnlyHex(a) && InLowerCase(a, b)
  {
    if InLowerCase(a, b) { assert LowerHex(a) == b; }
  }

  lemma ProvesIs(host: Host, u: Upload, reply: Reply)
    ensures Confirms(host, u, reply) <==> Proven(host, u, reply)
  {
    if Succeeded(reply) && reply.body.Body? && reply.body.sourceContentHash.Str? {
      HashIs(reply.body.sourceContentHash.s, host.hash(u.blob.bytes));
    }
    hide IsHash, LowerHex, OnlyHex, InLowerCase;
  }

  lemma NotPending()
    ensures AsciiText("pending") != AsciiText("ready")
  {
    assert AsciiText("pending")[0] != AsciiText("ready")[0];
  }

  lemma ReconcileIs(host: Host, u: Upload, reply: Reply)
    ensures Reconcile(host, u, reply) ==
      if reply.Unreachable? then Threw(reply.thrown)
      else if Inconclusive(u, reply) then Continue
      else if Proven(host, u, reply) then Synchronized
      else Mismatch
  {
    ProvesIs(host, u, reply);
    NotPending();
    hide Proves;
  }

  // ---------- Valid images ----------

  ghost predicate GoodImage(blob: Blob) {
    && (blob.mediaType == AsciiText("image/jpeg") || blob.mediaType == AsciiText("image/webp"))
    && 1 <= |blob.bytes| <= 2_000_000
  }

  ghost predicate Given(s: Option<Utf16>) {
    s.Some? && IsUuid(s.value)
  }

  // An image of a known kind and size with its four ids, an optional replaced one, and a position.
  ghost predicate GoodUpload(u: Upload) {
    && GoodImage(u.blob) && IsUuid(u.attachmentId)
    && Given(u.receiptId) && Given(u.createMutationId) && Given(u.finalizeMutationId)
    && (u.replaceAttachmentId == None || Given(u.replaceAttachmentId))
    && u.positionKey.Some? && 1 <= |u.positionKey.value| <= 255 && OnlyLettersAndDigits(u.positionKey.value)
  }

  lemma ValidIs(u: Upload)
    ensures ValidUpload(u) <==> GoodUpload(u)
  {
    if u.positionKey.Some? { PositionKeyIs(u.positionKey.value); }
    hide IsUuid, IsPositionKey, OnlyLettersAndDigits;
  }

  ghost function PendingOf(t: Table, userId: Utf16, organizationId: Utf16): set<Utf16> {
    set id | id in t.Keys && t[id].state == Pending && (t[id].userId, t[id].organizationId) == (userId, organizationId)
  }

  /** An image is queued as pending under the next position among the pending ones, unless an id or the image
      is not valid or the new id is taken. */
  lemma NewUploadIs(t: Table, a: Action, u: Upload)
    requires a.QueueImage?
    ensures NewUpload(t, a) == Some(u) <==>
      && IsUuid(a.userId) && IsUuid(a.organizationId) && IsUuid(a.receiptId) && GoodImage(a.blob) && a.ids.id !in t
      && u.id == a.ids.id && u.userId == a.userId && u.organizationId == a.organizationId
      && u.receiptId == Some(a.receiptId) && u.attachmentId == a.ids.attachmentId
      && u.createMutationId == Some(a.ids.createMutationId) && u.finalizeMutationId == Some(a.ids.finalizeMutationId)
      && u.replaceAttachmentId == a.replaceAttachmentId && u.blob == a.blob && u.createdAt == a.createdAt
      && u.state == Pending && u.failureReason == None && !u.serverCreated
      && u.positionKey == Some(NatText(1 + |PendingOf(t, a.userId, a.organizationId)|))
  {
    hide IsUuid, NatText;
    assert PendingOf(t, a.userId, a.organizationId) == PendingIds(t, a.userId, a.organizationId);
  }

  /** A retry makes a row pending again and forgets why it failed; no other row changes. */
  lemma RetriedIs(t: Table, id: Utf16, other: Utf16)
    ensures Lookup(Retried(t, id), other) ==
      if id == other && id in t then Some(t[id].(state := Pending, failureReason := None)) else Lookup(t, other)
  {
  }

  // ---------- Refusals ----------

  // Three digits, the first a 4, but not 409.
  ghost predicate SaysRefused(t: Thrown) {
    t.Error? && |t.message| == 3 && OnlyDigits(t.message) && t.message[..1] == AsciiText("4")
    && t.message != AsciiText("409")
  }

  lemma RejectionIs(t: Thrown)
    ensures IsRejection(t) <==> SaysRefused(t)
  {
  }

  lemma ThreeDigits(n: nat)
    requires 100 <= n < 1000
    ensures NatText(n) == [DigitOf(n / 100), DigitOf(n / 10 % 10), DigitOf(n % 10)]
  {
    assert NatText(n / 10) == NatText(n / 10 / 10) + [DigitOf(n / 10 % 10)];
    assert n / 10 / 10 == n / 100;
  }

  lemma LongText(n: nat)
    requires 1000 <= n
    ensures |NatText(n)| > 3
  {
    assert |NatText(n / 10 / 10)| >= 2 by { assert n / 10 / 10 >= 10; }
    assert |NatText(n / 10)| == |NatText(n / 10 / 10)| + 1;
  }

  /** Of the statuses, exactly 400 to 499 without 409 refuse an upload for good. */
  lemma RefusingStatuses(status: nat)
    ensures SaysRefused(StatusError(status)) <==> 400 <= status <= 499 && status != 409
  {
    RejectionIs(StatusError(status));
    if status < 10 {
    } else if status < 100 {
      assert NatText(status) == [DigitOf(status / 10), DigitOf(status % 10)];
    } else if status < 1000 {
      ThreeDigits(status);
      ThreeDigits(409);
      assert AsciiText("409") == [0x34, 0x30, 0x39];
    } else {
      LongText(status);
    }
  }

  // ---------- Attempts ----------

  ghost predicate NoSecret(v: Value) {
    v in {Undefined, Null, Flag(false), Whole(0), Str([])}
  }

  ghost predicate GoodTicket(u: Upload, ticket: Body) {
    ticket.Body? && ticket.attachmentId == Str(u.attachmentId) && !NoSecret(ticket.ticketSecret)
  }

  // After a conflict and an inconclusive status, another ticket is asked for.
  ghost predicate Conflicted(host: Host, u: Upload, at: nat) {
    host.network(at).Reply? && host.network(at).status == 409 && Inconclusive(u, host.network(at + 1))
  }

  // The reply is to the status asked for at the end: after the bytes were sent, after a conflict, or after
  // another ticket was refused with 422.
  ghost predicate Asked(host: Host, u: Upload, at: nat, last: nat) {
    || (last == at + 1 && host.network(at).Reply? && host.network(at).status == 409)
    || (last == at + 2 && Succeeded(host.network(at)) && GoodTicket(u, host.network(at).body)
        && Succeeded(host.network(at + 1)))
    || (last == at + 3 && Conflicted(host, u, at)
        && host.network(at + 2).Reply? && host.network(at + 2).status == 422)
    || (last == at + 4 && Conflicted(host, u, at)
        && Succeeded(host.network(at + 2)) && GoodTicket(u, host.network(at + 2).body)
        && Succeeded(host.network(at + 3)))
  }

  // What sending the bytes throws, from the ticket on.
  ghost predicate SendingFails(host: Host, u: Upload, ticket: Body, at: nat, t: Thrown) {
    || (!ticket.Body? && t == ticket.thrown)
    || (ticket.Body? && !GoodTicket(u, ticket) && t == Error(AsciiText("invalid ticket")))
    || (GoodTicket(u, ticket) && host.network(at).Unreachable? && t == host.network(at).thrown)
    || (GoodTicket(u, ticket) && host.network(at).Reply? && !Succeeded(host.network(at))
        && t == Error(NatText(host.network(at).status)))
    || (GoodTicket(u, ticket) && Succeeded(host.network(at)) && host.network(at + 1).Unreachable?
        && t == host.network(at + 1).thrown)
    || (GoodTicket(u, ticket) && Succeeded(host.network(at)) && Inconclusive(u, host.network(at + 1))
        && t == Error(AsciiText("finalization reconciliation required")))
  }

  // What the attempt throws before its `catch`.
  ghost predicate Fails(host: Host, u: Upload, at: nat, t: Thrown) {
    var created, status, replaced := host.network(at), host.network(at + 1), host.network(at + 2);
    || (created.Unreachable? && t == created.thrown)
    || (created.Reply? && !Succeeded(created) && created.status != 409 && t == Error(NatText(created.status)))
    || (Succeeded(created) && SendingFails(host, u, created.body, at + 1, t))
    || (created.Reply? && created.status == 409 && status.Unreachable? && t == status.thrown)
    || (Conflicted(host, u, at)
        && (|| (replaced.Unreachable? && t == replaced.thrown)
            || (replaced.Reply? && !Succeeded(replaced) && replaced.status != 422
                && t == Error(NatText(replaced.status)))
            || (replaced.Reply? && replaced.status == 422 && host.network(at + 3).Unreachable?
                && t == host.network(at + 3).thrown)
            || (replaced.Reply? && replaced.status == 422 && Inconclusive(u, host.network(at + 3))
                && t == Error(NatText(422)))
            || (Succeeded(replaced) && SendingFails(host, u, replaced.body, at + 3, t))))
  }

  // How a part of an attempt ends: deleted, failed on a mismatch, or thrown with the row as it was.
  ghost predicate Ends(a: Attempt, proven: bool, contradicted: bool) {
    && (proven <==> a.row.None?) && (proven ==> a.thrown.None?)
    && (contradicted <==> a.row.Some? && a.thrown.None?)
    && (contradicted ==> a.row.value.state == Failed && a.row.value.failureReason == Some("reconciliation_mismatch"))
    && (a.thrown.Some? ==> a.row.Some? && a.row.value.state == Uploading && a.row.value.failureReason == None)
  }

  lemma Exclusive(host: Host, u: Upload, reply: Reply)
    ensures !(Proven(host, u, reply) && Inconclusive(u, reply))
    ensures Proven(host, u, reply) || Inconclusive(u, reply) ==> reply.Reply?
  {
    NotPending();
  }

  lemma SendingIs(host: Host, u: Upload, row: Upload, ticket: Body, at: nat)
    requires row.state == Uploading && row.failureReason == None
    ensures var a := Finalize(host, u, row, ticket, at);
      var sent := GoodTicket(u, ticket) && Succeeded(host.network(at));
      && Ends(a, sent && Proven(host, u, host.network(at + 1)), sent && Contradicted(host, u, host.network(at + 1)))
      && forall t :: a.thrown == Some(t) <==> SendingFails(host, u, ticket, at, t)
  {
    ReconcileIs(host, u, host.network(at + 1));
    Exclusive(host, u, host.network(at + 1));
    hide Reconcile, Proven, Inconclusive;
  }

  lemma UnreadableTicket(host: Host, u: Upload, ticket: Body, at: nat)
    ensures !ticket.Body? ==> forall t :: SendingFails(host, u, ticket, at, t) <==> t == ticket.thrown
    ensures !ticket.Body? ==> !GoodTicket(u, ticket)
  {
  }

  // What the request for another ticket leads to.
  ghost predicate Replaced(host: Host, u: Upload, at: nat, a: Attempt) {
    && Ends(a, exists last :: last > at + 1 && Asked(host, u, at, last) && Proven(host, u, host.network(last)),
         exists last :: last > at + 1 && Asked(host, u, at, last) && Contradicted(host, u, host.network(last)))
    && forall t :: a.thrown == Some(t) <==> Fails(host, u, at, t)
  }

  lemma RefusedTicketIs(host: Host, u: Upload, row: Upload, at: nat)
    requires row.state == Uploading && row.failureReason == None && Conflicted(host, u, at)
    requires host.network(at + 2).Reply? && host.network(at + 2).status == 422
    ensures Replaced(host, u, at, Replace(host, u, row, at + 2))
  {
    ReconcileIs(host, u, host.network(at + 3));
    Exclusive(host, u, host.network(at + 3));
    hide Reconcile, Proven, Inconclusive, Finalize, SendingFails, GoodTicket;
    assert Asked(host, u, at, at + 3);
  }

  lemma ReplacingIs(host: Host, u: Upload, row: Upload, at: nat)
    requires row.state == Uploading && row.failureReason == None && Conflicted(host, u, at)
    ensures Replaced(host, u, at, Replace(host, u, row, at + 2))
  {
    var replaced := host.network(at + 2);
    if replaced.Reply? && replaced.status == 422 {
      RefusedTicketIs(host, u, row, at);
    } else {
      hide Reconcile, Proven, Inconclusive, Contradicted, Finalize, SendingFails, GoodTicket;
      if Succeeded(replaced) {
        SendingIs(host, u, row, replaced.body, at + 3);
        UnreadableTicket(host, u, replaced.body, at + 3);
        if GoodTicket(u, replaced.body) && Succeeded(host.network(at + 3)) { assert Asked(host, u, at, at + 4); }
      }
    }
  }

  ghost predicate ProvenAtEnd(host: Host, u: Upload, at: nat) {
    exists last :: Asked(host, u, at, last) && Proven(host, u, host.network(last))
  }

  ghost predicate ContradictedAtEnd(host: Host, u: Upload, at: nat) {
    exists last :: Asked(host, u, at, last) && Contradicted(host, u, host.network(last))
  }

  ghost predicate TriedEnds(host: Host, u: Upload, at: nat, a: Attempt) {
    && Ends(a, ProvenAtEnd(host, u, at), ContradictedAtEnd(host, u, at))
    && forall t :: a.thrown == Some(t) <==> Fails(host, u, at, t)
  }

  lemma TicketIs(host: Host, u: Upload, at: nat)
    requires Succeeded(host.network(at))
    ensures TriedEnds(host, u, at, Tried(host, u, at))
  {
    var row := u.(state := Uploading, failureReason := None, serverCreated := true);
    var created := host.network(at);
    hide Reconcile, Proven, Inconclusive, Contradicted, Finalize, Replace, SendingFails, GoodTicket;
    SendingIs(host, u, row, created.body, at + 1);
    UnreadableTicket(host, u, created.body, at + 1);
    if GoodTicket(u, created.body) && Succeeded(host.network(at + 1)) { assert Asked(host, u, at, at + 2); }
  }

  lemma ConflictIs(host: Host, u: Upload, at: nat)
    requires host.network(at).Reply? && host.network(at).status == 409
    ensures TriedEnds(host, u, at, Tried(host, u, at))
  {
    var row := u.(state := Uploading, failureReason := None, serverCreated := true);
    ReconcileIs(host, u, host.network(at + 1));
    Exclusive(host, u, host.network(at + 1));
    hide Reconcile, Proven, Inconclusive, Finalize, Replace, SendingFails, GoodTicket;
    assert Asked(host, u, at, at + 1);
    if Conflicted(host, u, at) { ReplacingIs(host, u, row, at); }
  }

  lemma TriedIs(host: Host, u: Upload, at: nat)
    ensures TriedEnds(host, u, at, Tried(host, u, at))
  {
    var created := host.network(at);
    hide Proven, Inconclusive, Finalize, Replace, SendingFails, GoodTicket;
    if Succeeded(created) {
      TicketIs(host, u, at);
    } else if created.Reply? && created.status == 409 {
      ConflictIs(host, u, at);
    }
  }

  /** An attempt deletes the row exactly when the status asked for at its end proves the bytes, and fails it on
      a mismatch exactly when that status contradicts them; whatever is thrown fails it as rejected or gives it
      back as pending, and an image that is not valid fails without a request. */
  lemma AttemptedIs(host: Host, u: Upload, at: nat)
    ensures var a := Attempted(host, u, at);
      if !GoodUpload(u) then
        a == Attempt(Some(u.(state := Failed, failureReason := Some("invalid_image"))), at, None)
      else
        && (a.row.None? <==> ProvenAtEnd(host, u, at))
        && (a.row.Some? && a.row.value.failureReason == Some("reconciliation_mismatch") <==>
            ContradictedAtEnd(host, u, at))
        && (a.row.Some? && a.row.value.failureReason == Some("upload_rejected") <==>
            exists t :: Fails(host, u, at, t) && SaysRefused(t))
        && (a.row.Some? && a.row.value.failureReason == None <==>
            exists t :: Fails(host, u, at, t) && !SaysRefused(t))
        && (forall t :: a.thrown == Some(t) <==> Fails(host, u, at, t) && !SaysRefused(t))
        && (a.row.Some? ==> a.row.value.state == if a.thrown.Some? then Pending else Failed)
  {
    ValidIs(u);
    TriedIs(host, u, at);
    var tried := Tried(host, u, at);
    assert "reconciliation_mismatch" != "upload_rejected" && "reconciliation_mismatch"[0] != "upload_rejected"[0];
    hide Tried, Fails, GoodUpload, ValidUpload, IsRejection, SaysRefused, ProvenAtEnd, ContradictedAtEnd;
    if tried.thrown.Some? { RejectionIs(tried.thrown.value); }
  }
}
