/** Receipt images kept on the device until the server proves that it holds the same bytes. */
module ReceiptUploads {
  import opened Text
  import opened Wrappers
  import opened Digits
  import opened Replica
  import opened Bytes

  datatype Blob = Blob(mediaType: Utf16, bytes: seq<byte>)

  datatype UploadState = Pending | Uploading | Failed

  datatype Upload = Upload(
    id: Utf16, userId: Utf16, organizationId: Utf16, attachmentId: Utf16,
    receiptId: Option<Utf16>, positionKey: Option<Utf16>,
    createMutationId: Option<Utf16>, finalizeMutationId: Option<Utf16>, replaceAttachmentId: Option<Utf16>,
    serverCreated: bool, blob: Blob, createdAt: Utf16, state: UploadState, failureReason: Option<string>)

  type Table = map<Utf16, Upload>

  const MAXIMUM_BYTES := 2_000_000

  // ---------- Replies ----------

  /** What a `catch` sees: an `Error` with its message, or any other thrown value. */
  datatype Thrown = Error(message: Utf16) | NotAnError

  /** The JSON a reply carries, as far as the client looks into it; `Null` throws when a property is
      read, `Unreadable` when it is parsed. */
  datatype Body =
    | Unreadable(thrown: Thrown)
    | NoObject(thrown: Thrown)
    | Body(attachmentId: Value, ticketSecret: Value, storageState: Value, mediaType: Value,
        sourceByteSize: Value, sourceContentHash: Value)

  datatype Reply = Unreachable(thrown: Thrown) | Reply(status: nat, body: Body) {
    predicate Ok() { Reply? && 200 <= status <= 299 }
  }

  /** The replies in the order of the requests, and SHA-256 in hexadecimal digits. */
  datatype Host = Host(network: nat -> Reply, hash: seq<byte> -> Utf16)

  predicate Falsy(v: Value) {
    v.Undefined? || v.Null? || v == Flag(false) || v == Whole(0) || v == Str([])
  }

  // ---------- Checks ----------

  predicate IsMediaType(s: Utf16) {
    s == AsciiText("image/jpeg") || s == AsciiText("image/webp")
  }

  predicate IsId(s: Option<Utf16>) { s.Some? && IsUuid(s.value) }

  predicate ValidBlob(blob: Blob) {
    IsMediaType(blob.mediaType) && 0 < |blob.bytes| <= MAXIMUM_BYTES
  }

  predicate ValidUpload(u: Upload) {
    && IsId(u.receiptId) && IsUuid(u.attachmentId) && IsId(u.createMutationId) && IsId(u.finalizeMutationId)
    && (u.replaceAttachmentId.None? || IsUuid(u.replaceAttachmentId.value))
    && u.positionKey.Some? && IsPositionKey(u.positionKey.value)
    && ValidBlob(u.blob)
  }

  function LowerHex(s: Utf16): Utf16 {
    seq(|s|, i requires 0 <= i < |s| => if 0x41 <= s[i] <= 0x46 then s[i] + 0x20 else s[i])
  }

  predicate IsHash(s: Utf16) {
    |s| == 64 && forall i | 0 <= i < 64 :: IsHexDigit(s[i])
  }

  // A status that proves the server finalized exactly these bytes.
  predicate Proves(host: Host, u: Upload, body: Body) {
    && body.Body?
    && body.attachmentId == Str(u.attachmentId)
    && body.storageState == Str(AsciiText("ready"))
    && body.mediaType == Str(u.blob.mediaType)
    && body.sourceByteSize == Whole(|u.blob.bytes|)
    && body.sourceContentHash.Str? && IsHash(body.sourceContentHash.s)
    && LowerHex(body.sourceContentHash.s) == host.hash(u.blob.bytes)
  }

  predicate Confirms(host: Host, u: Upload, reply: Reply) {
    reply.Ok() && Proves(host, u, reply.body)
  }

  // A client error other than a conflict, `/^4(?!09)\d\d$/`.
  predicate IsRejection(t: Thrown) {
    && t.Error? && |t.message| == 3 && t.message[0] == Ascii('4') && AllDigits(t.message)
    && t.message != AsciiText("409")
  }

  // ---------- One upload ----------

  datatype Reconciliation = Continue | Mismatch | Synchronized | Threw(thrown: Thrown)

  function Reconcile(host: Host, u: Upload, reply: Reply): Reconciliation {
    if reply.Unreachable? then Threw(reply.thrown)
    else if !reply.Ok() || !reply.body.Body? || reply.body.attachmentId != Str(u.attachmentId) then Continue
    else if reply.body.storageState == Str(AsciiText("pending")) then Continue
    else if Proves(host, u, reply.body) then Synchronized
    else Mismatch
  }

  /** The row after part of an attempt (`None` once deleted), the requests sent, and what was thrown. */
  datatype Attempt = Attempt(row: Option<Upload>, next: nat, thrown: Option<Thrown>)

  function Mismatched(u: Upload): Upload {
    u.(state := Failed, failureReason := Some("reconciliation_mismatch"))
  }

  // The row after a reconciliation that ends the attempt.
  function Settled(row: Upload, outcome: Reconciliation, next: nat, otherwise: Attempt): Attempt {
    match outcome
    case Continue => otherwise
    case Mismatch => Attempt(Some(Mismatched(row)), next, None)
    case Synchronized => Attempt(None, next, None)
    case Threw(thrown) => Attempt(Some(row), next, Some(thrown))
  }

  function Throws(row: Upload, next: nat, thrown: Thrown): Attempt {
    Attempt(Some(row), next, Some(thrown))
  }

  function StatusError(status: nat): Thrown { Error(NatText(status)) }

  // From a ticket on: finalize, then reconcile.
  function Finalize(host: Host, u: Upload, row: Upload, ticket: Body, at: nat): Attempt {
    if !ticket.Body? then Throws(row, at, ticket.thrown)
    else if ticket.attachmentId != Str(u.attachmentId) || Falsy(ticket.ticketSecret) then
      Throws(row, at, Error(AsciiText("invalid ticket")))
    else
      var finalized := host.network(at);
      if finalized.Unreachable? then Throws(row, at + 1, finalized.thrown)
      else if !finalized.Ok() then Throws(row, at + 1, StatusError(finalized.status))
      else Settled(row, Reconcile(host, u, host.network(at + 1)), at + 2,
        Throws(row, at + 2, Error(AsciiText("finalization reconciliation required"))))
  }

  // From the reply to the replacement ticket on.
  function UseReplacement(host: Host, u: Upload, row: Upload, replacement: Reply, at: nat): Attempt {
    if replacement.Unreachable? then Throws(row, at, replacement.thrown)
    else if !replacement.Ok() then Throws(row, at, StatusError(replacement.status))
    else if replacement.body.Unreadable? then Throws(row, at, replacement.body.thrown)
    else Finalize(host, u, row, replacement.body, at)
  }

  function Replace(host: Host, u: Upload, row: Upload, at: nat): Attempt {
    var replacement := host.network(at);
    if replacement.Reply? && replacement.status == 422 then
      Settled(row, Reconcile(host, u, host.network(at + 1)), at + 2, UseReplacement(host, u, row, replacement, at + 2))
    else UseReplacement(host, u, row, replacement, at + 1)
  }

  // The body of the `try`.
  function Tried(host: Host, u: Upload, at: nat): Attempt {
    var row := u.(state := Uploading, failureReason := None);
    var created := host.network(at);
    if created.Unreachable? then Throws(row, at + 1, created.thrown)
    else if created.Ok() then
      if created.body.Unreadable? then Throws(row, at + 1, created.body.thrown)
      else Finalize(host, u, row.(serverCreated := true), created.body, at + 1)
    else if created.status == 409 then
      Settled(row, Reconcile(host, u, host.network(at + 1)), at + 2,
        Replace(host, u, row.(serverCreated := true), at + 2))
    else Throws(row, at + 1, StatusError(created.status))
  }

  function Rejected(row: Upload): Upload { row.(state := Failed, failureReason := Some("upload_rejected")) }

  function Caught(a: Attempt): Attempt {
    if a.thrown.None? || a.row.None? then a
    else if IsRejection(a.thrown.value) then Attempt(Some(Rejected(a.row.value)), a.next, None)
    else Attempt(Some(a.row.value.(state := Pending)), a.next, a.thrown)
  }

  function Attempted(host: Host, u: Upload, at: nat): Attempt {
    if !ValidUpload(u) then Attempt(Some(u.(state := Failed, failureReason := Some("invalid_image"))), at, None)
    else Caught(Tried(host, u, at))
  }

  // ---------- One pass ----------

  datatype Pass = Pass(table: Table, next: nat, thrown: Option<Thrown>)

  function Store(t: Table, id: Utf16, row: Option<Upload>): Table {
    if row.Some? then t[id := row.value] else t - {id}
  }

  function PassOver(host: Host, t: Table, uploads: seq<Upload>, at: nat): Pass {
    if uploads == [] then Pass(t, at, None)
    else
      var before := PassOver(host, t, uploads[..|uploads| - 1], at);
      if before.thrown.Some? then before
      else
        var u := uploads[|uploads| - 1];
        var a := Attempted(host, u, before.next);
        Pass(Store(before.table, u.id, a.row), a.next, a.thrown)
  }

  // The pending rows of a user and organization, each once, in the order the host sorted them.
  ghost predicate PendingRows(t: Table, userId: Utf16, organizationId: Utf16, uploads: seq<Upload>) {
    && (forall i :: 0 <= i < |uploads| ==>
        && uploads[i].id in t && t[uploads[i].id] == uploads[i]
        && uploads[i].userId == userId && uploads[i].organizationId == organizationId && uploads[i].state == Pending)
    && (forall i, j :: 0 <= i < j < |uploads| ==> uploads[i].id != uploads[j].id)
    && (forall id | id in t && t[id].id == id && t[id].state == Pending ::
          t[id].userId == userId && t[id].organizationId == organizationId ==> t[id] in uploads)
  }

  // ---------- Every exit ----------

  // The same image and target, whatever happened to the upload.
  predicate SameImage(a: Upload, b: Upload) {
    a == b.(serverCreated := a.serverCreated, state := a.state, failureReason := a.failureReason)
  }

  ghost predicate ConfirmedBetween(host: Host, u: Upload, from: nat, to: nat) {
    exists i :: from <= i < to && Confirms(host, u, host.network(i))
  }

  // The row is kept with its image, or a reply among those received proves the server holds it.
  ghost predicate KeptOrConfirmed(host: Host, u: Upload, row: Option<Upload>, from: nat, to: nat) {
    if row.Some? then SameImage(row.value, u) else ConfirmedBetween(host, u, from, to)
  }

  // What every part of an attempt leaves behind.
  ghost predicate Keeps(host: Host, u: Upload, a: Attempt, from: nat) {
    && from <= a.next && KeptOrConfirmed(host, u, a.row, from, a.next)
    && (a.thrown.None? && a.row.Some? ==> a.row.value.state == Failed)
    && (a.thrown.Some? ==> a.row.Some?)
  }

  lemma SettledKeeps(host: Host, u: Upload, row: Upload, from: nat, at: nat, otherwise: Attempt)
    requires SameImage(row, u) && from <= at && Keeps(host, u, otherwise, from)
    ensures Keeps(host, u, Settled(row, Reconcile(host, u, host.network(at)), at + 1, otherwise), from)
  {
  }

  lemma AllThrowsKeep(host: Host, u: Upload, row: Upload, from: nat)
    requires SameImage(row, u)
    ensures forall at: nat, thrown {:trigger Throws(row, at, thrown)} :: from <= at ==>
      Keeps(host, u, Throws(row, at, thrown), from)
  {
  }

  lemma FinalizeKeeps(host: Host, u: Upload, row: Upload, ticket: Body, from: nat, at: nat)
    requires SameImage(row, u) && from <= at
    ensures Keeps(host, u, Finalize(host, u, row, ticket, at), from)
  {
    hide Keeps, SameImage, Throws, Settled, Falsy;
    AllThrowsKeep(host, u, row, from);
    SettledKeeps(host, u, row, from, at + 1,
      Throws(row, at + 2, Error(AsciiText("finalization reconciliation required"))));
  }

  lemma ReplaceKeeps(host: Host, u: Upload, row: Upload, from: nat, at: nat)
    requires SameImage(row, u) && from <= at
    ensures Keeps(host, u, Replace(host, u, row, at), from)
  {
    hide Keeps, SameImage, Throws, Settled, Finalize;
    var replacement := host.network(at);
    AllThrowsKeep(host, u, row, from);
    forall next: nat | at <= next
      ensures Keeps(host, u, UseReplacement(host, u, row, replacement, next), from)
    {
      if replacement.Ok() { FinalizeKeeps(host, u, row, replacement.body, from, next); }
    }
    SettledKeeps(host, u, row, from, at + 1, UseReplacement(host, u, row, replacement, at + 2));
  }

  lemma TriedKeeps(host: Host, u: Upload, at: nat)
    ensures Keeps(host, u, Tried(host, u, at), at)
  {
    hide Keeps, Throws, Settled, Finalize, Replace;
    var row := u.(state := Uploading, failureReason := None);
    var created := host.network(at);
    AllThrowsKeep(host, u, row, at);
    if created.Reply? { FinalizeKeeps(host, u, row.(serverCreated := true), created.body, at, at + 1); }
    ReplaceKeeps(host, u, row.(serverCreated := true), at, at + 2);
    SettledKeeps(host, u, row, at, at + 1, Replace(host, u, row.(serverCreated := true), at + 2));
  }

  /** However an attempt ends, its row is not left uploading, and it is deleted only after a reply
      that proves the server holds the bytes. */
  lemma AttemptSettles(host: Host, u: Upload, at: nat)
    ensures var a := Attempted(host, u, at);
      && at <= a.next && KeptOrConfirmed(host, u, a.row, at, a.next)
      && (a.row.Some? ==> a.row.value.state == if a.thrown.Some? then Pending else Failed)
      && (a.thrown.Some? ==> a.row.Some? && !IsRejection(a.thrown.value))
  {
    hide Tried, ConfirmedBetween;
    TriedKeeps(host, u, at);
  }

  function IdsOf(uploads: seq<Upload>, n: nat): set<Utf16>
    requires n <= |uploads|
  {
    set i | 0 <= i < n :: uploads[i].id
  }

  ghost predicate DistinctIds(uploads: seq<Upload>) {
    forall i, j :: 0 <= i < j < |uploads| ==> uploads[i].id != uploads[j].id
  }

  // Confirmed and deleted, or failed with its image.
  ghost predicate IsSettled(host: Host, u: Upload, row: Option<Upload>, from: nat, to: nat) {
    KeptOrConfirmed(host, u, row, from, to) && (row.Some? ==> row.value.state == Failed)
  }

  ghost predicate GivenBack(u: Upload, row: Option<Upload>) {
    row.Some? && SameImage(row.value, u) && row.value.state == Pending
  }

  // Between two replies the first `settled` rows were settled, the next one was given back when
  // something was thrown, and no other row was touched.
  ghost predicate Progress(host: Host, t: Table, uploads: seq<Upload>, at: nat, p: Pass, settled: nat) {
    && at <= p.next && settled <= |uploads|
    && (p.thrown.None? ==> settled == |uploads|)
    && (p.thrown.Some? ==> settled < |uploads| && GivenBack(uploads[settled], Lookup(p.table, uploads[settled].id)))
    && (forall i :: 0 <= i < settled ==> IsSettled(host, uploads[i], Lookup(p.table, uploads[i].id), at, p.next))
    && (forall id :: id !in IdsOf(uploads, if p.thrown.Some? then settled + 1 else settled) ==>
      Lookup(p.table, id) == Lookup(t, id))
  }

  lemma WiderConfirmation(host: Host, u: Upload, row: Option<Upload>, from: nat, to: nat, from': nat, to': nat)
    requires IsSettled(host, u, row, from, to) && from' <= from && to <= to'
    ensures IsSettled(host, u, row, from', to')
  {
  }

  lemma StoredLookup(t: Table, id: Utf16, row: Option<Upload>)
    ensures Lookup(Store(t, id, row), id) == row
    ensures forall other :: other != id ==> Lookup(Store(t, id, row), other) == Lookup(t, other)
  {
  }

  lemma PassUnfolds(host: Host, t: Table, uploads: seq<Upload>, at: nat)
    requires uploads != [] && PassOver(host, t, uploads[..|uploads| - 1], at).thrown.None?
    ensures var u, before := uploads[|uploads| - 1], PassOver(host, t, uploads[..|uploads| - 1], at);
      var a := Attempted(host, u, before.next);
      PassOver(host, t, uploads, at) == Pass(Store(before.table, u.id, a.row), a.next, a.thrown)
  {
  }

  lemma LastIdFresh(uploads: seq<Upload>)
    requires uploads != [] && DistinctIds(uploads)
    ensures forall i :: 0 <= i < |uploads| - 1 ==> uploads[i].id != uploads[|uploads| - 1].id
  {
  }

  lemma PassStep(host: Host, t: Table, uploads: seq<Upload>, at: nat)
    requires uploads != [] && DistinctIds(uploads)
    requires var n := |uploads| - 1;
      var before := PassOver(host, t, uploads[..n], at);
      before.thrown.None? && Progress(host, t, uploads[..n], at, before, n)
    ensures var p := PassOver(host, t, uploads, at);
      Progress(host, t, uploads, at, p, if p.thrown.None? then |uploads| else |uploads| - 1)
  {
    hide Attempted, IsSettled, GivenBack, Store, IdsOf, DistinctIds, PassOver;
    var n := |uploads| - 1;
    var u, before := uploads[n], PassOver(host, t, uploads[..n], at);
    var a := Attempted(host, u, before.next);
    var p := PassOver(host, t, uploads, at);
    PassUnfolds(host, t, uploads, at);
    LastIdFresh(uploads);
    AttemptOutcome(host, u, before.next);
    StoredLookup(before.table, u.id, a.row);
    forall i | 0 <= i < n
      ensures IsSettled(host, uploads[i], Lookup(p.table, uploads[i].id), at, p.next)
    {
      assert uploads[..n][i] == uploads[i];
      WiderConfirmation(host, uploads[i], Lookup(before.table, uploads[i].id), at, before.next, at, p.next);
    }
    if a.thrown.None? { WiderConfirmation(host, u, a.row, before.next, a.next, at, a.next); }
    IdsGrow(uploads);
  }

  lemma IdsGrow(uploads: seq<Upload>)
    requires uploads != []
    ensures var n := |uploads| - 1; IdsOf(uploads, |uploads|) == IdsOf(uploads[..n], n) + {uploads[n].id}
  {
  }

  lemma AttemptOutcome(host: Host, u: Upload, at: nat)
    ensures var a := Attempted(host, u, at);
      && at <= a.next
      && (a.thrown.None? ==> IsSettled(host, u, a.row, at, a.next))
      && (a.thrown.Some? ==> GivenBack(u, a.row))
  {
    hide Attempted;
    AttemptSettles(host, u, at);
  }

  /** At every exit of a pass, normal or thrown, each row before the exit is settled, a row that
      made it throw is pending again, and the rest are as before. */
  lemma {:induction false} PassSettles(host: Host, t: Table, uploads: seq<Upload>, at: nat) returns (settled: nat)
    requires DistinctIds(uploads)
    ensures Progress(host, t, uploads, at, PassOver(host, t, uploads, at), settled)
  {
    hide Attempted, IsSettled, GivenBack;
    if uploads == [] {
      settled := 0;
    } else {
      var n := |uploads| - 1;
      settled := PassSettles(host, t, uploads[..n], at);
      var before := PassOver(host, t, uploads[..n], at);
      if before.thrown.None? {
        PassStep(host, t, uploads, at);
        settled := if PassOver(host, t, uploads, at).thrown.None? then |uploads| else n;
      } else {
        assert IdsOf(uploads[..n], settled + 1) == IdsOf(uploads, settled + 1);
      }
    }
  }
}
