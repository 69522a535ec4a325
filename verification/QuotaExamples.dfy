/** Two deletions of one document at the same time, and what they do to the counters. */
module QuotaExamples {
  import opened QuotaLedger
  import opened QuotaProperties

  /** An upload as the handler makes it: one identifier and one size for reservation and document. */
  function UploadSteps(owner: Owner, id: Id, size: nat, expires: int, now: int): seq<Step> {
    [Reserve(owner, id, id, size, expires, now), Commit(owner, id, size, id)]
  }

  /** Two requests read the document; the second one goes on when the first has already removed it. */
  function DeletedTwice(owner: Owner, id: Id, size: nat): seq<Step> {
    [Delete(owner, id), LateDelete(owner, id, Document(owner, size))]
  }

  lemma RunTwo(l: Ledger, first: Step, second: Step)
    ensures Run(l, [first, second]) == Apply(Apply(l, first), second)
    ensures Handled(l, [first, second]) <==> SameSize(l, first) && SameSize(Apply(l, first), second)
  {
    RunOne(l, first);
    RunOne(Apply(l, first), second);
    RunAppend(l, [first], [second]);
    assert [first] + [second] == [first, second];
  }

  ghost predicate HasRoom(l: Ledger, owner: Owner, size: nat) {
    var u := Recount(l, owner);
    && u.committedBytes + u.reservedBytes + size <= MAX_OWNER_STORAGE
    && u.committedDocuments + u.reservedDocuments + 1 <= MAX_OWNER_DOCUMENTS
  }

  lemma Admitted(l: Ledger, owner: Owner, id: Id, size: nat, expires: int, now: int)
    requires HasRoom(l, owner, size) && id !in l.uploads
    ensures var (after, outcome) := ReserveUpload(l, owner, id, id, size, expires, now);
            && outcome == Success
            && after.documents == l.documents
            && after.uploads == ReleaseDue(l.uploads, owner, now)[id := Upload(owner, id, size, Reserved, expires)]
  {
    RecoverTotals(l, owner, now);
    RecoverRecordsRows(l, owner, now);
  }

  function Grown(u: Usage, size: nat): Usage {
    u.(committedBytes := u.committedBytes + size, committedDocuments := u.committedDocuments + 1)
  }

  lemma ReservedTotals(l: Ledger, owner: Owner, id: Id, size: nat, expires: int, now: int)
    requires HasRoom(l, owner, size) && id !in l.uploads
    ensures var u, after := Recount(l, owner), ReserveUpload(l, owner, id, id, size, expires, now).0;
            NoMore(Recount(after, owner),
                   u.(reservedBytes := u.reservedBytes + size, reservedDocuments := u.reservedDocuments + 1))
  {
    Admitted(l, owner, id, size, expires, now);
    RecoverTotals(l, owner, now);
    UploadAdded(Recover(l, owner, now), id, Upload(owner, id, size, Reserved, expires), owner);
  }

  /** What an upload under a fresh identifier does. */
  ghost predicate AddsDocument(l: Ledger, after: Ledger, owner: Owner, id: Id, size: nat) {
    && ExactFor(after, owner)
    && after.documents == l.documents[id := Document(owner, size)]
    && after.uploads.Keys == l.uploads.Keys + {id}
    && NoMore(Recount(after, owner), Grown(Recount(l, owner), size))
  }

  /** The live reservation of an upload whose document is not there yet. */
  ghost predicate HoldsPlace(l: Ledger, owner: Owner, id: Id, size: nat) {
    && id !in l.documents && id in l.uploads
    && l.uploads[id].owner == owner && l.uploads[id].document == id
    && l.uploads[id].bytes == size && l.uploads[id].state == Reserved
  }

  lemma CommitRows(l: Ledger, owner: Owner, id: Id, size: nat)
    requires HoldsPlace(l, owner, id, size)
    ensures var (after, outcome) := CommitUpload(l, owner, id, size, id);
            && outcome == Success
            && after.documents == l.documents[id := Document(owner, size)]
            && after.uploads.Keys == l.uploads.Keys
  {
  }

  lemma CommitMoves(l: Ledger, owner: Owner, id: Id, size: nat, before: Usage)
    requires HoldsPlace(l, owner, id, size)
    requires NoMore(Recount(l, owner), before.(reservedBytes := before.reservedBytes + size,
                                               reservedDocuments := before.reservedDocuments + 1))
    ensures NoMore(Recount(CommitUpload(l, owner, id, size, id).0, owner), Grown(before, size))
  {
    CommitRows(l, owner, id, size);
    CommitTotals(l, owner, id, size, id, owner);
  }

  /** The ledger of an upload between its two transactions. */
  ghost predicate InProgress(l: Ledger, reserved: Ledger, owner: Owner, id: Id, size: nat) {
    && HoldsPlace(reserved, owner, id, size) && ExactFor(reserved, owner)
    && reserved.documents == l.documents
    && reserved.uploads.Keys == l.uploads.Keys + {id}
    && var u := Recount(l, owner);
       NoMore(Recount(reserved, owner),
              u.(reservedBytes := u.reservedBytes + size, reservedDocuments := u.reservedDocuments + 1))
  }

  lemma ReserveRows(l: Ledger, owner: Owner, id: Id, size: nat, expires: int, now: int)
    requires HasRoom(l, owner, size) && id !in l.uploads && id !in l.documents
    ensures var reserved := ReserveUpload(l, owner, id, id, size, expires, now).0;
            && HoldsPlace(reserved, owner, id, size)
            && reserved.documents == l.documents
            && reserved.uploads.Keys == l.uploads.Keys + {id}
  {
    Admitted(l, owner, id, size, expires, now);
  }

  lemma ReserveStep(l: Ledger, owner: Owner, id: Id, size: nat, expires: int, now: int)
    requires ExactFor(l, owner) && HasRoom(l, owner, size) && id !in l.uploads && id !in l.documents
    ensures InProgress(l, ReserveUpload(l, owner, id, id, size, expires, now).0, owner, id, size)
  {
    ReserveRows(l, owner, id, size, expires, now);
    ReservedTotals(l, owner, id, size, expires, now);
    ReserveExact(l, owner, id, id, size, expires, now, owner);
  }

  lemma CommitStep(l: Ledger, reserved: Ledger, owner: Owner, id: Id, size: nat)
    requires InProgress(l, reserved, owner, id, size)
    ensures AddsDocument(l, CommitUpload(reserved, owner, id, size, id).0, owner, id, size)
  {
    CommitRows(reserved, owner, id, size);
    CommitMoves(reserved, owner, id, size, Recount(l, owner));
    CommitExact(reserved, owner, id, size, id, owner);
  }

  /** An upload with room under a fresh identifier adds its document, and the counters stay exact. */
  lemma Uploaded(l: Ledger, owner: Owner, id: Id, size: nat, expires: int, now: int)
    requires ExactFor(l, owner) && HasRoom(l, owner, size) && id !in l.uploads && id !in l.documents
    ensures Handled(l, UploadSteps(owner, id, size, expires, now))
    ensures AddsDocument(l, Run(l, UploadSteps(owner, id, size, expires, now)), owner, id, size)
  {
    var reserve, commit := Reserve(owner, id, id, size, expires, now), Commit(owner, id, size, id);
    var reserved := Apply(l, reserve);
    RunTwo(l, reserve, commit);
    ReserveStep(l, owner, id, size, expires, now);
    CommitStep(l, reserved, owner, id, size);
  }

  lemma StillOwns(l: Ledger, owner: Owner, other: Id)
    requires other in l.documents && l.documents[other].owner == owner
    ensures Recount(l, owner).committedDocuments != 0
  {
    assert other in SizesOf(l.documents, owner);
    assert |SizesOf(l.documents, owner)| != 0;
  }

  lemma DeletedOnce(l: Ledger, owner: Owner, id: Id)
    requires ExactFor(l, owner) && id in l.documents && l.documents[id].owner == owner
    ensures var once := DeleteDocument(l, owner, id).0;
            ExactFor(once, owner) && once.documents == l.documents - {id}
  {
    DeleteExact(l, owner, id, owner);
  }

  lemma LateAfterwards(once: Ledger, owner: Owner, id: Id, read: Document, other: Id)
    requires ExactFor(once, owner) && id !in once.documents
    requires other in once.documents && once.documents[other].owner == owner
    ensures !ExactFor(ApplyDelete(once, owner, id, read), owner)
  {
    StillOwns(once, owner, other);
    LateDeleteDrifts(once, owner, id, read);
  }

  lemma DeletedTwiceRun(l: Ledger, owner: Owner, id: Id, size: nat)
    ensures Handled(l, DeletedTwice(owner, id, size))
    ensures Run(l, DeletedTwice(owner, id, size))
            == ApplyDelete(DeleteDocument(l, owner, id).0, owner, id, Document(owner, size))
  {
    RunTwo(l, Delete(owner, id), LateDelete(owner, id, Document(owner, size)));
  }

  /** From exact counters, a document deleted twice while its owner keeps another one leaves the counters wrong. */
  lemma DeletedTwiceDrifts(l: Ledger, owner: Owner, id: Id, size: nat, other: Id)
    requires ExactFor(l, owner) && id in l.documents && l.documents[id] == Document(owner, size)
    requires other in l.documents && l.documents[other].owner == owner && other != id
    ensures Handled(l, DeletedTwice(owner, id, size))
    ensures !ExactFor(Run(l, DeletedTwice(owner, id, size)), owner)
  {
    var once := DeleteDocument(l, owner, id).0;
    DeletedTwiceRun(l, owner, id, size);
    DeletedOnce(l, owner, id);
    LateAfterwards(once, owner, id, Document(owner, size), other);
  }

  /** It happens from the empty tables: two uploads of one byte, then the first one deleted twice. */
  lemma DriftIsReachable(owner: Owner, id: Id, other: Id, expires: int, now: int)
    requires id != other
    ensures var run := UploadSteps(owner, id, 1, expires, now) + UploadSteps(owner, other, 1, expires, now)
                       + DeletedTwice(owner, id, 1);
            ExactFor(EMPTY, owner) && Handled(EMPTY, run) && !ExactFor(Run(EMPTY, run), owner)
  {
    NothingRecorded(owner);
    var first, second := UploadSteps(owner, id, 1, expires, now), UploadSteps(owner, other, 1, expires, now);
    var one := Run(EMPTY, first);
    Uploaded(EMPTY, owner, id, 1, expires, now);
    var two := Run(one, second);
    Uploaded(one, owner, other, 1, expires, now);
    RunAppend(EMPTY, first, second);
    DeletedTwiceDrifts(two, owner, id, 1, other);
    RunAppend(EMPTY, first + second, DeletedTwice(owner, id, 1));
  }
}
