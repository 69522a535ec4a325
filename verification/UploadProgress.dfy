/** What the handlers get done when they are left to themselves, over the steps of UploadProtocol. */
module UploadProgress {
  import opened QuotaLedger
  import opened QuotaProperties
  import opened QuotaLaws
  import opened UploadProtocol

  lemma TraceThree(w: World, a: Action, b: Action, c: Action)
    ensures Trace(w, [a, b, c]) == Next(Next(Next(w, a), b), c)
  {
    var none: seq<Action>, one, two := [], [c], [b, c];
    assert [a, b, c][1..] == two && two[1..] == one && one[1..] == none;
    var x := Next(w, a);
    var y := Next(x, b);
    assert Trace(y, one) == Trace(Next(y, c), none) == Next(y, c);
    assert Trace(x, two) == Trace(y, one);
  }

  /** An upload that the quota admits ends with its document row and its object. */
  lemma UploadCompletes(w: World, owner: Owner, id: Id, size: nat, expires: int, now: int)
    requires ReserveUpload(w.ledger, owner, id, id, size, expires, now).1 == Success && id !in w.ledger.documents
    ensures var v := Trace(w, [ReserveIt(owner, id, size, expires, now), PutObject(id), CommitIt(id)]);
            && id in v.ledger.documents && v.ledger.documents[id] == Document(owner, size)
            && v.ledger.documents - {id} == w.ledger.documents
            && v.objects == w.objects + {id}
            && id in v.ledger.uploads && v.ledger.uploads[id].state == Committed
  {
    var reserve := ReserveIt(owner, id, size, expires, now);
    TraceThree(w, reserve, PutObject(id), CommitIt(id));
    QuotaLaws.ReserveRows(w.ledger, owner, id, id, size, expires, now);
    var reserved := Next(w, reserve);
    var stored := Next(reserved, PutObject(id));
    assert stored.uploads[id] == Handler(Stored, owner, size);
    CommitIff(reserved.ledger, owner, id, size, id);
  }

  /** An upload whose write failed gives its reservation back, and leaves rows and objects as they were. */
  lemma FailedUploadGivesBack(w: World, owner: Owner, id: Id, size: nat, expires: int, now: int)
    requires ReserveUpload(w.ledger, owner, id, id, size, expires, now).1 == Success
    ensures var v := Trace(w, [ReserveIt(owner, id, size, expires, now), PutFails(id, false), ReleaseIt(id)]);
            && v.ledger.documents == w.ledger.documents && v.objects == w.objects
            && id in v.ledger.uploads && v.ledger.uploads[id].state == Released
  {
    var reserve := ReserveIt(owner, id, size, expires, now);
    TraceThree(w, reserve, PutFails(id, false), ReleaseIt(id));
    QuotaLaws.ReserveRows(w.ledger, owner, id, id, size, expires, now);
    var reserved := Next(w, reserve);
    var failed := Next(reserved, PutFails(id, false));
    assert failed.uploads[id].phase == Releasing && failed.ledger == reserved.ledger;
    ReleaseEffect(reserved.ledger, id, owner);
  }

  /** An upload whose reservation was gone before the commit removes its object. */
  lemma LateUploadUndone(w: World, id: Id)
    requires At(w, id, Stored) && id in w.ledger.uploads && w.ledger.uploads[id].state == Released
    ensures var v := Trace(w, [CommitIt(id), UndoObject(id, true), ReleaseIt(id)]);
            && v.ledger.documents == w.ledger.documents && v.objects == w.objects - {id}
            && v.ledger.uploads == w.ledger.uploads
  {
    TraceThree(w, CommitIt(id), UndoObject(id, true), ReleaseIt(id));
    CommitIff(w.ledger, w.uploads[id].owner, id, w.uploads[id].size, id);
    LateSettlement(w.ledger, id);
  }

  /** A deletion removes the row and then the object. */
  lemma DeletionCompletes(w: World, owner: Owner, id: Id, read: Document)
    requires id in w.ledger.documents
    ensures var v := Trace(w, [ReadRow(id), DeleteRow(owner, id, read), DeleteObject(id)]);
            v.ledger.documents == w.ledger.documents - {id} && v.objects == w.objects - {id}
  {
    TraceThree(w, ReadRow(id), DeleteRow(owner, id, read), DeleteObject(id));
  }

  /** Reconciliation removes an object that nothing refers to, and no other. */
  lemma OrphanCollected(w: World, id: Id)
    requires id in w.objects && id !in w.ledger.documents
    requires forall u | u in w.ledger.uploads && w.ledger.uploads[u].document == id ::
               w.ledger.uploads[u].state != Reserved
    ensures var v := Trace(w, [ListObject(id), CheckReference(id), DeleteOrphan(id)]);
            v.objects == w.objects - {id} && v.ledger == w.ledger
  {
    TraceThree(w, ListObject(id), CheckReference(id), DeleteOrphan(id));
  }
}
