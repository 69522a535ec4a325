/**
 What each quota transaction does, row by row and in numbers (api/database.go), without the functions that define
 recovery and admission.
 */
module QuotaLaws {
  import opened Cardinality
  import opened QuotaLedger
  import opened QuotaProperties

  // ----- What is still live at a given time

  ghost function LiveUploads(l: Ledger, owner: Owner, now: int): map<Id, nat> {
    map u | u in l.uploads && l.uploads[u].owner == owner && l.uploads[u].state == Reserved
        && l.uploads[u].expires > now
        :: l.uploads[u].bytes
  }

  ghost function LiveAnswers(l: Ledger, owner: Owner, now: int): set<Id> {
    set a | a in l.answers && l.answers[a].owner == owner && l.answers[a].state == Active && l.answers[a].expires > now
  }

  // ----- Recovery

  /** Recovery releases the owner's reservations that have expired, and nothing else. */
  lemma RecoverUploads(l: Ledger, owner: Owner, now: int, u: Id)
    requires u in l.uploads
    ensures var row, after := l.uploads[u], Recover(l, owner, now);
            && u in after.uploads
            && after.uploads[u] == if row.owner == owner && row.state == Reserved && row.expires <= now
                                   then row.(state := Released) else row
  {
  }

  lemma RecoverAnswers(l: Ledger, owner: Owner, now: int, a: Id)
    requires a in l.answers
    ensures var row, after := l.answers[a], Recover(l, owner, now);
            && a in after.answers
            && after.answers[a] == if row.owner == owner && row.state == Active && row.expires <= now
                                   then row.(state := Expired) else row
  {
  }

  /** Afterwards the counters are what is live. */
  lemma RecoverCounts(l: Ledger, owner: Owner, now: int)
    ensures Recorded(Recover(l, owner, now), owner)
            == Usage(Sum(SizesOf(l.documents, owner)), |SizesOf(l.documents, owner)|,
                     Sum(LiveUploads(l, owner, now)), |LiveUploads(l, owner, now)|, |LiveAnswers(l, owner, now)|)
  {
    var r := Recover(l, owner, now);
    RecoverRecordsRows(l, owner, now);
    assert ReservedBy(r.uploads, owner) == LiveUploads(l, owner, now);
    var active := ActiveBy(r.answers, owner);
    assert active.Keys == LiveAnswers(l, owner, now);
    assert |active| == |active.Keys|;
  }

  // ----- Admission

  /** An upload is admitted if and only if it is new and, with the owner's documents and live reservations, stays within
      10 GiB and 1000 documents. */
  lemma ReserveIff(l: Ledger, owner: Owner, id: Id, document: Id, size: nat, expires: int, now: int)
    ensures ReserveUpload(l, owner, id, document, size, expires, now).1 == Success <==>
              && id !in l.uploads
              && Sum(SizesOf(l.documents, owner)) + Sum(LiveUploads(l, owner, now)) + size <= 10 * 1024 * 1024 * 1024
              && |SizesOf(l.documents, owner)| + |LiveUploads(l, owner, now)| < 1000
  {
    RecoverCounts(l, owner, now);
  }

  /** A rejected upload changes nothing; an admitted one adds its reservation to the recovered rows. */
  lemma ReserveRows(l: Ledger, owner: Owner, id: Id, document: Id, size: nat, expires: int, now: int)
    ensures var (after, outcome) := ReserveUpload(l, owner, id, document, size, expires, now);
            && (outcome != Success ==> after == l)
            && (outcome == Success ==>
                  && after.documents == l.documents && after.answers == Recover(l, owner, now).answers
                  && after.uploads == Recover(l, owner,
                                              now).uploads[id := Upload(owner, document, size, Reserved, expires)])
  {
    AdmitRows(Recover(l, owner, now), owner, id, document, size, expires);
  }

  lemma AdmitRows(r: Ledger, owner: Owner, id: Id, document: Id, size: nat, expires: int)
    ensures var (after, outcome) := AdmitUpload(r, owner, id, document, size, expires);
            outcome == Success ==>
              && after.documents == r.documents && after.answers == r.answers
              && after.uploads == r.uploads[id := Upload(owner, document, size, Reserved, expires)]
  {
  }

  /** An answer is admitted if and only if it is new and the owner has fewer than two live ones. */
  lemma BeginIff(l: Ledger, owner: Owner, request: Id, expires: int, now: int)
    ensures BeginAnswer(l, owner, request, expires, now).1 == Success <==>
              request !in l.answers && |LiveAnswers(l, owner, now)| < 2
  {
    RecoverCounts(l, owner, now);
  }

  lemma BeginRows(l: Ledger, owner: Owner, request: Id, expires: int, now: int)
    ensures var (after, outcome) := BeginAnswer(l, owner, request, expires, now);
            && (outcome != Success ==> after == l)
            && (outcome == Success ==>
                  && after.documents == l.documents && after.uploads == Recover(l, owner, now).uploads
                  && after.answers == Recover(l, owner, now).answers[request := Answer(owner, Active, expires)])
  {
  }

  // ----- Settlement

  /** The end of an active answer takes exactly one off its owner's active answers and touches no other row. */
  lemma EndEffect(l: Ledger, request: Id, o: Owner)
    requires request in l.answers && l.answers[request].state == Active
    ensures var (after, outcome) := EndAnswer(l, request);
            var owner, u := l.answers[request].owner, Recount(l, o);
            && outcome == Success
            && Recount(after, o) == (if o == owner then u.(activeAnswers := u.activeAnswers - 1) else u)
            && request in after.answers && after.answers[request] == l.answers[request].(state := Finished)
            && after.answers - {request} == l.answers - {request}
            && after.documents == l.documents && after.uploads == l.uploads
  {
    AnswerSettled(l, request, Finished, o);
    assert EndAnswer(l, request).0.answers - {request} == l.answers - {request};
  }

  /** After the end of one of an owner's active answers, a new one is admitted at any time. */
  lemma EndMakesRoom(l: Ledger, request: Id, next: Id, expires: int, now: int)
    requires request in l.answers && l.answers[request].state == Active
    requires WithinLimits(Recount(l, l.answers[request].owner)) && next !in l.answers
    ensures BeginAnswer(EndAnswer(l, request).0, l.answers[request].owner, next, expires, now).1 == Success
  {
    var owner := l.answers[request].owner;
    var after := EndAnswer(l, request).0;
    EndEffect(l, request, owner);
    BeginIff(after, owner, next, expires, now);
    LiveIsActive(after, owner, now);
    assert next !in (after.answers - {request});
  }

  lemma LiveIsActive(l: Ledger, owner: Owner, now: int)
    ensures |LiveAnswers(l, owner, now)| <= Recount(l, owner).activeAnswers
  {
    var active := ActiveBy(l.answers, owner);
    assert |active| == |active.Keys|;
    SubsetSize(LiveAnswers(l, owner, now), active.Keys);
  }

  /** The release of a live reservation takes exactly its bytes and one document off its owner's reserved totals and
      touches no other row. */
  lemma ReleaseEffect(l: Ledger, id: Id, o: Owner)
    requires id in l.uploads && l.uploads[id].state == Reserved
    ensures var (after, outcome) := ReleaseUpload(l, id);
            var row, u := l.uploads[id], Recount(l, o);
            && outcome == Success
            && Recount(after, o) == (if o == row.owner
                                     then u.(reservedBytes := u.reservedBytes - row.bytes,
                                             reservedDocuments := u.reservedDocuments - 1)
                                     else u)
            && id in after.uploads && after.uploads[id] == row.(state := Released)
            && after.uploads - {id} == l.uploads - {id}
            && after.documents == l.documents && after.answers == l.answers
  {
    UploadSettled(l, id, Released, o);
    assert ReleaseUpload(l, id).0.uploads - {id} == l.uploads - {id};
  }

  /** A settlement that comes too late changes no row. */
  lemma LateSettlement(l: Ledger, id: Id)
    ensures id in l.uploads && l.uploads[id].state != Reserved ==>
              var after := ReleaseUpload(l, id).0;
              after.uploads == l.uploads && after.documents == l.documents && after.answers == l.answers
    ensures id in l.answers && l.answers[id].state != Active ==>
              var after := EndAnswer(l, id).0;
              after.uploads == l.uploads && after.documents == l.documents && after.answers == l.answers
    ensures id !in l.uploads ==> ReleaseUpload(l, id) == (l, NotFound)
    ensures id !in l.answers ==> EndAnswer(l, id) == (l, NotFound)
  {
  }

  /** A commit succeeds if and only if it names a live reservation of this owner and document, whether expired or not,
      and the document is new. It adds the document and settles the reservation; otherwise nothing changes. */
  lemma CommitIff(l: Ledger, owner: Owner, document: Id, size: nat, id: Id)
    ensures var (after, outcome) := CommitUpload(l, owner, document, size, id);
            && (outcome == Success <==>
                  && id in l.uploads && l.uploads[id].state == Reserved
                  && l.uploads[id].owner == owner && l.uploads[id].document == document
                  && document !in l.documents)
            && (outcome == Success ==>
                  && document in after.documents && after.documents[document] == Document(owner, size)
                  && after.documents - {document} == l.documents
                  && id in after.uploads && after.uploads[id] == l.uploads[id].(state := Committed)
                  && after.uploads - {id} == l.uploads - {id} && after.answers == l.answers)
            && (outcome != Success ==> after == l)
  {
    var (after, outcome) := CommitUpload(l, owner, document, size, id);
    if outcome == Success {
      assert after.documents - {document} == l.documents;
      assert after.uploads - {id} == l.uploads - {id};
    }
  }

  // ----- Deletion

  /** A deletion finds exactly the owner's documents, and takes exactly the row and its size away. */
  lemma DeleteEffect(l: Ledger, owner: Owner, id: Id, o: Owner)
    ensures var (after, outcome) := DeleteDocument(l, owner, id);
            && (outcome == Success <==> id in l.documents && l.documents[id].owner == owner)
            && (outcome != Success ==> after == l)
            && (outcome == Success ==>
                  && id !in after.documents && after.documents == l.documents - {id}
                  && after.uploads == l.uploads && after.answers == l.answers
                  && var u := Recount(l, o);
                     Recount(after, o) == if o == owner
                                          then u.(committedBytes := u.committedBytes - l.documents[id].size,
                                                  committedDocuments := u.committedDocuments - 1)
                                          else u)
  {
    if id in l.documents && l.documents[id].owner == owner { DocumentRemoved(l, id, o); }
  }
}
