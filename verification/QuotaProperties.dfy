/**
 What the quota transactions guarantee over whole runs: the limits hold whatever the counters say,
 the counters stay exact when nothing is interleaved with a deletion, and every reservation is
 settled once.
 */
module QuotaProperties {
  import opened QuotaLedger

  // ----- Quota safety, from the rows

  ghost predicate WithinLimits(u: Usage) {
    && u.committedBytes + u.reservedBytes <= MAX_OWNER_STORAGE
    && u.committedDocuments + u.reservedDocuments <= MAX_OWNER_DOCUMENTS
    && u.activeAnswers <= MAX_ACTIVE_ANSWERS
  }

  ghost predicate Safe(l: Ledger) {
    forall owner :: WithinLimits(Recount(l, owner))
  }

  datatype Step =
    | Reserve(owner: Owner, reservation: Id, document: Id, size: nat, expires: int, now: int)
    | Commit(owner: Owner, document: Id, size: nat, reservation: Id)
    | Release(reservation: Id)
    | Begin(owner: Owner, request: Id, expires: int, now: int)
    | End(request: Id)
    | RecoverOwner(owner: Owner, now: int)
    | Delete(owner: Owner, document: Id)
    | LateDelete(owner: Owner, document: Id, read: Document)
    | Drift(usages: map<Owner, Usage>)

  ghost function Apply(l: Ledger, step: Step): Ledger {
    match step
    case Reserve(owner, reservation, document, size, expires, now) =>
      ReserveUpload(l, owner, reservation, document, size, expires, now).0
    case Commit(owner, document, size, reservation) => CommitUpload(l, owner, document, size, reservation).0
    case Release(reservation) => ReleaseUpload(l, reservation).0
    case Begin(owner, request, expires, now) => BeginAnswer(l, owner, request, expires, now).0
    case End(request) => EndAnswer(l, request).0
    case RecoverOwner(owner, now) => Recover(l, owner, now)
    case Delete(owner, document) => DeleteDocument(l, owner, document).0
    case LateDelete(owner, document, read) => ApplyDelete(l, owner, document, read)
    case Drift(usages) => l.(usages := usages)
  }

  /** The handler reserves and commits the same file size. */
  ghost predicate SameSize(l: Ledger, step: Step) {
    step.Commit? && step.reservation in l.uploads ==> step.size == l.uploads[step.reservation].bytes
  }

  lemma AdmitSafe(r: Ledger, owner: Owner, reservation: Id, document: Id, size: nat, expires: int, o: Owner)
    requires WithinLimits(Recount(r, o)) && ExactFor(r, owner)
    ensures WithinLimits(Recount(AdmitUpload(r, owner, reservation, document, size, expires).0, o))
  {
    if AdmitUpload(r, owner, reservation, document, size, expires).1 == Success {
      UploadAdded(r, reservation, Upload(owner, document, size, Reserved, expires), o);
    }
  }

  lemma ReserveSafe(l: Ledger, owner: Owner, reservation: Id, document: Id, size: nat, expires: int, now: int, o: Owner)
    requires WithinLimits(Recount(l, o))
    ensures WithinLimits(Recount(ReserveUpload(l, owner, reservation, document, size, expires, now).0, o))
  {
    RecoverRecordsRows(l, owner, now);
    RecoverSafe(l, owner, now, o);
    AdmitSafe(Recover(l, owner, now), owner, reservation, document, size, expires, o);
  }

  lemma BeginSafe(l: Ledger, owner: Owner, request: Id, expires: int, now: int, o: Owner)
    requires WithinLimits(Recount(l, o))
    ensures WithinLimits(Recount(BeginAnswer(l, owner, request, expires, now).0, o))
  {
    var r := Recover(l, owner, now);
    RecoverRecordsRows(l, owner, now);
    RecoverSafe(l, owner, now, o);
    if request !in r.answers && Recorded(r, owner).activeAnswers < MAX_ACTIVE_ANSWERS {
      AnsweringSafe(r, owner, request, expires, o);
    }
  }

  lemma AnsweringSafe(r: Ledger, owner: Owner, request: Id, expires: int, o: Owner)
    requires WithinLimits(Recount(r, o)) && ExactFor(r, owner) && request !in r.answers
    requires Recorded(r, owner).activeAnswers < MAX_ACTIVE_ANSWERS
    ensures WithinLimits(Totals(r.documents, r.uploads, r.answers[request := Answer(owner, Active, expires)], o))
  {
    AnswerAdded(r, request, Answer(owner, Active, expires), o);
  }

  lemma CommitSafe(l: Ledger, owner: Owner, document: Id, size: nat, reservation: Id, o: Owner)
    requires WithinLimits(Recount(l, o))
    requires reservation in l.uploads ==> size == l.uploads[reservation].bytes
    ensures WithinLimits(Recount(CommitUpload(l, owner, document, size, reservation).0, o))
  {
    if CommitUpload(l, owner, document, size, reservation).1 == Success {
      CommitTotals(l, owner, document, size, reservation, o);
    }
  }

  lemma ReleaseSafe(l: Ledger, id: Id, o: Owner)
    requires WithinLimits(Recount(l, o))
    ensures WithinLimits(Recount(ReleaseUpload(l, id).0, o))
  {
    if id in l.uploads && l.uploads[id].state == Reserved { UploadSettled(l, id, Released, o); }
  }

  lemma EndSafe(l: Ledger, id: Id, o: Owner)
    requires WithinLimits(Recount(l, o))
    ensures WithinLimits(Recount(EndAnswer(l, id).0, o))
  {
    if id in l.answers && l.answers[id].state == Active { AnswerSettled(l, id, Finished, o); }
  }

  lemma RecoverSafe(l: Ledger, owner: Owner, now: int, o: Owner)
    requires WithinLimits(Recount(l, o))
    ensures WithinLimits(Recount(Recover(l, owner, now), o))
  {
    if o == owner { RecoverTotals(l, owner, now); } else { RecoverOthers(l, owner, now, o); }
  }

  lemma DeleteSafe(l: Ledger, owner: Owner, id: Id, read: Document, o: Owner)
    requires WithinLimits(Recount(l, o))
    ensures WithinLimits(Recount(ApplyDelete(l, owner, id, read), o))
  {
    if id in l.documents { DocumentRemoved(l, id, o); } else { assert l.documents - {id} == l.documents; }
  }

  lemma StepSafeFor(l: Ledger, step: Step, o: Owner)
    requires WithinLimits(Recount(l, o)) && SameSize(l, step)
    ensures WithinLimits(Recount(Apply(l, step), o))
  {
    match step
    case Reserve(owner, reservation, document, size, expires, now) =>
      ReserveSafe(l, owner, reservation, document, size, expires, now, o);
    case Begin(owner, request, expires, now) => BeginSafe(l, owner, request, expires, now, o);
    case Commit(owner, document, size, reservation) => CommitSafe(l, owner, document, size, reservation, o);
    case Release(id) => ReleaseSafe(l, id, o);
    case End(id) => EndSafe(l, id, o);
    case RecoverOwner(owner, now) => RecoverSafe(l, owner, now, o);
    case Delete(owner, id) => if id in l.documents { DeleteSafe(l, owner, id, l.documents[id], o); }
    case LateDelete(owner, id, read) => DeleteSafe(l, owner, id, read, o);
    case Drift(_) =>
  }

  lemma StepSafe(l: Ledger, step: Step)
    requires Safe(l) && SameSize(l, step)
    ensures Safe(Apply(l, step))
  {
    forall o ensures WithinLimits(Recount(Apply(l, step), o)) {
      assert WithinLimits(Recount(l, o));
      StepSafeFor(l, step, o);
    }
  }

  // ----- Runs

  ghost function Run(l: Ledger, steps: seq<Step>): Ledger
    decreases |steps|
  {
    if steps == [] then l else Run(Apply(l, steps[0]), steps[1..])
  }

  ghost predicate Handled(l: Ledger, steps: seq<Step>)
    decreases |steps|
  {
    steps == [] || (SameSize(l, steps[0]) && Handled(Apply(l, steps[0]), steps[1..]))
  }

  lemma {:induction false} RunAppend(l: Ledger, steps: seq<Step>, more: seq<Step>)
    ensures Run(l, steps + more) == Run(Run(l, steps), more)
    ensures Handled(l, steps + more) <==> Handled(l, steps) && Handled(Run(l, steps), more)
    decreases |steps|
  {
    if steps == [] {
      assert steps + more == more;
    } else {
      assert (steps + more)[1..] == steps[1..] + more;
      RunAppend(Apply(l, steps[0]), steps[1..], more);
    }
  }

  lemma RunOne(l: Ledger, step: Step)
    ensures Run(l, [step]) == Apply(l, step) && (Handled(l, [step]) <==> SameSize(l, step))
  {
    var none: seq<Step> := [];
    assert [step][1..] == none;
    assert Run(Apply(l, step), none) == Apply(l, step) && Handled(Apply(l, step), none);
  }

  lemma NothingRecorded(owner: Owner)
    ensures Recount(EMPTY, owner) == NO_USAGE
  {
    assert SizesOf(EMPTY.documents, owner) == map[];
    assert ReservedBy(EMPTY.uploads, owner) == map[];
    assert ActiveBy(EMPTY.answers, owner) == map[];
  }

  /** Quota safety: from a state within the limits, no run leaves them, whatever happens to the counters. */
  lemma {:induction false} RunSafe(l: Ledger, steps: seq<Step>)
    requires Safe(l) && Handled(l, steps)
    ensures Safe(Run(l, steps))
    decreases |steps|
  {
    if steps != [] {
      StepSafe(l, steps[0]);
      RunSafe(Apply(l, steps[0]), steps[1..]);
    }
  }

  // ----- Ledger exactness

  ghost predicate Atomic(step: Step) {
    !step.LateDelete? && !step.Drift?
  }

  lemma RecoverExact(l: Ledger, owner: Owner, now: int, o: Owner)
    requires o != owner ==> ExactFor(l, o)
    ensures ExactFor(Recover(l, owner, now), o)
  {
    if o == owner { RecoverRecordsRows(l, owner, now); } else { RecoverOthers(l, owner, now, o); }
  }

  lemma TotalsNotNegative(l: Ledger, owner: Owner)
    ensures var u := Recount(l, owner);
            u.committedBytes >= 0 && u.committedDocuments >= 0 && u.reservedBytes >= 0 && u.reservedDocuments >= 0
                && u.activeAnswers >= 0
  {
  }

  lemma CommitTotals(l: Ledger, owner: Owner, document: Id, size: nat, reservation: Id, o: Owner)
    requires CommitUpload(l, owner, document, size, reservation).1 == Success
    ensures Recount(CommitUpload(l, owner, document, size, reservation).0, o) ==
              var u, bytes := Recount(l, o), l.uploads[reservation].bytes;
              if o == owner then Usage(u.committedBytes + size, u.committedDocuments + 1, u.reservedBytes - bytes,
                                       u.reservedDocuments - 1, u.activeAnswers) else u
  {
    var settled := l.(uploads := l.uploads[reservation := l.uploads[reservation].(state := Committed)]);
    UploadSettled(l, reservation, Committed, o);
    DocumentAdded(settled, document, Document(owner, size), o);
  }

  lemma AdmitExact(r: Ledger, owner: Owner, reservation: Id, document: Id, size: nat, expires: int, o: Owner)
    requires ExactFor(r, o)
    ensures ExactFor(AdmitUpload(r, owner, reservation, document, size, expires).0, o)
  {
    if AdmitUpload(r, owner, reservation, document, size, expires).1 == Success {
      UploadAdded(r, reservation, Upload(owner, document, size, Reserved, expires), o);
    }
  }

  lemma ReserveExact(l: Ledger, owner: Owner, reservation: Id, document: Id, size: nat, expires: int, now: int,
                     o: Owner)
    requires ExactFor(l, o)
    ensures ExactFor(ReserveUpload(l, owner, reservation, document, size, expires, now).0, o)
  {
    RecoverExact(l, owner, now, o);
    AdmitExact(Recover(l, owner, now), owner, reservation, document, size, expires, o);
  }

  lemma BeginExact(l: Ledger, owner: Owner, request: Id, expires: int, now: int, o: Owner)
    requires ExactFor(l, o)
    ensures ExactFor(BeginAnswer(l, owner, request, expires, now).0, o)
  {
    RecoverExact(l, owner, now, o);
    var r := Recover(l, owner, now);
    if request !in r.answers { AnswerAdded(r, request, Answer(owner, Active, expires), o); }
  }

  lemma CommitExact(l: Ledger, owner: Owner, document: Id, size: nat, reservation: Id, o: Owner)
    requires ExactFor(l, o)
    requires reservation in l.uploads ==> size == l.uploads[reservation].bytes
    ensures ExactFor(CommitUpload(l, owner, document, size, reservation).0, o)
  {
    if CommitUpload(l, owner, document, size, reservation).1 == Success {
      CommitTotals(l, owner, document, size, reservation, o);
    }
  }

  /** The clamps of a release never bite: an exact table holds at least what is subtracted. */
  lemma ReleaseExact(l: Ledger, id: Id, o: Owner)
    requires ExactFor(l, o)
    ensures ExactFor(ReleaseUpload(l, id).0, o)
    ensures id in l.uploads && l.uploads[id].state == Reserved && l.uploads[id].owner == o ==>
              Recorded(l, o).reservedBytes >= l.uploads[id].bytes && Recorded(l, o).reservedDocuments >= 1
  {
    if id in l.uploads && l.uploads[id].state == Reserved {
      UploadSettled(l, id, Released, o);
      TotalsNotNegative(ReleaseUpload(l, id).0, o);
    }
  }

  lemma EndExact(l: Ledger, id: Id, o: Owner)
    requires ExactFor(l, o)
    ensures ExactFor(EndAnswer(l, id).0, o)
    ensures id in l.answers && l.answers[id].state == Active && l.answers[id].owner == o
            ==> Recorded(l, o).activeAnswers >= 1
  {
    if id in l.answers && l.answers[id].state == Active {
      AnswerSettled(l, id, Finished, o);
      TotalsNotNegative(EndAnswer(l, id).0, o);
    }
  }

  /** The counters after the second half of a deletion. */
  lemma DeleteRecorded(l: Ledger, owner: Owner, id: Id, read: Document, o: Owner)
    ensures Recorded(ApplyDelete(l, owner, id, read), o)
            == if o == owner && owner in l.usages
               then Recorded(l, o).(committedBytes := Clamp(Recorded(l, o).committedBytes - read.size),
                                    committedDocuments := Clamp(Recorded(l, o).committedDocuments - 1))
               else Recorded(l, o)
    ensures Recount(ApplyDelete(l, owner, id, read), o) == Totals(l.documents - {id}, l.uploads, l.answers, o)
  {
  }

  lemma DeleteExact(l: Ledger, owner: Owner, id: Id, o: Owner)
    requires ExactFor(l, o)
    ensures ExactFor(DeleteDocument(l, owner, id).0, o)
    ensures id in l.documents && l.documents[id].owner == owner == o ==>
              Recorded(l, o).committedBytes >= l.documents[id].size && Recorded(l, o).committedDocuments >= 1
  {
    if id in l.documents && l.documents[id].owner == owner {
      DocumentRemoved(l, id, o);
      DeleteRecorded(l, owner, id, l.documents[id], o);
      TotalsNotNegative(ApplyDelete(l, owner, id, l.documents[id]), o);
    }
  }

  /** Every transaction keeps the five counters of every owner equal to the row totals. */
  lemma StepExactFor(l: Ledger, step: Step, o: Owner)
    requires ExactFor(l, o) && SameSize(l, step) && Atomic(step)
    ensures ExactFor(Apply(l, step), o)
  {
    match step
    case Reserve(owner, reservation, document, size, expires, now) =>
      ReserveExact(l, owner, reservation, document, size, expires, now, o);
    case Begin(owner, request, expires, now) => BeginExact(l, owner, request, expires, now, o);
    case Commit(owner, document, size, reservation) => CommitExact(l, owner, document, size, reservation, o);
    case Release(id) => ReleaseExact(l, id, o);
    case End(id) => EndExact(l, id, o);
    case RecoverOwner(owner, now) => RecoverExact(l, owner, now, o);
    case Delete(owner, id) => DeleteExact(l, owner, id, o);
  }

  lemma StepExact(l: Ledger, step: Step)
    requires Exact(l) && SameSize(l, step) && Atomic(step)
    ensures Exact(Apply(l, step))
  {
    forall o ensures ExactFor(Apply(l, step), o) {
      assert ExactFor(l, o);
      StepExactFor(l, step, o);
    }
  }

  /** Exactness needs the handler to commit the size it reserved: a commit keeps the owner's counters exact if and only
      if it does. */
  lemma CommitExactIffSameSize(l: Ledger, owner: Owner, document: Id, size: nat, reservation: Id)
    requires ExactFor(l, owner)
    requires CommitUpload(l, owner, document, size, reservation).1 == Success
    ensures ExactFor(CommitUpload(l, owner, document, size, reservation).0, owner)
            <==> size == l.uploads[reservation].bytes
  {
    CommitTotals(l, owner, document, size, reservation, owner);
  }

  lemma {:induction false} RunExact(l: Ledger, steps: seq<Step>)
    requires Exact(l) && Handled(l, steps) && forall step | step in steps :: Atomic(step)
    ensures Exact(Run(l, steps))
    decreases |steps|
  {
    if steps != [] {
      StepExact(l, steps[0]);
      RunExact(Apply(l, steps[0]), steps[1..]);
    }
  }

  /** The two halves of a deletion need not be atomic for the limits, but they must be for the counters: applying
      a deletion whose row is gone keeps the owner's counters exact if and only if the owner has no documents left. */
  lemma LateDeleteDrifts(l: Ledger, owner: Owner, document: Id, read: Document)
    requires ExactFor(l, owner) && document !in l.documents
    ensures ExactFor(ApplyDelete(l, owner, document, read), owner) <==> Recount(l, owner).committedDocuments == 0
  {
    assert l.documents - {document} == l.documents;
    DeleteRecorded(l, owner, document, read, owner);
    NoDocumentsNoBytes(l, owner);
    var before, after := Recorded(l, owner), Recorded(ApplyDelete(l, owner, document, read), owner);
    if owner in l.usages {
      OneLess(before, after, read.size);
    }
  }

  lemma OneLess(before: Usage, after: Usage, size: nat)
    requires before.committedDocuments >= 0 && (before.committedDocuments == 0 ==> before.committedBytes == 0)
    requires after == before.(committedBytes := Clamp(before.committedBytes - size),
                              committedDocuments := Clamp(before.committedDocuments - 1))
    ensures after == before <==> before.committedDocuments == 0
  {
  }

  lemma NoDocumentsNoBytes(l: Ledger, owner: Owner)
    ensures var u := Recount(l, owner);
            u.committedDocuments == 0 ==> u.committedBytes == 0
  {
    var sizes := SizesOf(l.documents, owner);
    assert |sizes| == |sizes.Keys|;
    assert sizes.Keys == {} ==> sizes == map[];
  }

  // ----- Recovery

  ghost predicate NothingDue(l: Ledger, owner: Owner, now: int) {
    && (forall u | u in l.uploads :: ReleaseIfExpired(l.uploads[u], owner, now) == l.uploads[u])
    && (forall a | a in l.answers :: ExpireIfDue(l.answers[a], owner, now) == l.answers[a])
  }

  /** Recovery leaves nothing due, so a second recovery at the same time changes nothing. */
  lemma RecoverIdempotent(l: Ledger, owner: Owner, now: int)
    ensures NothingDue(Recover(l, owner, now), owner, now)
    ensures Recover(Recover(l, owner, now), owner, now) == Recover(l, owner, now)
  {
    var r := Recover(l, owner, now);
    RecoverRecordsRows(l, owner, now);
    RecoverNothing(r, owner, now);
  }

  /** With nothing due and the owner's counters right, recovery is the identity on that owner's row and on all other
      rows. */
  lemma RecoverNothing(l: Ledger, owner: Owner, now: int)
    requires NothingDue(l, owner, now)
    requires ExactFor(l, owner)
    ensures Recover(l, owner, now) == Locked(l, owner)
    ensures owner in l.usages ==> Recover(l, owner, now) == l
  {
    var r := Recover(l, owner, now);
    assert r.uploads == l.uploads && r.answers == l.answers;
    if owner in l.usages { assert r.usages == l.usages; }
  }

  ghost predicate HasRows(l: Ledger, owner: Owner) {
    || owner in l.usages
    || (exists d :: d in l.documents && l.documents[d].owner == owner)
    || (exists u :: u in l.uploads && l.uploads[u].owner == owner)
    || (exists a :: a in l.answers && l.answers[a].owner == owner)
  }

  /** Start-up recovery repairs any counters: it visits every owner that any table mentions. */
  lemma {:induction false} RecoverEachRepairs(l: Ledger, owners: seq<Owner>, now: int)
    requires forall o | HasRows(l, o) :: o in owners || ExactFor(l, o)
    ensures Exact(RecoverEach(l, owners, now))
    decreases |owners|
  {
    if owners == [] {
      forall o ensures ExactFor(l, o) {
        if !HasRows(l, o) { NoRowsExact(l, o); }
      }
    } else {
      var r := Recover(l, owners[0], now);
      forall o | HasRows(r, o) ensures o in owners[1..] || ExactFor(r, o) {
        SameOwners(l, owners[0], now, o);
        if o !in owners[1..] { RecoverExact(l, owners[0], now, o); }
      }
      RecoverEachRepairs(r, owners[1..], now);
    }
  }

  lemma NoRowsExact(l: Ledger, o: Owner)
    requires !HasRows(l, o)
    ensures ExactFor(l, o)
  {
    assert SizesOf(l.documents, o) == map[];
    assert ReservedBy(l.uploads, o) == map[];
    assert ActiveBy(l.answers, o) == map[];
  }

  lemma SameOwners(l: Ledger, owner: Owner, now: int, o: Owner)
    ensures o != owner ==> HasRows(Recover(l, owner, now), o) == HasRows(l, o)
  {
    var r := Recover(l, owner, now);
    assert forall u :: u in r.uploads <==> u in l.uploads;
    assert forall u | u in l.uploads :: r.uploads[u].owner == l.uploads[u].owner;
    assert forall a | a in l.answers :: r.answers[a].owner == l.answers[a].owner;
  }

  // ----- Settle once

  /** A reservation row is never removed, never changes identity, and never moves once settled. */
  ghost predicate UploadsSettle(before: map<Id, Upload>, after: map<Id, Upload>) {
    forall u | u in before ::
      && u in after
      && after[u] == before[u].(state := after[u].state)
      && (before[u].state != Reserved ==> after[u] == before[u])
  }

  ghost predicate AnswersSettle(before: map<Id, Answer>, after: map<Id, Answer>) {
    forall a | a in before ::
      && a in after
      && after[a] == before[a].(state := after[a].state)
      && (before[a].state != Active ==> after[a] == before[a])
  }

  ghost predicate Settling(before: Ledger, after: Ledger) {
    UploadsSettle(before.uploads, after.uploads) && AnswersSettle(before.answers, after.answers)
  }

  lemma RecoverSettling(l: Ledger, owner: Owner, now: int)
    ensures Settling(l, Recover(l, owner, now))
  {
  }

  lemma ReserveSettling(l: Ledger, owner: Owner, reservation: Id, document: Id, size: nat, expires: int, now: int)
    ensures Settling(l, ReserveUpload(l, owner, reservation, document, size, expires, now).0)
  {
    RecoverSettling(l, owner, now);
  }

  lemma BeginSettling(l: Ledger, owner: Owner, request: Id, expires: int, now: int)
    ensures Settling(l, BeginAnswer(l, owner, request, expires, now).0)
  {
    RecoverSettling(l, owner, now);
  }

  lemma CommitSettling(l: Ledger, owner: Owner, document: Id, size: nat, reservation: Id)
    ensures Settling(l, CommitUpload(l, owner, document, size, reservation).0)
  {
  }

  lemma ReleaseSettling(l: Ledger, reservation: Id)
    ensures Settling(l, ReleaseUpload(l, reservation).0)
  {
  }

  lemma EndSettling(l: Ledger, request: Id)
    ensures Settling(l, EndAnswer(l, request).0)
  {
  }

  lemma StepSettling(l: Ledger, step: Step)
    ensures Settling(l, Apply(l, step))
  {
    match step
    case Reserve(owner, reservation, document, size, expires, now) =>
      ReserveSettling(l, owner, reservation, document, size, expires, now);
    case Begin(owner, request, expires, now) => BeginSettling(l, owner, request, expires, now);
    case RecoverOwner(owner, now) => RecoverSettling(l, owner, now);
    case Commit(owner, document, size, reservation) => CommitSettling(l, owner, document, size, reservation);
    case Release(reservation) => ReleaseSettling(l, reservation);
    case End(request) => EndSettling(l, request);
    case _ =>
  }

  /** Over any run a reservation leaves `reserved` or `active` at most once: whatever it settled as, it stays. */
  lemma {:induction false} RunSettling(l: Ledger, steps: seq<Step>)
    ensures Settling(l, Run(l, steps))
    decreases |steps|
  {
    if steps != [] {
      StepSettling(l, steps[0]);
      RunSettling(Apply(l, steps[0]), steps[1..]);
    }
  }
}
