/**
 The quota transactions as the store performs them, row by row (api/database.go). Each method holds the
 owner's usage lock for its whole body, so it runs alone on that owner's rows; an error return restores
 every row it touched.
 */
module QuotaStore {
  import opened Cardinality
  import opened QuotaLedger

  class Store {
    var documents: map<Id, Document>
    var uploads: map<Id, Upload>
    var answers: map<Id, Answer>
    var usages: map<Owner, Usage>

    constructor ()
      ensures State() == Ledger(map[], map[], map[], map[])
    {
      documents, uploads, answers, usages := map[], map[], map[], map[];
    }

    function State(): Ledger
      reads this
    {
      Ledger(documents, uploads, answers, usages)
    }

    /** Puts every table back to where the transaction found it. */
    method Rollback(before: Ledger)
      modifies this
      ensures State() == before
    {
      documents, uploads, answers, usages := before.documents, before.uploads, before.answers, before.usages;
    }

    method LockOwnerUsage(owner: Owner)
      modifies this`usages
      ensures State() == Locked(old(State()), owner)
    {
      if owner !in usages {
        usages := usages[owner := NO_USAGE];
      }
      assert usages == old(usages)[owner := Recorded(old(State()), owner)];
    }

    method ReleaseExpired(owner: Owner, now: int)
      modifies this`uploads
      ensures uploads == ReleaseDue(old(uploads), owner, now)
    {
      var due := set u | u in uploads && uploads[u].owner == owner && uploads[u].state == Reserved
          && uploads[u].expires <= now;
      while due != {}
        invariant uploads.Keys == old(uploads).Keys
        invariant forall u | u in uploads :: u in due ==> uploads[u] == old(uploads)[u]
        invariant forall u | u in uploads :: u !in due ==> uploads[u] == ReleaseIfExpired(old(uploads)[u], owner, now)
        invariant due <= uploads.Keys
        decreases due
      {
        var u :| u in due;
        if uploads[u].state == Reserved && uploads[u].expires <= now {
          uploads := uploads[u := uploads[u].(state := Released)];
        }
        due := due - {u};
      }
    }

    method ExpireAnswers(owner: Owner, now: int)
      modifies this`answers
      ensures answers == ExpireDue(old(answers), owner, now)
    {
      var due := set a | a in answers && answers[a].owner == owner && answers[a].state == Active
          && answers[a].expires <= now;
      while due != {}
        invariant answers.Keys == old(answers).Keys
        invariant forall a | a in answers :: a in due ==> answers[a] == old(answers)[a]
        invariant forall a | a in answers :: a !in due ==> answers[a] == ExpireIfDue(old(answers)[a], owner, now)
        invariant due <= answers.Keys
        decreases due
      {
        var a :| a in due;
        if answers[a].state == Active && answers[a].expires <= now {
          answers := answers[a := answers[a].(state := Expired)];
        }
        due := due - {a};
      }
    }

    /** The body of the recovery loop, for one owner. */
    method RecoverOwner(owner: Owner, now: int)
      modifies this
      ensures State() == Recover(old(State()), owner, now)
    {
      LockOwnerUsage(owner);
      ReleaseExpired(owner, now);
      ExpireAnswers(owner, now);
      var counted := CountRows(documents, uploads, answers, owner);
      UpdateTwice(old(usages), owner, usages[owner], counted);
      usages := usages[owner := counted];
    }

    /** How admission begins: the lock, then the owner-scoped recovery, which takes it again. */
    method LockAndRecover(owner: Owner, now: int)
      modifies this
      ensures State() == Recover(old(State()), owner, now)
      ensures owner in usages
    {
      LockedRecover(State(), owner, now);
      LockOwnerUsage(owner);
      RecoverOwner(owner, now);
    }

    method RecoverExpiredReservations(owners: seq<Owner>, now: int)
      modifies this
      ensures State() == RecoverEach(old(State()), owners, now)
    {
      for i := 0 to |owners|
        invariant RecoverEach(old(State()), owners, now) == RecoverEach(State(), owners[i..], now)
      {
        assert owners[i..][1..] == owners[i + 1..];
        RecoverOwner(owners[i], now);
      }
    }

    /** The checks and updates that follow recovery; they leave no trace unless they succeed. */
    method AdmitReservation(owner: Owner, reservation: Id, document: Id, size: nat, expires: int)
      returns (outcome: Outcome)
      requires owner in usages
      modifies this
      ensures (State(), outcome) == AdmitUpload(old(State()), owner, reservation, document, size, expires)
    {
      var usage := usages[owner];
      if usage.committedBytes + usage.reservedBytes + size > MAX_OWNER_STORAGE
         || usage.committedDocuments + usage.reservedDocuments + 1 > MAX_OWNER_DOCUMENTS {
        return QuotaExceeded;
      }
      if reservation in uploads {
        return DuplicateKey;
      }
      usages := usages[owner := usage.(reservedBytes := usage.reservedBytes + size,
                                       reservedDocuments := usage.reservedDocuments + 1)];
      uploads := uploads[reservation := Upload(owner, document, size, Reserved, expires)];
      return Success;
    }

    method Reserve(owner: Owner, reservation: Id, document: Id, size: nat, expires: int, now: int)
      returns (outcome: Outcome)
      modifies this
      ensures (State(), outcome) == ReserveUpload(old(State()), owner, reservation, document, size, expires, now)
    {
      var before := State();
      LockAndRecover(owner, now);
      outcome := AdmitReservation(owner, reservation, document, size, expires);
      if outcome != Success {
        Rollback(before);
      }
    }

    method CreateOwnedAndCommitUpload(owner: Owner, document: Id, size: nat, reservation: Id) returns (outcome: Outcome)
      modifies this
      ensures (State(), outcome) == CommitUpload(old(State()), owner, document, size, reservation)
    {
      var before := State();
      LockOwnerUsage(owner);
      if reservation !in uploads {
        Rollback(before);
        return NotFound;
      }
      var row := uploads[reservation];
      if row.state != Reserved || row.owner != owner || row.document != document {
        Rollback(before);
        return Unavailable;
      }
      if document in documents {
        Rollback(before);
        return DuplicateKey;
      }
      documents := documents[document := Document(owner, size)];
      var usage := usages[owner];
      var moved := usage.(reservedBytes := usage.reservedBytes - row.bytes,
                          reservedDocuments := usage.reservedDocuments - 1,
                          committedBytes := usage.committedBytes + row.bytes,
                          committedDocuments := usage.committedDocuments + 1);
      UpdateTwice(before.usages, owner, usage, moved);
      usages := usages[owner := moved];
      uploads := uploads[reservation := row.(state := Committed)];
      return Success;
    }

    method Release(reservation: Id) returns (outcome: Outcome)
      modifies this
      ensures (State(), outcome) == ReleaseUpload(old(State()), reservation)
    {
      if reservation !in uploads {
        return NotFound;
      }
      var row := uploads[reservation];
      LockOwnerUsage(row.owner);
      if row.state != Reserved {
        return Success;
      }
      var usage := usages[row.owner];
      var lowered := usage.(reservedBytes := Clamp(usage.reservedBytes - row.bytes),
                            reservedDocuments := Clamp(usage.reservedDocuments - 1));
      UpdateTwice(old(usages), row.owner, usage, lowered);
      usages := usages[row.owner := lowered];
      uploads := uploads[reservation := row.(state := Released)];
      return Success;
    }

    method Begin(owner: Owner, request: Id, expires: int, now: int) returns (outcome: Outcome)
      modifies this
      ensures (State(), outcome) == BeginAnswer(old(State()), owner, request, expires, now)
    {
      var before := State();
      LockAndRecover(owner, now);
      var usage := usages[owner];
      if usage.activeAnswers >= MAX_ACTIVE_ANSWERS {
        Rollback(before);
        return QuotaExceeded;
      }
      usages := usages[owner := usage.(activeAnswers := usage.activeAnswers + 1)];
      if request in answers {
        Rollback(before);
        return DuplicateKey;
      }
      answers := answers[request := Answer(owner, Active, expires)];
      return Success;
    }

    method End(request: Id) returns (outcome: Outcome)
      modifies this
      ensures (State(), outcome) == EndAnswer(old(State()), request)
    {
      if request !in answers {
        return NotFound;
      }
      var row := answers[request];
      LockOwnerUsage(row.owner);
      if row.state != Active {
        return Success;
      }
      var usage := usages[row.owner];
      var lowered := usage.(activeAnswers := Clamp(usage.activeAnswers - 1));
      UpdateTwice(old(usages), row.owner, usage, lowered);
      usages := usages[row.owner := lowered];
      answers := answers[request := row.(state := Finished)];
      return Success;
    }

    method DeleteOwnedWithUsage(owner: Owner, document: Id) returns (outcome: Outcome)
      modifies this
      ensures (State(), outcome) == DeleteDocument(old(State()), owner, document)
    {
      if document !in documents || documents[document].owner != owner {
        return NotFound;
      }
      var read := documents[document];
      documents := documents - {document};
      if owner in usages {
        var usage := usages[owner];
        usages := usages[owner := usage.(committedBytes := Clamp(usage.committedBytes - read.size),
                                         committedDocuments := Clamp(usage.committedDocuments - 1))];
      }
      return Success;
    }
  }

  /** Inserting an empty usage row first makes no difference to recovery. */
  lemma LockedRecover(l: Ledger, owner: Owner, now: int)
    ensures Recover(Locked(l, owner), owner, now) == Recover(l, owner, now)
  {
    assert Recover(Locked(l, owner), owner, now).usages == Recover(l, owner, now).usages;
  }

  lemma UpdateTwice<K, V>(m: map<K, V>, k: K, first: V, second: V)
    ensures m[k := first][k := second] == m[k := second]
  {
  }

  // ----- The aggregate query of recovery

  method SumRows(m: map<Id, nat>) returns (total: nat)
    ensures total == Sum(m)
  {
    total := 0;
    var left := m;
    while left != map[]
      invariant total + Sum(left) == Sum(m)
      decreases |left|
    {
      var k :| k in left;
      SumWithout(left, k);
      RemoveOne(left, k);
      total := total + left[k];
      left := left - {k};
    }
  }

  method CountRows(documents: map<Id, Document>, uploads: map<Id, Upload>, answers: map<Id, Answer>, owner: Owner)
    returns (usage: Usage)
    ensures usage == Totals(documents, uploads, answers, owner)
  {
    var sizes := map d | d in documents && documents[d].owner == owner :: documents[d].size;
    var reserved := map u | u in uploads && uploads[u].owner == owner && uploads[u].state == Reserved ::
          uploads[u].bytes;
    var active := map a | a in answers && answers[a].owner == owner && answers[a].state == Active :: 1;
    assert sizes == SizesOf(documents, owner) && reserved == ReservedBy(uploads, owner)
           && active == ActiveBy(answers, owner);
    var committedBytes := SumRows(sizes);
    var reservedBytes := SumRows(reserved);
    usage := Usage(committedBytes, |sizes|, reservedBytes, |reserved|, |active|);
  }
}
