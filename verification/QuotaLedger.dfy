/**
 The quota tables and what each transaction does to them (api/database.go), as functions on a value.
 QuotaStore performs the same transactions step by step and is proved equal to these functions.

 Counters and row totals are kept apart on purpose: `usages` is what the table says, `Recount` is
 what the rows say.
 */
module QuotaLedger {
  import opened Cardinality

  type Owner = string
  type Id = string

  const MAX_OWNER_STORAGE: nat := 10 * 1024 * 1024 * 1024
  const MAX_OWNER_DOCUMENTS: nat := 1000
  const MAX_ACTIVE_ANSWERS: nat := 2

  datatype Document = Document(owner: Owner, size: nat)

  datatype UploadState = Reserved | Committed | Released
  datatype Upload = Upload(owner: Owner, document: Id, bytes: nat, state: UploadState, expires: int)

  datatype AnswerState = Active | Finished | Expired
  datatype Answer = Answer(owner: Owner, state: AnswerState, expires: int)

  datatype Usage = Usage(committedBytes: int, committedDocuments: int, reservedBytes: int, reservedDocuments: int,
                         activeAnswers: int)

  const NO_USAGE := Usage(0, 0, 0, 0, 0)

  datatype Ledger = Ledger(documents: map<Id, Document>, uploads: map<Id, Upload>, answers: map<Id, Answer>,
                           usages: map<Owner, Usage>)

  const EMPTY := Ledger(map[], map[], map[], map[])

  datatype Outcome = Success | QuotaExceeded | NotFound | Unavailable | DuplicateKey

  function Clamp(x: int): int { if x < 0 then 0 else x }

  // ----- Row totals

  ghost function Sum<K>(m: map<K, nat>): nat {
    if m == map[] then 0 else var k :| k in m; m[k] + Sum(m - {k})
  }

  lemma {:induction false} SumWithout<K>(m: map<K, nat>, k: K)
    requires k in m
    ensures Sum(m) == m[k] + Sum(m - {k})
    decreases |m|
  {
    var first :| first in m && Sum(m) == m[first] + Sum(m - {first});
    if first != k {
      RemoveOne(m, first);
      RemoveOne(m, k);
      SumWithout(m - {first}, k);
      SumWithout(m - {k}, first);
      assert m - {first} - {k} == m - {k} - {first};
    }
  }

  lemma SumWith<K>(m: map<K, nat>, k: K, v: nat)
    requires k !in m
    ensures Sum(m[k := v]) == Sum(m) + v
    ensures |m[k := v]| == |m| + 1
  {
    SumWithout(m[k := v], k);
    RemoveOne(m[k := v], k);
    assert m[k := v] - {k} == m;
  }

  ghost function SizesOf(documents: map<Id, Document>, owner: Owner): map<Id, nat> {
    map d | d in documents && documents[d].owner == owner :: documents[d].size
  }

  ghost function ReservedBy(uploads: map<Id, Upload>, owner: Owner): map<Id, nat> {
    map u | u in uploads && uploads[u].owner == owner && uploads[u].state == Reserved :: uploads[u].bytes
  }

  ghost function ActiveBy(answers: map<Id, Answer>, owner: Owner): map<Id, nat> {
    map a | a in answers && answers[a].owner == owner && answers[a].state == Active :: 1
  }

  /** What the rows say an owner uses. */
  ghost function Totals(documents: map<Id, Document>, uploads: map<Id, Upload>, answers: map<Id, Answer>,
                        owner: Owner): Usage {
    Usage(Sum(SizesOf(documents, owner)), |SizesOf(documents, owner)|,
          Sum(ReservedBy(uploads, owner)), |ReservedBy(uploads, owner)|,
          |ActiveBy(answers, owner)|)
  }

  ghost function Recount(l: Ledger, owner: Owner): Usage {
    Totals(l.documents, l.uploads, l.answers, owner)
  }

  /** What the usage table says; an owner without a row uses nothing. */
  function Recorded(l: Ledger, owner: Owner): Usage {
    if owner in l.usages then l.usages[owner] else NO_USAGE
  }

  ghost predicate ExactFor(l: Ledger, owner: Owner) {
    Recorded(l, owner) == Recount(l, owner)
  }

  /** The counters of every owner agree with the rows. */
  ghost predicate Exact(l: Ledger) {
    forall owner :: ExactFor(l, owner)
  }

  /** Whether a document row or a live reservation uses this identifier. */
  predicate Referenced(l: Ledger, id: Id) {
    || id in l.documents
    || exists u | u in l.uploads :: l.uploads[u].document == id && l.uploads[u].state == Reserved
  }

  // ----- Transactions

  function Locked(l: Ledger, owner: Owner): Ledger {
    l.(usages := l.usages[owner := Recorded(l, owner)])
  }

  function ReleaseIfExpired(u: Upload, owner: Owner, now: int): Upload {
    if u.owner == owner && u.state == Reserved && u.expires <= now then u.(state := Released) else u
  }

  function ExpireIfDue(a: Answer, owner: Owner, now: int): Answer {
    if a.owner == owner && a.state == Active && a.expires <= now then a.(state := Expired) else a
  }

  function ReleaseDue(uploads: map<Id, Upload>, owner: Owner, now: int): map<Id, Upload> {
    map u | u in uploads :: ReleaseIfExpired(uploads[u], owner, now)
  }

  function ExpireDue(answers: map<Id, Answer>, owner: Owner, now: int): map<Id, Answer> {
    map a | a in answers :: ExpireIfDue(answers[a], owner, now)
  }

  /** Expired reservations of the owner are settled, and the owner's counters rebuilt from the rows. */
  ghost function Recover(l: Ledger, owner: Owner, now: int): Ledger {
    var settled := l.(uploads := ReleaseDue(l.uploads, owner, now), answers := ExpireDue(l.answers, owner, now));
    settled.(usages := l.usages[owner := Recount(settled, owner)])
  }

  /** The all-owner form visits the owners in the given order. */
  ghost function RecoverEach(l: Ledger, owners: seq<Owner>, now: int): Ledger
    decreases |owners|
  {
    if owners == [] then l else RecoverEach(Recover(l, owners[0], now), owners[1..], now)
  }

  /** What happens to an upload request once the owner's expired reservations are gone. */
  ghost function AdmitUpload(r: Ledger, owner: Owner, reservation: Id, document: Id, size: nat, expires: int)
    : (Ledger, Outcome)
  {
    var usage := Recorded(r, owner);
    if usage.committedBytes + usage.reservedBytes + size > MAX_OWNER_STORAGE
       || usage.committedDocuments + usage.reservedDocuments + 1 > MAX_OWNER_DOCUMENTS then (r, QuotaExceeded)
    else if reservation in r.uploads then (r, DuplicateKey)
    else (r.(uploads := r.uploads[reservation := Upload(owner, document, size, Reserved, expires)],
             usages := r.usages[owner := usage.(reservedBytes := usage.reservedBytes + size,
                                                reservedDocuments := usage.reservedDocuments + 1)]), Success)
  }

  /** A failed transaction rolls back everything, the recovery included. */
  ghost function ReserveUpload(l: Ledger, owner: Owner, reservation: Id, document: Id, size: nat, expires: int,
                               now: int): (Ledger, Outcome) {
    var (after, outcome) := AdmitUpload(Recover(l, owner, now), owner, reservation, document, size, expires);
    (if outcome == Success then after else l, outcome)
  }

  ghost function CommitUpload(l: Ledger, owner: Owner, document: Id, size: nat, reservation: Id): (Ledger, Outcome) {
    if reservation !in l.uploads then (l, NotFound)
    else
      var u := l.uploads[reservation];
      if u.state != Reserved || u.owner != owner || u.document != document then (l, Unavailable)
      else if document in l.documents then (l, DuplicateKey)
      else
        var usage := Recorded(l, owner);
        (l.(documents := l.documents[document := Document(owner, size)],
            uploads := l.uploads[reservation := u.(state := Committed)],
            usages := l.usages[owner := Usage(usage.committedBytes + u.bytes, usage.committedDocuments + 1,
                                              usage.reservedBytes - u.bytes, usage.reservedDocuments - 1,
                                              usage.activeAnswers)]), Success)
  }

  ghost function ReleaseUpload(l: Ledger, reservation: Id): (Ledger, Outcome) {
    if reservation !in l.uploads then (l, NotFound)
    else
      var u := l.uploads[reservation];
      var usage := Recorded(l, u.owner);
      if u.state != Reserved then (Locked(l, u.owner), Success)
      else (l.(uploads := l.uploads[reservation := u.(state := Released)],
               usages := l.usages[u.owner := usage.(reservedBytes := Clamp(usage.reservedBytes - u.bytes),
                                                    reservedDocuments := Clamp(usage.reservedDocuments - 1))]), Success)
  }

  ghost function BeginAnswer(l: Ledger, owner: Owner, request: Id, expires: int, now: int): (Ledger, Outcome) {
    var r := Recover(l, owner, now);
    var usage := Recorded(r, owner);
    if usage.activeAnswers >= MAX_ACTIVE_ANSWERS then (l, QuotaExceeded)
    else if request in r.answers then (l, DuplicateKey)
    else (r.(answers := r.answers[request := Answer(owner, Active, expires)],
             usages := r.usages[owner := usage.(activeAnswers := usage.activeAnswers + 1)]), Success)
  }

  ghost function EndAnswer(l: Ledger, request: Id): (Ledger, Outcome) {
    if request !in l.answers then (l, NotFound)
    else
      var a := l.answers[request];
      var usage := Recorded(l, a.owner);
      if a.state != Active then (Locked(l, a.owner), Success)
      else (l.(answers := l.answers[request := a.(state := Finished)],
               usages := l.usages[a.owner := usage.(activeAnswers := Clamp(usage.activeAnswers - 1))]), Success)
  }

  /** The second half of a deletion: the row read earlier goes, and the counters drop by what was read.
      Neither the row's presence nor the number of affected rows is checked again. */
  ghost function ApplyDelete(l: Ledger, owner: Owner, document: Id, read: Document): Ledger {
    var gone := l.(documents := l.documents - {document});
    if owner !in l.usages then gone
    else
      var usage := l.usages[owner];
      gone.(usages := l.usages[owner := usage.(committedBytes := Clamp(usage.committedBytes - read.size),
                                               committedDocuments := Clamp(usage.committedDocuments - 1))])
  }

  /** A deletion whose two halves are not interleaved with anything. */
  ghost function DeleteDocument(l: Ledger, owner: Owner, document: Id): (Ledger, Outcome) {
    if document !in l.documents || l.documents[document].owner != owner then (l, NotFound)
    else (ApplyDelete(l, owner, document, l.documents[document]), Success)
  }

  // ----- How row changes move the totals of an owner o

  lemma SizesAdded(documents: map<Id, Document>, id: Id, d: Document, o: Owner)
    requires id !in documents
    ensures SizesOf(documents[id := d], o) == if o == d.owner then SizesOf(documents, o)[id := d.size]
            else SizesOf(documents, o)
  {
  }

  lemma DocumentAdded(l: Ledger, id: Id, d: Document, o: Owner)
    requires id !in l.documents
    ensures Totals(l.documents[id := d], l.uploads, l.answers, o) ==
              var u := Recount(l, o);
              if o == d.owner then u.(committedBytes := u.committedBytes + d.size,
                                      committedDocuments := u.committedDocuments + 1) else u
  {
    SizesAdded(l.documents, id, d, o);
    var sizes := SizesOf(l.documents, o);
    if o == d.owner { SumWith(sizes, id, d.size); }
  }

  lemma DocumentRemoved(l: Ledger, id: Id, o: Owner)
    requires id in l.documents
    ensures Totals(l.documents - {id}, l.uploads, l.answers, o) ==
              var u, d := Recount(l, o), l.documents[id];
              if o == d.owner then u.(committedBytes := u.committedBytes - d.size,
                                      committedDocuments := u.committedDocuments - 1) else u
  {
    var rest := l.(documents := l.documents - {id});
    DocumentAdded(rest, id, l.documents[id], o);
    assert rest.documents[id := l.documents[id]] == l.documents;
  }

  lemma ReservedAdded(uploads: map<Id, Upload>, id: Id, up: Upload, o: Owner)
    requires id !in uploads && up.state == Reserved
    ensures ReservedBy(uploads[id := up], o) == if o == up.owner then ReservedBy(uploads, o)[id := up.bytes]
            else ReservedBy(uploads, o)
  {
  }

  lemma UploadAdded(l: Ledger, id: Id, up: Upload, o: Owner)
    requires id !in l.uploads && up.state == Reserved
    ensures Totals(l.documents, l.uploads[id := up], l.answers, o) ==
              var u := Recount(l, o);
              if o == up.owner then u.(reservedBytes := u.reservedBytes + up.bytes,
                                       reservedDocuments := u.reservedDocuments + 1) else u
  {
    ReservedAdded(l.uploads, id, up, o);
    var reserved := ReservedBy(l.uploads, o);
    if o == up.owner { SumWith(reserved, id, up.bytes); }
  }

  lemma ReservedSettled(uploads: map<Id, Upload>, id: Id, to: UploadState, o: Owner)
    requires id in uploads && uploads[id].state == Reserved && to != Reserved
    ensures ReservedBy(uploads[id := uploads[id].(state := to)], o)
            == if o == uploads[id].owner then ReservedBy(uploads, o) - {id} else ReservedBy(uploads, o)
  {
  }

  lemma UploadSettled(l: Ledger, id: Id, to: UploadState, o: Owner)
    requires id in l.uploads && l.uploads[id].state == Reserved && to != Reserved
    ensures Totals(l.documents, l.uploads[id := l.uploads[id].(state := to)], l.answers, o) ==
              var u, up := Recount(l, o), l.uploads[id];
              if o == up.owner then u.(reservedBytes := u.reservedBytes - up.bytes,
                                       reservedDocuments := u.reservedDocuments - 1) else u
  {
    ReservedSettled(l.uploads, id, to, o);
    if o == l.uploads[id].owner {
      SumWithout(ReservedBy(l.uploads, o), id);
      RemoveOne(ReservedBy(l.uploads, o), id);
    }
  }

  lemma AnswerAdded(l: Ledger, id: Id, a: Answer, o: Owner)
    requires id !in l.answers && a.state == Active
    ensures Totals(l.documents, l.uploads, l.answers[id := a], o) ==
              var u := Recount(l, o);
              if o == a.owner then u.(activeAnswers := u.activeAnswers + 1) else u
  {
    var before, after := ActiveBy(l.answers, o), ActiveBy(l.answers[id := a], o);
    if o == a.owner {
      assert after == before[id := 1];
      SumWith(before, id, 1);
    } else {
      assert after == before;
    }
  }

  lemma AnswerSettled(l: Ledger, id: Id, to: AnswerState, o: Owner)
    requires id in l.answers && l.answers[id].state == Active && to != Active
    ensures Totals(l.documents, l.uploads, l.answers[id := l.answers[id].(state := to)], o) ==
              var u, a := Recount(l, o), l.answers[id];
              if o == a.owner then u.(activeAnswers := u.activeAnswers - 1) else u
  {
    var a := l.answers[id];
    var before, after := ActiveBy(l.answers, o), ActiveBy(l.answers[id := a.(state := to)], o);
    if o == a.owner {
      assert after == before - {id};
      RemoveOne(before, id);
    } else {
      assert after == before;
    }
  }

  lemma {:induction false} SumOfPart<K>(part: map<K, nat>, m: map<K, nat>)
    requires forall k | k in part :: k in m && part[k] == m[k]
    ensures Sum(part) <= Sum(m) && |part| <= |m|
    decreases |m|
  {
    SubsetSize(part.Keys, m.Keys);
    assert |part| == |part.Keys| && |m| == |m.Keys|;
    if m == map[] {
      assert part == map[];
    } else {
      var k :| k in m;
      SumWithout(m, k);
      RemoveOne(m, k);
      if k in part {
        SumWithout(part, k);
        SumOfPart(part - {k}, m - {k});
      } else {
        SumOfPart(part, m - {k});
      }
    }
  }

  lemma ReleaseOthers(uploads: map<Id, Upload>, owner: Owner, now: int, o: Owner)
    ensures o != owner ==> ReservedBy(ReleaseDue(uploads, owner, now), o) == ReservedBy(uploads, o)
    ensures forall u | u in ReservedBy(ReleaseDue(uploads, owner, now), o) ::
              u in ReservedBy(uploads, o) && ReservedBy(ReleaseDue(uploads, owner, now), o)[u]
                  == ReservedBy(uploads, o)[u]
  {
  }

  lemma ExpireOthers(answers: map<Id, Answer>, owner: Owner, now: int, o: Owner)
    ensures o != owner ==> ActiveBy(ExpireDue(answers, owner, now), o) == ActiveBy(answers, o)
    ensures forall a | a in ActiveBy(ExpireDue(answers, owner, now), o) :: a in ActiveBy(answers, o)
  {
  }

  lemma RecoverOthers(l: Ledger, owner: Owner, now: int, o: Owner)
    requires o != owner
    ensures Recount(Recover(l, owner, now), o) == Recount(l, o)
  {
    ReleaseOthers(l.uploads, owner, now, o);
    ExpireOthers(l.answers, owner, now, o);
  }

  ghost predicate NoMore(after: Usage, before: Usage) {
    && after.committedBytes == before.committedBytes && after.committedDocuments == before.committedDocuments
    && after.reservedBytes <= before.reservedBytes && after.reservedDocuments <= before.reservedDocuments
    && after.activeAnswers <= before.activeAnswers
  }

  /** Recovery touches no document, and never raises a total. */
  lemma RecoverTotals(l: Ledger, owner: Owner, now: int)
    ensures NoMore(Recount(Recover(l, owner, now), owner), Recount(l, owner))
  {
    var r := Recover(l, owner, now);
    ReleaseOthers(l.uploads, owner, now, owner);
    ExpireOthers(l.answers, owner, now, owner);
    SumOfPart(ReservedBy(r.uploads, owner), ReservedBy(l.uploads, owner));
    SumOfPart(ActiveBy(r.answers, owner), ActiveBy(l.answers, owner));
  }

  /** Recovery reads no counter, so it records the truth whatever the table said. */
  lemma RecoverRecordsRows(l: Ledger, owner: Owner, now: int)
    ensures ExactFor(Recover(l, owner, now), owner)
  {
  }
}
