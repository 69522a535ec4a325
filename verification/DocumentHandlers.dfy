/**
 The upload handler, the delete handler and orphan reconciliation as they run from start to end
 (api/documents.go, api/storage.go), over the quota store and a bucket of objects. UploadProtocol
 treats the same steps under every interleaving.
 */
module DocumentHandlers {
  import opened QuotaLedger
  import opened QuotaStore
  import RateLimits
  import opened Strings

  const MAX_UPLOAD_SIZE: nat := 20 * 1024 * 1024
  const MAX_UPLOADS_PER_HOUR: nat := 10

  // Times are in nanoseconds.
  const HOUR: nat := 3600 * 1000 * 1000 * 1000

  /** Object keys and the time each object was last written. */
  class Bucket {
    var objects: map<string, int>

    constructor ()
      ensures objects == map[]
    {
      objects := map[];
    }
  }

  // ----- Object keys

  function KeyOf(id: Id): string {
    "documents/" + id + "/original.pdf"
  }

  /** The document identifier in an upload's key; any other key is left alone. */
  function IdIn(key: string): (id: Id)
    requires IsUploadKey(key)
  {
    Split(key, '/')[1]
  }

  predicate IsUploadKey(key: string) {
    var parts := Split(key, '/');
    |parts| == 3 && parts[0] == "documents" && parts[2] == "original.pdf"
  }

  /** Reconciliation reads back the identifier that the upload wrote into the key. */
  lemma KeyRoundTrip(id: Id)
    requires '/' !in id
    ensures IsUploadKey(KeyOf(id)) && IdIn(KeyOf(id)) == id
  {
    assert KeyOf(id) == "documents" + ['/'] + (id + ['/'] + "original.pdf");
    ThreeParts("documents", id, "original.pdf");
  }

  lemma ThreeParts(a: string, b: string, c: string)
    requires '/' !in a && '/' !in b && '/' !in c
    ensures Split(a + ['/'] + (b + ['/'] + c), '/') == [a, b, c]
  {
    SplitNone(c, '/');
    SplitFirst(b, '/', c);
    SplitFirst(a, '/', b + ['/'] + c);
  }

  lemma SplitThree(key: string, a: string, b: string, c: string)
    requires Split(key, '/') == [a, b, c]
    ensures key == a + ['/'] + (b + ['/'] + c)
  {
    var tail := FirstPiece(key, '/');
    assert Split(tail, '/') == [b, c];
    var last := FirstPiece(tail, '/');
    assert Split(last, '/') == [c];
    var none := FirstPiece(last, '/');
  }

  /** An upload key is the key of the identifier in it. */
  lemma UploadKeyIsKeyOf(key: string)
    requires IsUploadKey(key)
    ensures key == KeyOf(IdIn(key)) && '/' !in IdIn(key)
  {
    var id := IdIn(key);
    assert Split(key, '/') == ["documents", id, "original.pdf"];
    SplitThree(key, "documents", id, "original.pdf");
    assert KeyOf(id) == "documents" + ['/'] + (id + ['/'] + "original.pdf");
  }

  // ----- Reconciliation

  /** No document row and no live reservation is for this identifier. */
  ghost predicate Unused(documents: map<Id, Document>, uploads: map<Id, QuotaLedger.Upload>, id: Id) {
    && id !in documents
    && forall u | u in uploads && uploads[u].document == id :: uploads[u].state != Reserved
  }

  /** Only objects of unused identifiers that were old enough went, and the others are as they were. */
  ghost predicate OnlyUnusedWent(before: map<string, int>, after: map<string, int>, documents: map<Id, Document>,
                                 uploads: map<Id, QuotaLedger.Upload>, cutoff: int) {
    && (forall key | key in after :: key in before && after[key] == before[key])
    && (forall key | key in before && key !in after :: before[key] <= cutoff)
    && (forall key | key in before && key !in after ::
          exists id: Id :: '/' !in id && key == KeyOf(id) && Unused(documents, uploads, id))
  }

  /** They all went. */
  ghost predicate AllUnusedWent(before: map<string, int>, after: map<string, int>, documents: map<Id, Document>,
                                uploads: map<Id, QuotaLedger.Upload>, cutoff: int) {
    forall id: Id | '/' !in id && KeyOf(id) in before && before[KeyOf(id)] <= cutoff
        && Unused(documents, uploads, id) ::
      KeyOf(id) !in after
  }

  lemma SomeOrphansWent(l: Ledger, before: map<string, int>, after: map<string, int>, removed: set<string>, cutoff: int)
    requires removed <= Orphans(l, before, cutoff) && after == before - removed
    ensures OnlyUnusedWent(before, after, l.documents, l.uploads, cutoff)
  {
    forall key | key in before && key !in after
      ensures exists id: Id :: '/' !in id && key == KeyOf(id) && Unused(l.documents, l.uploads, id)
    {
      UploadKeyIsKeyOf(key);
    }
  }

  lemma AllOrphansWent(l: Ledger, before: map<string, int>, after: map<string, int>, cutoff: int)
    requires after == before - Orphans(l, before, cutoff)
    ensures AllUnusedWent(before, after, l.documents, l.uploads, cutoff)
  {
    forall id: Id | '/' !in id && KeyOf(id) in before && before[KeyOf(id)] <= cutoff
                    && Unused(l.documents, l.uploads, id)
      ensures KeyOf(id) !in after
    {
      KeyRoundTrip(id);
    }
  }

  /** Old enough, an upload, and neither a row nor a live reservation uses it. */
  predicate IsOrphan(l: Ledger, key: string, modified: int, cutoff: int) {
    modified <= cutoff && IsUploadKey(key) && !Referenced(l, IdIn(key))
  }

  ghost function Orphans(l: Ledger, objects: map<string, int>, cutoff: int): set<string> {
    set key | key in objects && IsOrphan(l, key, objects[key], cutoff)
  }

  /** `unanswered` and `undeletable` are the keys whose reference query or deletion fails; either ends the pass.
      A finished pass removes exactly the orphans, and a pass cut short removes nothing else. */
  method ReconcileOrphanedUploads(bucket: Bucket, store: Store, cutoff: int, unanswered: set<string>,
                                  undeletable: set<string>)
    returns (finished: bool)
    modifies bucket
    ensures finished ==> bucket.objects == old(bucket.objects) - Orphans(store.State(), old(bucket.objects), cutoff)
    ensures OnlyUnusedWent(old(bucket.objects), bucket.objects, store.documents, store.uploads, cutoff)
    ensures finished ==> AllUnusedWent(old(bucket.objects), bucket.objects, store.documents, store.uploads, cutoff)
    ensures exists removed :: removed <= Orphans(store.State(), old(bucket.objects), cutoff)
                              && bucket.objects == old(bucket.objects) - removed
    ensures unanswered == {} && undeletable == {} ==> finished
  {
    var pending := bucket.objects.Keys;
    ghost var orphans := Orphans(store.State(), bucket.objects, cutoff);
    while pending != {}
      invariant pending <= old(bucket.objects).Keys
      invariant bucket.objects == old(bucket.objects) - (orphans - pending)
      decreases pending
    {
      var key :| key in pending;
      var modified := bucket.objects[key];
      assert modified == old(bucket.objects)[key];
      if modified <= cutoff && IsUploadKey(key) {
        if key in unanswered {
          SomeOrphansWent(store.State(), old(bucket.objects), bucket.objects, orphans - pending, cutoff);
          return false;
        }
        if !Referenced(store.State(), IdIn(key)) {
          if key in undeletable {
            SomeOrphansWent(store.State(), old(bucket.objects), bucket.objects, orphans - pending, cutoff);
            return false;
          }
          bucket.objects := bucket.objects - {key};
        }
      }
      pending := pending - {key};
    }
    assert orphans - pending == orphans;
    SomeOrphansWent(store.State(), old(bucket.objects), bucket.objects, orphans, cutoff);
    AllOrphansWent(store.State(), old(bucket.objects), bucket.objects, cutoff);
    return true;
  }

  // ----- The upload handler

  datatype Result = AcceptedUpload | QuotaRejected | UploadFailed

  ghost predicate HasRow(store: Store, id: Id, row: QuotaLedger.Upload)
    reads store
  {
    id in store.uploads && store.uploads[id] == row
  }

  /** The quota lets the upload in. */
  ghost predicate FitsQuota(l: Ledger, owner: Owner, id: Id, size: nat, expires: int, now: int) {
    ReserveUpload(l, owner, id, id, size, expires, now).1 == Success
  }

  method ReserveFresh(store: Store, owner: Owner, id: Id, size: nat, expires: int, now: int) returns (reserved: bool)
    requires id !in store.uploads
    modifies store
    ensures store.documents == old(store.documents)
    ensures reserved <==> FitsQuota(old(store.State()), owner, id, size, expires, now)
    ensures !reserved ==> store.State() == old(store.State())
    ensures reserved ==> HasRow(store, id, QuotaLedger.Upload(owner, id, size, Reserved, expires))
  {
    var outcome := store.Reserve(owner, id, id, size, expires, now);
    reserved := outcome == Success;
  }

  method RecoverOnce(store: Store, owner: Owner, id: Id, at: int)
    requires id in store.uploads
    modifies store
    ensures store.documents == old(store.documents)
    ensures HasRow(store, id, ReleaseIfExpired(old(store.uploads)[id], owner, at))
  {
    var owners := [owner];
    assert RecoverEach(store.State(), owners, at) == RecoverEach(Recover(store.State(), owner, at), [], at);
    store.RecoverExpiredReservations(owners, at);
  }

  /** The commit succeeds exactly while the reservation is still live. */
  method CommitFresh(store: Store, owner: Owner, id: Id, size: nat) returns (committed: bool)
    requires id in store.uploads && id !in store.documents && store.uploads[id].owner == owner
             && store.uploads[id].document == id
    modifies store
    ensures committed <==> old(store.uploads)[id].state == Reserved
    ensures committed ==> store.documents == old(store.documents)[id := Document(owner, size)]
    ensures committed ==> HasRow(store, id, old(store.uploads)[id].(state := Committed))
    ensures !committed ==> store.State() == old(store.State())
  {
    var outcome := store.CreateOwnedAndCommitUpload(owner, id, size, id);
    committed := outcome == Success;
  }

  method ReleaseRow(store: Store, id: Id)
    requires id in store.uploads && store.uploads[id].state != Committed
    modifies store
    ensures store.documents == old(store.documents)
    ensures HasRow(store, id, old(store.uploads)[id].(state := Released))
  {
    var _ := store.Release(id);
  }

  /** What goes wrong around an upload: the reservation, the write (`left` says that its object is there all the same),
      the commit, which is then rolled back, the clean-up of the object, and the release of the reservation. */
  datatype Faults = Faults(reserve: bool, put: bool, left: bool, commit: bool, undo: bool, release: bool)

  /** `recovery` is a recovery of the owner that another process runs between the write and the commit. */
  predicate RecoveredTooSoon(recovery: seq<int>, expires: int) {
    |recovery| == 1 && expires <= recovery[0]
  }

  predicate StoreFails(faults: Faults, recovery: seq<int>, expires: int) {
    faults.put || faults.commit || RecoveredTooSoon(recovery, expires)
  }

  /** A failed upload leaves its object behind. */
  predicate ObjectStays(faults: Faults) {
    if faults.put then faults.left else faults.undo
  }

  /** A failed upload leaves its reservation live, for a later recovery to release. */
  predicate StaysReserved(faults: Faults, recovery: seq<int>, expires: int) {
    faults.release && (faults.put || !RecoveredTooSoon(recovery, expires))
  }

  method PutObject(bucket: Bucket, id: Id, now: int, faults: Faults)
    modifies bucket
    ensures bucket.objects == if faults.put && !faults.left then old(bucket.objects)
                              else old(bucket.objects)[KeyOf(id) := now]
  {
    if !faults.put || faults.left {
      bucket.objects := bucket.objects[KeyOf(id) := now];
    }
  }

  method CommitOrRollBack(store: Store, owner: Owner, id: Id, size: nat, fails: bool) returns (committed: bool)
    requires id in store.uploads && id !in store.documents
    requires store.uploads[id].owner == owner && store.uploads[id].document == id
    modifies store
    ensures committed <==> !fails && old(store.uploads)[id].state == Reserved
    ensures committed ==> store.documents == old(store.documents)[id := Document(owner, size)]
    ensures committed ==> HasRow(store, id, old(store.uploads)[id].(state := Committed))
    ensures !committed ==> store.State() == old(store.State())
  {
    if fails {
      return false;
    }
    committed := CommitFresh(store, owner, id, size);
  }

  /** The handler ignores an error of the release. */
  method TryRelease(store: Store, id: Id, fails: bool)
    requires id in store.uploads && store.uploads[id].state != Committed
    modifies store
    ensures store.documents == old(store.documents)
    ensures HasRow(store, id, if fails then old(store.uploads)[id] else old(store.uploads)[id].(state := Released))
  {
    if !fails {
      ReleaseRow(store, id);
    }
  }

  /** From the reservation on: the object, then row and reservation together. Failures release the reservation. */
  method StoreReserved(bucket: Bucket, store: Store, owner: Owner, id: Id, size: nat, now: int, expires: int,
                       faults: Faults, recovery: seq<int>) returns (accepted: bool)
    requires id !in store.documents && KeyOf(id) !in bucket.objects
    requires HasRow(store, id, QuotaLedger.Upload(owner, id, size, Reserved, expires))
    requires |recovery| <= 1
    modifies bucket, store
    ensures accepted <==> !StoreFails(faults, recovery, expires)
    ensures accepted ==>
              && store.documents == old(store.documents)[id := Document(owner, size)]
              && HasRow(store, id, QuotaLedger.Upload(owner, id, size, Committed, expires))
              && bucket.objects == old(bucket.objects)[KeyOf(id) := now]
    ensures !accepted ==>
              && store.documents == old(store.documents)
              && HasRow(store, id, QuotaLedger.Upload(owner, id, size,
                   if StaysReserved(faults, recovery, expires) then Reserved else Released, expires))
              && bucket.objects == if ObjectStays(faults) then old(bucket.objects)[KeyOf(id) := now]
                  else old(bucket.objects)
  {
    PutObject(bucket, id, now, faults);
    if faults.put {
      TryRelease(store, id, faults.release);
      return false;
    }
    if recovery != [] {
      RecoverOnce(store, owner, id, recovery[0]);
    }
    accepted := CommitOrRollBack(store, owner, id, size, faults.commit);
    if !accepted {
      if !faults.undo {
        bucket.objects := bucket.objects - {KeyOf(id)};
        assert bucket.objects == old(bucket.objects);
      }
      TryRelease(store, id, faults.release);
    }
  }

  function HourlyUploads(owner: Owner, now: int): RateLimits.Bucket {
    RateLimits.Bucket("upload-owner", owner, RateLimits.WindowStart(now, HOUR))
  }

  ghost predicate RateAllows(history: seq<RateLimits.Call>, owner: Owner, now: int) {
    RateLimits.Admitted(history, HourlyUploads(owner, now)) < MAX_UPLOADS_PER_HOUR
  }

  /** A rejected upload leaves no trace but its call of the rate limit, which counts attempts; a failed one leaves no
      document row, and its object and live reservation only when the clean-up of that fails, too. */
  method Upload(bucket: Bucket, store: Store, rates: RateLimits.BucketStore, owner: Owner, id: Id, size: nat,
                now: int, expires: int, faults: Faults, recovery: seq<int>) returns (result: Result)
    requires id !in store.uploads && id !in store.documents && KeyOf(id) !in bucket.objects
    requires RateLimits.Counted(rates.counts, rates.history)
    requires |recovery| <= 1
    modifies bucket, store, rates
    ensures RateLimits.Counted(rates.counts, rates.history)
    ensures rates.history == if size > MAX_UPLOAD_SIZE then old(rates.history) else
                               var allowed := RateAllows(old(rates.history), owner, now);
                               old(rates.history) + [RateLimits.Call(HourlyUploads(owner, now), now, allowed)]
    ensures RateLimits.KeepsDecided(old(rates.history), rates.history, "upload-owner", owner, MAX_UPLOADS_PER_HOUR,
                                    HOUR)
    ensures result == QuotaRejected <==>
              || size > MAX_UPLOAD_SIZE || !RateAllows(old(rates.history), owner, now) || faults.reserve
              || !FitsQuota(old(store.State()), owner, id, size, expires, now)
    ensures result == QuotaRejected ==> store.State() == old(store.State()) && bucket.objects == old(bucket.objects)
    ensures result == UploadFailed <==> result != QuotaRejected && StoreFails(faults, recovery, expires)
    ensures result == AcceptedUpload ==>
              && store.documents == old(store.documents)[id := Document(owner, size)]
              && HasRow(store, id, QuotaLedger.Upload(owner, id, size, Committed, expires))
              && bucket.objects == old(bucket.objects)[KeyOf(id) := now]
    ensures result == UploadFailed ==>
              && store.documents == old(store.documents)
              && HasRow(store, id, QuotaLedger.Upload(owner, id, size,
                   if StaysReserved(faults, recovery, expires) then Reserved else Released, expires))
              && bucket.objects == if ObjectStays(faults) then old(bucket.objects)[KeyOf(id) := now]
                  else old(bucket.objects)
  {
    if size > MAX_UPLOAD_SIZE {
      return QuotaRejected;
    }
    var allowed := rates.AllowRate("upload-owner", owner, MAX_UPLOADS_PER_HOUR, HOUR, now);
    if !allowed || faults.reserve {
      return QuotaRejected;
    }
    var reserved := ReserveFresh(store, owner, id, size, expires, now);
    if !reserved {
      return QuotaRejected;
    }
    var accepted := StoreReserved(bucket, store, owner, id, size, now, expires, faults, recovery);
    return if accepted then AcceptedUpload else UploadFailed;
  }

  // ----- The delete handler

  /** The row goes first, so a failed clean-up leaves an unreferenced object and never a row without its object. */
  method Delete(bucket: Bucket, store: Store, owner: Owner, id: Id, cleanupFails: bool) returns (found: bool)
    modifies bucket, store
    ensures found <==> id in old(store.documents) && old(store.documents)[id].owner == owner
    ensures !found ==> store.State() == old(store.State()) && bucket.objects == old(bucket.objects)
    ensures found ==> store.documents == old(store.documents) - {id} && store.uploads == old(store.uploads)
    ensures found ==> bucket.objects == old(bucket.objects) - if cleanupFails then {} else {KeyOf(id)}
  {
    var outcome := store.DeleteOwnedWithUsage(owner, id);
    if outcome != Success {
      return false;
    }
    if !cleanupFails {
      bucket.objects := bucket.objects - {KeyOf(id)};
    }
    return true;
  }
}
