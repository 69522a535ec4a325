/**
 Uploads, deletions and orphan reconciliation across the database and the object store, which share no
 transaction (api/documents.go, api/storage.go, api/database.go). Every handler is a small program whose
 steps interleave freely with the steps of all others; a handler that crashes simply takes no more steps.
 Reservation, document and object of one upload carry the same fresh identifier.
 */
module UploadProtocol {
  import opened QuotaLedger
  import opened QuotaProperties

  /** Where an upload handler is. */
  datatype Phase = Putting | Stored | Undoing | Releasing | Accepted

  /** An upload handler under way, with the owner and the file size it goes on with. */
  datatype Handler = Handler(phase: Phase, owner: Owner, size: nat)

  /** `reading` and `deleting` are the documents that some delete handler has read, or whose row it has removed;
      `listed` and `condemned` are the objects that a reconciler has listed, or found unreferenced. */
  datatype World = World(ledger: Ledger, objects: set<Id>, uploads: map<Id, Handler>,
                         reading: set<Id>, deleting: set<Id>, listed: set<Id>, condemned: set<Id>)

  datatype Action =
    | ReserveIt(owner: Owner, id: Id, size: nat, expires: int, now: int)
    | PutObject(id: Id)
    | PutFails(id: Id, left: bool)
    | CommitIt(id: Id)
    | UndoObject(id: Id, removed: bool)
    | ReleaseIt(id: Id)
    | ReadRow(id: Id)
    | DeleteRow(owner: Owner, id: Id, read: Document)
    | DeleteObject(id: Id)
    | ListObject(id: Id)
    | CheckReference(id: Id)
    | DeleteOrphan(id: Id)
    | RecoverRows(owner: Owner, now: int)
    | BeginIt(owner: Owner, request: Id, expires: int, now: int)
    | EndIt(request: Id)

  ghost predicate At(w: World, id: Id, phase: Phase) {
    id in w.uploads && w.uploads[id].phase == phase
  }

  ghost function MoveOn(w: World, id: Id, phase: Phase): World
    requires id in w.uploads
  {
    w.(uploads := w.uploads[id := w.uploads[id].(phase := phase)])
  }

  /** An action whose handler is not at that point does nothing. */
  ghost function Next(w: World, action: Action): World {
    match action
    case ReserveIt(owner, id, size, expires, now) =>
      var (ledger, outcome) := ReserveUpload(w.ledger, owner, id, id, size, expires, now);
      if outcome == Success then w.(ledger := ledger, uploads := w.uploads[id := Handler(Putting, owner, size)]) else w
    case PutObject(id) =>
      if At(w, id, Putting) then MoveOn(w.(objects := w.objects + {id}), id, Stored) else w
    case PutFails(id, left) =>
      if At(w, id, Putting) then MoveOn(if left then w.(objects := w.objects + {id}) else w, id, Releasing) else w
    case CommitIt(id) =>
      if !At(w, id, Stored) then w
      else
        var (ledger, outcome) := CommitUpload(w.ledger, w.uploads[id].owner, id, w.uploads[id].size, id);
        MoveOn(w.(ledger := ledger), id, if outcome == Success then Accepted else Undoing)
    case UndoObject(id, removed) =>
      if At(w, id, Undoing) then MoveOn(if removed then w.(objects := w.objects - {id}) else w, id, Releasing) else w
    case ReleaseIt(id) =>
      if At(w, id, Releasing) then w.(ledger := ReleaseUpload(w.ledger, id).0) else w
    case ReadRow(id) =>
      if id in w.ledger.documents then w.(reading := w.reading + {id}) else w
    case DeleteRow(owner, id, read) =>
      if id in w.reading then w.(ledger := ApplyDelete(w.ledger, owner, id, read), deleting := w.deleting + {id}) else w
    case DeleteObject(id) =>
      if id in w.deleting then w.(objects := w.objects - {id}) else w
    case ListObject(id) =>
      if id in w.objects then w.(listed := w.listed + {id}) else w
    case CheckReference(id) =>
      if id in w.listed && !Referenced(w.ledger, id) then w.(condemned := w.condemned + {id}) else w
    case DeleteOrphan(id) =>
      if id in w.condemned then w.(objects := w.objects - {id}) else w
    case RecoverRows(owner, now) => w.(ledger := Recover(w.ledger, owner, now))
    case BeginIt(owner, request, expires, now) => w.(ledger := BeginAnswer(w.ledger, owner, request, expires, now).0)
    case EndIt(request) => w.(ledger := EndAnswer(w.ledger, request).0)
  }

  // ----- The invariant

  ghost predicate StateOf(l: Ledger, id: Id, state: UploadState) {
    id in l.uploads && l.uploads[id].state == state
  }

  /** Known to the database, without a row, and its reservation settled: no transaction can revive it. */
  ghost predicate Dead(l: Ledger, id: Id) {
    id in l.uploads && l.uploads[id].state != Reserved && id !in l.documents
  }

  ghost predicate Keyed(l: Ledger) {
    && (forall u | u in l.uploads :: l.uploads[u].document == u)
    && (forall d | d in l.documents :: StateOf(l, d, Committed))
  }

  ghost predicate Inv(w: World) {
    && Keyed(w.ledger)
    && (forall d | d in w.ledger.documents :: d in w.objects)
    && (forall id | id in w.objects :: id in w.ledger.uploads)
    && (forall id | id in w.listed :: id in w.ledger.uploads)
    && (forall id | id in w.uploads :: id in w.ledger.uploads)
    && (forall id | id in w.uploads && w.uploads[id].phase != Accepted :: id !in w.ledger.documents)
    && (forall id | At(w, id, Stored) && StateOf(w.ledger, id, Reserved) :: id in w.objects)
    && (forall id | id in w.reading :: StateOf(w.ledger, id, Committed))
    && (forall id | id in w.deleting :: Dead(w.ledger, id))
    && (forall id | id in w.condemned :: Dead(w.ledger, id))
  }

  /** What a ledger transaction may do between the steps of the handlers. */
  ghost predicate Quiet(before: Ledger, after: Ledger) {
    && UploadsSettle(before.uploads, after.uploads)
    && after.uploads.Keys == before.uploads.Keys
    && after.documents == before.documents
  }

  lemma QuietKeepsInv(w: World, after: Ledger)
    requires Inv(w) && Quiet(w.ledger, after)
    ensures Inv(w.(ledger := after))
  {
    var v := w.(ledger := after);
    forall id | id in w.ledger.uploads && w.ledger.uploads[id].state == Committed
      ensures StateOf(after, id, Committed)
    {
    }
    forall id | StateOf(after, id, Reserved) ensures StateOf(w.ledger, id, Reserved) {}
  }

  lemma QuietRecover(l: Ledger, owner: Owner, now: int)
    ensures Quiet(l, Recover(l, owner, now))
  {
    RecoverSettling(l, owner, now);
  }

  lemma QuietBegin(l: Ledger, owner: Owner, request: Id, expires: int, now: int)
    ensures Quiet(l, BeginAnswer(l, owner, request, expires, now).0)
  {
    QuietRecover(l, owner, now);
  }

  lemma QuietSettlement(l: Ledger, id: Id)
    ensures Quiet(l, ReleaseUpload(l, id).0) && Quiet(l, EndAnswer(l, id).0)
  {
  }

  /** A successful reservation adds one live row to a recovered table. */
  lemma ReserveRows(l: Ledger, owner: Owner, id: Id, size: nat, expires: int, now: int)
    requires ReserveUpload(l, owner, id, id, size, expires, now).1 == Success
    ensures var after, r := ReserveUpload(l, owner, id, id, size, expires, now).0, Recover(l, owner, now);
            && Quiet(l, r) && id !in l.uploads
            && after.documents == l.documents
            && after.uploads == r.uploads[id := Upload(owner, id, size, Reserved, expires)]
  {
    QuietRecover(l, owner, now);
  }

  lemma ReserveKeepsInv(w: World, owner: Owner, id: Id, size: nat, expires: int, now: int)
    requires Inv(w)
    ensures Inv(Next(w, ReserveIt(owner, id, size, expires, now)))
  {
    var (ledger, outcome) := ReserveUpload(w.ledger, owner, id, id, size, expires, now);
    if outcome == Success {
      ReserveRows(w.ledger, owner, id, size, expires, now);
      NewRowKeepsInv(w, Recover(w.ledger, owner, now), ledger, id, Upload(owner, id, size, Reserved, expires));
    }
  }

  lemma NewRowKeepsInv(w: World, r: Ledger, after: Ledger, id: Id, row: Upload)
    requires Inv(w) && Quiet(w.ledger, r) && id !in w.ledger.uploads
    requires row.document == id && row.state == Reserved
    requires after.documents == w.ledger.documents && after.uploads == r.uploads[id := row]
    ensures Inv(w.(ledger := after, uploads := w.uploads[id := Handler(Putting, row.owner, row.bytes)]))
  {
    QuietKeepsInv(w, r);
    AddRowKeepsInv(w.(ledger := r), after, id, row);
  }

  lemma AddRowKeepsInv(w: World, after: Ledger, id: Id, row: Upload)
    requires Inv(w) && id !in w.ledger.uploads && row.document == id && row.state == Reserved
    requires after.documents == w.ledger.documents && after.uploads == w.ledger.uploads[id := row]
    ensures Inv(w.(ledger := after, uploads := w.uploads[id := Handler(Putting, row.owner, row.bytes)]))
  {
    assert id !in w.ledger.documents;
  }

  lemma CommitKeepsInv(w: World, id: Id)
    requires Inv(w)
    ensures Inv(Next(w, CommitIt(id)))
  {
    if At(w, id, Stored) {
      var owner, size := w.uploads[id].owner, w.uploads[id].size;
      var (ledger, outcome) := CommitUpload(w.ledger, owner, id, size, id);
      if outcome == Success { CommittedKeepsInv(w, ledger, owner, id, size); }
    }
  }

  lemma CommittedKeepsInv(w: World, ledger: Ledger, owner: Owner, id: Id, size: nat)
    requires Inv(w) && At(w, id, Stored)
    requires CommitUpload(w.ledger, owner, id, size, id) == (ledger, Success)
    ensures Inv(MoveOn(w.(ledger := ledger), id, Accepted))
  {
    assert StateOf(w.ledger, id, Reserved);
    assert ledger.documents == w.ledger.documents[id := Document(owner, size)];
    assert ledger.uploads == w.ledger.uploads[id := w.ledger.uploads[id].(state := Committed)];
  }

  lemma DeleteKeepsInv(w: World, owner: Owner, id: Id, read: Document)
    requires Inv(w)
    ensures Inv(Next(w, DeleteRow(owner, id, read)))
  {
    var ledger := ApplyDelete(w.ledger, owner, id, read);
    assert ledger.documents == w.ledger.documents - {id} && ledger.uploads == w.ledger.uploads;
  }

  lemma PutKeepsInv(w: World, id: Id)
    requires Inv(w)
    ensures Inv(Next(w, PutObject(id)))
  {
  }

  lemma PutFailureKeepsInv(w: World, id: Id, left: bool)
    requires Inv(w)
    ensures Inv(Next(w, PutFails(id, left)))
  {
  }

  lemma UndoKeepsInv(w: World, id: Id, removed: bool)
    requires Inv(w)
    ensures Inv(Next(w, UndoObject(id, removed)))
  {
  }

  lemma DeleteObjectKeepsInv(w: World, id: Id)
    requires Inv(w)
    ensures Inv(Next(w, DeleteObject(id)))
  {
  }

  lemma DeleteOrphanKeepsInv(w: World, id: Id)
    requires Inv(w)
    ensures Inv(Next(w, DeleteOrphan(id)))
  {
  }

  lemma ReadKeepsInv(w: World, id: Id)
    requires Inv(w)
    ensures Inv(Next(w, ReadRow(id)))
  {
  }

  lemma ListKeepsInv(w: World, id: Id)
    requires Inv(w)
    ensures Inv(Next(w, ListObject(id)))
  {
  }

  lemma CheckKeepsInv(w: World, id: Id)
    requires Inv(w)
    ensures Inv(Next(w, CheckReference(id)))
  {
    if id in w.listed && !Referenced(w.ledger, id) {
      assert w.ledger.uploads[id].document == id;
    }
  }

  lemma ReleaseKeepsInv(w: World, id: Id)
    requires Inv(w)
    ensures Inv(Next(w, ReleaseIt(id)))
  {
    QuietSettlement(w.ledger, id);
    QuietKeepsInv(w, ReleaseUpload(w.ledger, id).0);
  }

  lemma EndKeepsInv(w: World, request: Id)
    requires Inv(w)
    ensures Inv(Next(w, EndIt(request)))
  {
    QuietSettlement(w.ledger, request);
    QuietKeepsInv(w, EndAnswer(w.ledger, request).0);
  }

  lemma RecoverKeepsInv(w: World, owner: Owner, now: int)
    requires Inv(w)
    ensures Inv(Next(w, RecoverRows(owner, now)))
  {
    QuietRecover(w.ledger, owner, now);
    QuietKeepsInv(w, Recover(w.ledger, owner, now));
  }

  lemma BeginKeepsInv(w: World, owner: Owner, request: Id, expires: int, now: int)
    requires Inv(w)
    ensures Inv(Next(w, BeginIt(owner, request, expires, now)))
  {
    QuietBegin(w.ledger, owner, request, expires, now);
    QuietKeepsInv(w, BeginAnswer(w.ledger, owner, request, expires, now).0);
  }

  lemma NextKeepsInv(w: World, action: Action)
    requires Inv(w)
    ensures Inv(Next(w, action))
  {
    match action
    case ReserveIt(owner, id, size, expires, now) => ReserveKeepsInv(w, owner, id, size, expires, now);
    case CommitIt(id) => CommitKeepsInv(w, id);
    case DeleteRow(owner, id, read) => DeleteKeepsInv(w, owner, id, read);
    case PutObject(id) => PutKeepsInv(w, id);
    case PutFails(id, left) => PutFailureKeepsInv(w, id, left);
    case UndoObject(id, removed) => UndoKeepsInv(w, id, removed);
    case DeleteObject(id) => DeleteObjectKeepsInv(w, id);
    case DeleteOrphan(id) => DeleteOrphanKeepsInv(w, id);
    case ReadRow(id) => ReadKeepsInv(w, id);
    case ListObject(id) => ListKeepsInv(w, id);
    case CheckReference(id) => CheckKeepsInv(w, id);
    case ReleaseIt(id) => ReleaseKeepsInv(w, id);
    case EndIt(request) => EndKeepsInv(w, request);
    case RecoverRows(owner, now) => RecoverKeepsInv(w, owner, now);
    case BeginIt(owner, request, expires, now) => BeginKeepsInv(w, owner, request, expires, now);
  }

  // ----- Runs

  ghost function Trace(w: World, actions: seq<Action>): World
    decreases |actions|
  {
    if actions == [] then w else Trace(Next(w, actions[0]), actions[1..])
  }

  ghost predicate Start(w: World) {
    w == World(EMPTY, {}, map[], {}, {}, {}, {})
  }

  lemma {:induction false} TraceKeepsInv(w: World, actions: seq<Action>)
    requires Inv(w)
    ensures Inv(Trace(w, actions))
    decreases |actions|
  {
    if actions != [] {
      NextKeepsInv(w, actions[0]);
      TraceKeepsInv(Next(w, actions[0]), actions[1..]);
    }
  }

  /** In every reachable state each document row has its stored object. */
  lemma EveryRowHasItsObject(w: World, actions: seq<Action>)
    requires Start(w)
    ensures forall d | d in Trace(w, actions).ledger.documents :: d in Trace(w, actions).objects
  {
    TraceKeepsInv(w, actions);
  }

  // ----- The quota along a run

  /** The transactions of an action on the ledger: one at most. */
  ghost function StepsOf(w: World, action: Action): seq<Step> {
    match action
    case ReserveIt(owner, id, size, expires, now) => [Reserve(owner, id, id, size, expires, now)]
    case CommitIt(id) =>
      if At(w, id, Stored) then [Commit(w.uploads[id].owner, id, w.uploads[id].size, id)] else []
    case ReleaseIt(id) => if At(w, id, Releasing) then [Release(id)] else []
    case DeleteRow(owner, id, read) => if id in w.reading then [LateDelete(owner, id, read)] else []
    case RecoverRows(owner, now) => [RecoverOwner(owner, now)]
    case BeginIt(owner, request, expires, now) => [Begin(owner, request, expires, now)]
    case EndIt(request) => [End(request)]
    case _ => []
  }

  ghost function TraceSteps(w: World, actions: seq<Action>): seq<Step>
    decreases |actions|
  {
    if actions == [] then [] else StepsOf(w, actions[0]) + TraceSteps(Next(w, actions[0]), actions[1..])
  }

  /** Every handler goes on with the owner and the size that it reserved. */
  ghost predicate SizesKept(w: World) {
    forall id | id in w.uploads ::
      && id in w.ledger.uploads
      && w.ledger.uploads[id].owner == w.uploads[id].owner && w.ledger.uploads[id].bytes == w.uploads[id].size
  }

  lemma SettlingKeepsSizes(w: World, after: Ledger)
    requires SizesKept(w) && UploadsSettle(w.ledger.uploads, after.uploads)
    ensures SizesKept(w.(ledger := after))
  {
  }

  /** An action is such a transaction, or none, and keeps the sizes. */
  ghost predicate IsLedgerStep(w: World, action: Action) {
    && Run(w.ledger, StepsOf(w, action)) == Next(w, action).ledger
    && Handled(w.ledger, StepsOf(w, action))
    && SizesKept(Next(w, action))
  }

  /** An action that leaves the handlers where they are. */
  lemma StepKeepsSizes(w: World, step: Step)
    requires SizesKept(w) && SameSize(w.ledger, step)
    ensures Run(w.ledger, [step]) == Apply(w.ledger, step) && Handled(w.ledger, [step])
    ensures SizesKept(w.(ledger := Apply(w.ledger, step)))
  {
    RunOne(w.ledger, step);
    StepSettling(w.ledger, step);
    SettlingKeepsSizes(w, Apply(w.ledger, step));
  }

  lemma ReserveIsStep(w: World, owner: Owner, id: Id, size: nat, expires: int, now: int)
    requires SizesKept(w)
    ensures IsLedgerStep(w, ReserveIt(owner, id, size, expires, now))
  {
    var ledger := ReserveUpload(w.ledger, owner, id, id, size, expires, now).0;
    StepKeepsSizes(w, Reserve(owner, id, id, size, expires, now));
    assert SizesKept(w.(ledger := ledger));
  }

  lemma CommitIsStep(w: World, id: Id)
    requires SizesKept(w)
    ensures IsLedgerStep(w, CommitIt(id))
  {
    if At(w, id, Stored) {
      StepKeepsSizes(w, Commit(w.uploads[id].owner, id, w.uploads[id].size, id));
      assert SizesKept(w.(ledger := CommitUpload(w.ledger, w.uploads[id].owner, id, w.uploads[id].size, id).0));
    }
  }

  lemma ReleaseIsStep(w: World, id: Id)
    requires SizesKept(w)
    ensures IsLedgerStep(w, ReleaseIt(id))
  {
    if At(w, id, Releasing) { StepKeepsSizes(w, Release(id)); }
  }

  lemma DeleteIsStep(w: World, owner: Owner, id: Id, read: Document)
    requires SizesKept(w)
    ensures IsLedgerStep(w, DeleteRow(owner, id, read))
  {
    if id in w.reading {
      RunOne(w.ledger, LateDelete(owner, id, read));
      assert ApplyDelete(w.ledger, owner, id, read).uploads == w.ledger.uploads;
    }
  }

  lemma RecoverIsStep(w: World, owner: Owner, now: int)
    requires SizesKept(w)
    ensures IsLedgerStep(w, RecoverRows(owner, now))
  {
    StepKeepsSizes(w, RecoverOwner(owner, now));
  }

  lemma BeginIsStep(w: World, owner: Owner, request: Id, expires: int, now: int)
    requires SizesKept(w)
    ensures IsLedgerStep(w, BeginIt(owner, request, expires, now))
  {
    QuietBegin(w.ledger, owner, request, expires, now);
    SettlingKeepsSizes(w, BeginAnswer(w.ledger, owner, request, expires, now).0);
    RunOne(w.ledger, Begin(owner, request, expires, now));
  }

  lemma EndIsStep(w: World, request: Id)
    requires SizesKept(w)
    ensures IsLedgerStep(w, EndIt(request))
  {
    StepKeepsSizes(w, End(request));
  }

  lemma ActionIsStep(w: World, action: Action)
    requires SizesKept(w)
    ensures IsLedgerStep(w, action)
  {
    match action
    case ReserveIt(owner, id, size, expires, now) => ReserveIsStep(w, owner, id, size, expires, now);
    case CommitIt(id) => CommitIsStep(w, id);
    case ReleaseIt(id) => ReleaseIsStep(w, id);
    case DeleteRow(owner, id, read) => DeleteIsStep(w, owner, id, read);
    case RecoverRows(owner, now) => RecoverIsStep(w, owner, now);
    case BeginIt(owner, request, expires, now) => BeginIsStep(w, owner, request, expires, now);
    case EndIt(request) => EndIsStep(w, request);
    case _ =>
  }

  /** Whatever interleaves, the ledger goes through a run of transactions that commits what was reserved. */
  lemma {:induction false} TraceIsRun(w: World, actions: seq<Action>)
    requires SizesKept(w)
    ensures Run(w.ledger, TraceSteps(w, actions)) == Trace(w, actions).ledger
    ensures Handled(w.ledger, TraceSteps(w, actions))
    decreases |actions|
  {
    if actions != [] {
      var next, rest := Next(w, actions[0]), actions[1..];
      ActionIsStep(w, actions[0]);
      TraceIsRun(next, rest);
      RunAppend(w.ledger, StepsOf(w, actions[0]), TraceSteps(next, rest));
    }
  }

  /** In every reachable state every owner is within the limits. */
  lemma EveryOwnerWithinLimits(w: World, actions: seq<Action>)
    requires Start(w)
    ensures Safe(Trace(w, actions).ledger)
  {
    forall owner ensures WithinLimits(Recount(EMPTY, owner)) { NothingRecorded(owner); }
    TraceIsRun(w, actions);
    RunSafe(w.ledger, TraceSteps(w, actions));
  }

  // ----- Dead identifiers

  lemma QuietKeepsDead(l: Ledger, after: Ledger, id: Id)
    requires Quiet(l, after) && Dead(l, id)
    ensures Dead(after, id)
  {
  }

  lemma ReserveKeepsDead(w: World, owner: Owner, d: Id, size: nat, expires: int, now: int, id: Id)
    requires Dead(w.ledger, id)
    ensures Dead(Next(w, ReserveIt(owner, d, size, expires, now)).ledger, id)
  {
    if ReserveUpload(w.ledger, owner, d, d, size, expires, now).1 == Success {
      ReserveRows(w.ledger, owner, d, size, expires, now);
      QuietKeepsDead(w.ledger, Recover(w.ledger, owner, now), id);
    }
  }

  lemma BeginKeepsDead(w: World, owner: Owner, request: Id, expires: int, now: int, id: Id)
    requires Dead(w.ledger, id)
    ensures Dead(Next(w, BeginIt(owner, request, expires, now)).ledger, id)
  {
    QuietBegin(w.ledger, owner, request, expires, now);
    QuietKeepsDead(w.ledger, BeginAnswer(w.ledger, owner, request, expires, now).0, id);
  }

  lemma CommitKeepsDead(w: World, d: Id, id: Id)
    requires Inv(w) && Dead(w.ledger, id)
    ensures Dead(Next(w, CommitIt(d)).ledger, id)
  {
  }

  lemma DeleteKeepsDead(w: World, owner: Owner, d: Id, read: Document, id: Id)
    requires Dead(w.ledger, id)
    ensures Dead(Next(w, DeleteRow(owner, d, read)).ledger, id)
  {
    assert ApplyDelete(w.ledger, owner, d, read).documents == w.ledger.documents - {d};
  }

  lemma ReleaseKeepsDead(w: World, d: Id, id: Id)
    requires Dead(w.ledger, id)
    ensures Dead(Next(w, ReleaseIt(d)).ledger, id)
  {
    QuietSettlement(w.ledger, d);
    QuietKeepsDead(w.ledger, ReleaseUpload(w.ledger, d).0, id);
  }

  lemma EndKeepsDead(w: World, request: Id, id: Id)
    requires Dead(w.ledger, id)
    ensures Dead(Next(w, EndIt(request)).ledger, id)
  {
    QuietSettlement(w.ledger, request);
    QuietKeepsDead(w.ledger, EndAnswer(w.ledger, request).0, id);
  }

  lemma RecoverKeepsDead(w: World, owner: Owner, now: int, id: Id)
    requires Dead(w.ledger, id)
    ensures Dead(Next(w, RecoverRows(owner, now)).ledger, id)
  {
    QuietRecover(w.ledger, owner, now);
    QuietKeepsDead(w.ledger, Recover(w.ledger, owner, now), id);
  }

  lemma NextKeepsDead(w: World, action: Action, id: Id)
    requires Inv(w) && Dead(w.ledger, id)
    ensures Dead(Next(w, action).ledger, id)
  {
    match action
    case ReserveIt(owner, d, size, expires, now) => ReserveKeepsDead(w, owner, d, size, expires, now, id);
    case CommitIt(d) => CommitKeepsDead(w, d, id);
    case DeleteRow(owner, d, read) => DeleteKeepsDead(w, owner, d, read, id);
    case ReleaseIt(d) => ReleaseKeepsDead(w, d, id);
    case EndIt(request) => EndKeepsDead(w, request, id);
    case RecoverRows(owner, now) => RecoverKeepsDead(w, owner, now, id);
    case BeginIt(owner, request, expires, now) => BeginKeepsDead(w, owner, request, expires, now, id);
    case _ =>
  }

  lemma {:induction false} TraceKeepsDead(w: World, actions: seq<Action>, id: Id)
    requires Inv(w) && Dead(w.ledger, id)
    ensures Dead(Trace(w, actions).ledger, id)
    decreases |actions|
  {
    if actions != [] {
      NextKeepsInv(w, actions[0]);
      NextKeepsDead(w, actions[0], id);
      TraceKeepsDead(Next(w, actions[0]), actions[1..], id);
    }
  }

  /** Check-then-delete is safe: an existing object found unreferenced is never referenced again, whatever
      runs between the check and the deletion and ever after. */
  lemma UnreferencedForever(start: World, before: seq<Action>, after: seq<Action>, id: Id)
    requires Start(start)
    requires id in Trace(start, before).objects || id in Trace(start, before).listed
    requires !Referenced(Trace(start, before).ledger, id)
    ensures !Referenced(Trace(Trace(start, before), after).ledger, id)
  {
    var w := Trace(start, before);
    TraceKeepsInv(start, before);
    assert w.ledger.uploads[id].document == id;
    TraceKeepsDead(w, after, id);
    TraceKeepsInv(w, after);
  }

  /** The converse guard matters: without an object, an unreferenced identifier can still be taken into use,
      so reconciliation has to start from what it listed. */
  lemma UnreferencedButUnlisted(owner: Owner, id: Id, size: nat, expires: int, now: int)
    requires size <= MAX_OWNER_STORAGE
    ensures exists w, action :: Inv(w) && !Referenced(w.ledger, id) && Referenced(Next(w, action).ledger, id)
  {
    var w := World(EMPTY, {}, map[], {}, {}, {}, {});
    var action := ReserveIt(owner, id, size, expires, now);
    EmptyAdmits(owner, id, size, expires, now);
    var after := Next(w, action);
    assert after.ledger.uploads[id].state == Reserved;
    assert Inv(w) && !Referenced(w.ledger, id) && Referenced(after.ledger, id);
  }

  lemma EmptyAdmits(owner: Owner, id: Id, size: nat, expires: int, now: int)
    requires size <= MAX_OWNER_STORAGE
    ensures var (after, outcome) := ReserveUpload(EMPTY, owner, id, id, size, expires, now);
            outcome == Success && id in after.uploads && after.uploads[id] == Upload(owner, id, size, Reserved, expires)
  {
    RecoverTotals(EMPTY, owner, now);
    NothingRecorded(owner);
  }
}
