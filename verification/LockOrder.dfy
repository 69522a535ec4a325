/**
 Deadlock freedom of the quota transactions over usage rows and reservation rows (api/database.go).

 A transaction is the list of row locks it still has to take; it keeps what it holds until it ends.
 Owners are numbered in the order in which the all-owner recovery visits them.
 */
module LockOrder {

  type Owner = nat
  type TxId = nat

  datatype Lock = UsageRow(owner: Owner) | ReservationRow(owner: Owner, id: nat)

  // ----- The locks each transaction takes

  datatype Operation =
    | Admit(owner: Owner, uploads: seq<nat>, answers: seq<nat>)
    | Settle(owner: Owner, reservation: nat)
    | DeleteDocument(owner: Owner)
    | RecoverAll(visits: seq<Visit>)

  /** One round of the recovery loop: an owner and the expired reservations found there, in any order. */
  datatype Visit = Visit(owner: Owner, uploads: seq<nat>, answers: seq<nat>)

  ghost function Rows(owner: Owner, ids: seq<nat>): seq<Lock> {
    seq(|ids|, i requires 0 <= i < |ids| => ReservationRow(owner, ids[i]))
  }

  ghost function VisitLocks(v: Visit): seq<Lock> {
    [UsageRow(v.owner)] + Rows(v.owner, v.uploads) + Rows(v.owner, v.answers)
  }

  ghost function RecoveryLocks(visits: seq<Visit>): seq<Lock> {
    if visits == [] then [] else VisitLocks(visits[0]) + RecoveryLocks(visits[1..])
  }

  /** ReserveUpload and BeginAnswer lock the usage row and then recover, which locks it again; commit, release and
      the end of an answer lock the usage row and then one reservation. */
  ghost function LocksOf(op: Operation): seq<Lock> {
    match op
    case Admit(owner, uploads, answers) => [UsageRow(owner)] + VisitLocks(Visit(owner, uploads, answers))
    case Settle(owner, reservation) => [UsageRow(owner), ReservationRow(owner, reservation)]
    case DeleteDocument(owner) => [UsageRow(owner)]
    case RecoverAll(visits) => RecoveryLocks(visits)
  }

  ghost predicate Ascending(visits: seq<Visit>) {
    forall i, j | 0 <= i < j < |visits| :: visits[i].owner < visits[j].owner
  }

  // ----- The discipline

  /** From a transaction that has visited owners up to `owner` (none yet when negative) and holds the usage row of
      that owner: usage rows come in ascending order, and reservations only under their own usage row. */
  ghost predicate Ordered(locks: seq<Lock>, owner: int) {
    locks == [] ||
    match locks[0]
    case UsageRow(o) => owner <= o && Ordered(locks[1..], o)
    case ReservationRow(o, _) => o == owner && Ordered(locks[1..], owner)
  }

  lemma {:induction false} OrderedRows(owner: Owner, ids: seq<nat>, rest: seq<Lock>)
    requires Ordered(rest, owner)
    ensures Ordered(Rows(owner, ids) + rest, owner)
    decreases |ids|
  {
    if ids == [] {
      assert Rows(owner, ids) + rest == rest;
    } else {
      OrderedRows(owner, ids[1..], rest);
      assert (Rows(owner, ids) + rest)[1..] == Rows(owner, ids[1..]) + rest;
    }
  }

  lemma OrderedVisit(v: Visit, from: int, rest: seq<Lock>)
    requires from <= v.owner && Ordered(rest, v.owner)
    ensures Ordered(VisitLocks(v) + rest, from)
  {
    var uploads, answers := Rows(v.owner, v.uploads), Rows(v.owner, v.answers);
    OrderedRows(v.owner, v.answers, rest);
    OrderedRows(v.owner, v.uploads, answers + rest);
    assert (VisitLocks(v) + rest)[1..] == uploads + (answers + rest);
  }

  lemma {:induction false} OrderedRecovery(visits: seq<Visit>, from: int)
    requires Ascending(visits) && forall v | v in visits :: from <= v.owner
    ensures Ordered(RecoveryLocks(visits), from)
    decreases |visits|
  {
    if visits != [] {
      OrderedRecovery(visits[1..], visits[0].owner);
      OrderedVisit(visits[0], from, RecoveryLocks(visits[1..]));
    }
  }

  /** Every transaction of the store follows the discipline. */
  lemma OperationsOrdered(op: Operation)
    requires op.RecoverAll? ==> Ascending(op.visits)
    ensures Ordered(LocksOf(op), -1)
  {
    match op
    case Admit(owner, uploads, answers) =>
      OrderedVisit(Visit(owner, uploads, answers), owner, []);
      assert VisitLocks(Visit(owner, uploads, answers)) + [] == LocksOf(op)[1..];
    case Settle(owner, reservation) =>
      assert LocksOf(op)[1..] == [ReservationRow(owner, reservation)];
    case DeleteDocument(owner) =>
    case RecoverAll(visits) => OrderedRecovery(visits, -1);
  }

  /** One round of the recovery locks the owner's usage row and the reservations found there. */
  ghost predicate Visited(v: Visit, lock: Lock) {
    lock.owner == v.owner && (lock.ReservationRow? ==> lock.id in v.uploads || lock.id in v.answers)
  }

  lemma VisitTakes(v: Visit, lock: Lock)
    ensures lock in VisitLocks(v) <==> Visited(v, lock)
  {
    var uploads, answers := Rows(v.owner, v.uploads), Rows(v.owner, v.answers);
    InRows(v.owner, v.uploads, lock);
    InRows(v.owner, v.answers, lock);
    assert VisitLocks(v) == [UsageRow(v.owner)] + uploads + answers;
  }

  lemma InRows(owner: Owner, ids: seq<nat>, lock: Lock)
    ensures lock in Rows(owner, ids) <==> lock.ReservationRow? && lock.owner == owner && lock.id in ids
  {
    if lock.ReservationRow? && lock.owner == owner && lock.id in ids {
      var i :| 0 <= i < |ids| && ids[i] == lock.id;
      assert Rows(owner, ids)[i] == lock;
    }
  }

  lemma {:induction false} RecoveryTakes(visits: seq<Visit>, lock: Lock)
    ensures lock in RecoveryLocks(visits) <==> exists v :: v in visits && Visited(v, lock)
    decreases |visits|
  {
    if visits != [] {
      VisitTakes(visits[0], lock);
      RecoveryTakes(visits[1..], lock);
    }
  }

  /** The rows that each transaction locks, and no others. */
  lemma OperationTakes(op: Operation, lock: Lock)
    ensures op.Admit? ==> (lock in LocksOf(op) <==> Visited(Visit(op.owner, op.uploads, op.answers), lock))
    ensures op.Settle? ==> (lock in LocksOf(op) <==> lock == UsageRow(op.owner)
                                                     || lock == ReservationRow(op.owner, op.reservation))
    ensures op.DeleteDocument? ==> (lock in LocksOf(op) <==> lock == UsageRow(op.owner))
    ensures op.RecoverAll? ==> (lock in LocksOf(op) <==> exists v :: v in op.visits && Visited(v, lock))
  {
    match op
    case Admit(owner, uploads, answers) => VisitTakes(Visit(owner, uploads, answers), lock);
    case RecoverAll(visits) => RecoveryTakes(visits, lock);
    case _ =>
  }

  // ----- The lock table

  /** A running transaction: what it still needs, what it holds, and the owner it last locked. */
  datatype Tx = Tx(needs: seq<Lock>, holds: set<Lock>, owner: int)

  type Table = map<TxId, Tx>

  ghost predicate Free(t: Table, tx: TxId, lock: Lock) {
    forall other | other in t && other != tx :: lock !in t[other].holds
  }

  ghost predicate CanStep(t: Table, tx: TxId) {
    tx in t && (t[tx].needs == [] || Free(t, tx, t[tx].needs[0]))
  }

  /** Take the next lock, or end and give everything back. */
  ghost function StepOf(t: Table, tx: TxId): Table
    requires CanStep(t, tx)
  {
    var me := t[tx];
    if me.needs == [] then t - {tx}
    else t[tx := Tx(me.needs[1..], me.holds + {me.needs[0]}, me.needs[0].owner)]
  }

  ghost predicate Inv(t: Table) {
    && (forall tx | tx in t :: Ordered(t[tx].needs, t[tx].owner))
    && (forall tx | tx in t :: forall lock | lock in t[tx].holds ::
          UsageRow(lock.owner) in t[tx].holds && lock.owner <= t[tx].owner)
    && (forall tx | tx in t && t[tx].owner >= 0 :: UsageRow(t[tx].owner) in t[tx].holds)
    && (forall a, b | a in t && b in t && a != b :: t[a].holds !! t[b].holds)
  }

  /** A transaction may begin at any time. */
  lemma BeginKeepsInv(t: Table, tx: TxId, op: Operation)
    requires Inv(t) && tx !in t
    requires op.RecoverAll? ==> Ascending(op.visits)
    ensures Inv(t[tx := Tx(LocksOf(op), {}, -1)])
  {
    OperationsOrdered(op);
  }

  lemma StepKeepsInv(t: Table, tx: TxId)
    requires Inv(t) && CanStep(t, tx)
    ensures Inv(StepOf(t, tx))
  {
    var me, after := t[tx], StepOf(t, tx);
    if me.needs != [] {
      var lock := me.needs[0];
      forall a, b | a in after && b in after && a != b ensures after[a].holds !! after[b].holds {
        assert t[a].holds !! t[b].holds;
      }
      assert forall l | l in after[tx].holds :: l == lock || l in me.holds;
    }
  }

  // ----- Progress

  ghost predicate WaitsFor(t: Table, a: TxId, b: TxId) {
    a in t && b in t && a != b && t[a].needs != [] && t[a].needs[0] in t[b].holds
  }

  /** Nobody waits for a reservation, and whoever is waited for has gone strictly further. */
  lemma WaitsForward(t: Table, a: TxId, b: TxId)
    requires Inv(t) && WaitsFor(t, a, b)
    ensures t[a].needs[0].UsageRow?
    ensures t[a].owner < t[b].owner
    ensures t[b].needs != [] && t[b].needs[0].UsageRow? ==> t[a].needs[0].owner <= t[b].needs[0].owner
    ensures t[a].needs[0].owner <= t[b].owner
  {
    var lock := t[a].needs[0];
    assert Ordered(t[a].needs, t[a].owner);
    assert UsageRow(lock.owner) in t[b].holds && lock.owner <= t[b].owner;
    assert t[a].holds !! t[b].holds;
    assert Ordered(t[b].needs, t[b].owner);
  }

  /** A path in the wait-for graph. */
  ghost predicate Path(t: Table, p: seq<TxId>) {
    |p| > 0 && forall i | 0 <= i < |p| - 1 :: WaitsFor(t, p[i], p[i + 1])
  }

  lemma {:induction false} PathClimbs(t: Table, p: seq<TxId>)
    requires Inv(t) && Path(t, p) && |p| > 1
    ensures p[0] in t && p[|p| - 1] in t && t[p[0]].owner < t[p[|p| - 1]].owner
    decreases |p|
  {
    WaitsForward(t, p[0], p[1]);
    assert WaitsFor(t, p[0], p[1]);
    if |p| > 2 {
      forall i | 0 <= i < |p[1..]| - 1 ensures WaitsFor(t, p[1..][i], p[1..][i + 1]) {
        assert WaitsFor(t, p[i + 1], p[i + 2]);
      }
      PathClimbs(t, p[1..]);
    }
  }

  /** No deadlock: the wait-for graph has no cycle. */
  lemma NoCycle(t: Table, p: seq<TxId>)
    requires Inv(t) && Path(t, p) && |p| > 1
    ensures p[0] != p[|p| - 1]
  {
    PathClimbs(t, p);
  }

  /** Whenever a transaction is unfinished, some transaction can step: follow the waits upwards. */
  lemma {:induction false} SomeoneCanStep(t: Table, tx: TxId, limit: int) returns (runner: TxId)
    requires Inv(t) && tx in t
    requires forall other | other in t :: t[other].owner <= limit
    ensures CanStep(t, runner)
    decreases limit - t[tx].owner
  {
    if CanStep(t, tx) {
      runner := tx;
    } else {
      var holder :| holder in t && holder != tx && t[tx].needs[0] in t[holder].holds;
      WaitsForward(t, tx, holder);
      runner := SomeoneCanStep(t, holder, limit);
    }
  }

  ghost function Furthest(t: Table): (limit: int)
    ensures forall tx | tx in t :: t[tx].owner <= limit
    decreases |t|
  {
    if t == map[] then 0 else
      var tx :| tx in t;
      var rest := t - {tx};
      assert rest.Keys == t.Keys - {tx} && |rest| == |rest.Keys| && |t| == |t.Keys|;
      var limit := Furthest(rest);
      assert forall other | other in t && other != tx :: other in rest && rest[other] == t[other];
      if limit < t[tx].owner then t[tx].owner else limit
  }

  lemma DeadlockFree(t: Table)
    requires Inv(t) && t != map[]
    ensures exists tx :: CanStep(t, tx)
  {
    var tx :| tx in t;
    var runner := SomeoneCanStep(t, tx, Furthest(t));
  }

  // ----- Every run ends

  /** Locks still to be taken, and one more step to end each transaction. */
  ghost function Remaining(t: Table): nat
    decreases |t|
  {
    if t == map[] then 0 else
      var tx :| tx in t;
      assert (t - {tx}).Keys == t.Keys - {tx} && |t - {tx}| == |(t - {tx}).Keys| && |t| == |t.Keys|;
      |t[tx].needs| + 1 + Remaining(t - {tx})
  }

  lemma {:induction false} RemainingWithout(t: Table, tx: TxId)
    requires tx in t
    ensures Remaining(t) == |t[tx].needs| + 1 + Remaining(t - {tx})
    decreases |t|
  {
    var first :| first in t && Remaining(t) == |t[first].needs| + 1 + Remaining(t - {first});
    if first != tx {
      assert (t - {tx}).Keys == t.Keys - {tx} && |t - {tx}| == |(t - {tx}).Keys| && |t| == |t.Keys|;
      assert (t - {first}).Keys == t.Keys - {first} && |t - {first}| == |(t - {first}).Keys|;
      RemainingWithout(t - {first}, tx);
      RemainingWithout(t - {tx}, first);
      assert t - {first} - {tx} == t - {tx} - {first};
    }
  }

  /** Each step leaves strictly less to do, so with no new arrivals every transaction ends. */
  lemma StepDecreases(t: Table, tx: TxId)
    requires CanStep(t, tx)
    ensures Remaining(StepOf(t, tx)) < Remaining(t)
  {
    RemainingWithout(t, tx);
    if t[tx].needs != [] {
      var after := StepOf(t, tx);
      RemainingWithout(after, tx);
      assert after - {tx} == t - {tx};
    }
  }

  /** A schedule that picks any transaction able to step finishes all of them. */
  lemma {:induction false} AllFinish(t: Table) returns (schedule: seq<TxId>)
    requires Inv(t)
    ensures Runs(t, schedule, map[]) && |schedule| <= Remaining(t)
    decreases Remaining(t)
  {
    if t == map[] {
      schedule := [];
    } else {
      DeadlockFree(t);
      var tx :| CanStep(t, tx);
      StepKeepsInv(t, tx);
      StepDecreases(t, tx);
      var rest := AllFinish(StepOf(t, tx));
      schedule := [tx] + rest;
      assert schedule[1..] == rest;
    }
  }

  ghost predicate Runs(t: Table, schedule: seq<TxId>, last: Table)
    decreases |schedule|
  {
    if schedule == [] then t == last
    else CanStep(t, schedule[0]) && Runs(StepOf(t, schedule[0]), schedule[1..], last)
  }

  /** Any schedule at all is shorter than the remaining work. */
  lemma {:induction false} EveryRunEnds(t: Table, schedule: seq<TxId>, last: Table)
    requires Inv(t) && Runs(t, schedule, last)
    ensures |schedule| + Remaining(last) <= Remaining(t) && Inv(last)
    decreases |schedule|
  {
    if schedule != [] {
      StepKeepsInv(t, schedule[0]);
      StepDecreases(t, schedule[0]);
      EveryRunEnds(StepOf(t, schedule[0]), schedule[1..], last);
    }
  }

  // ----- Reachable tables

  /** Transactions begin at any time and take steps in any order. */
  datatype Event = Begins(tx: TxId, op: Operation) | Steps(tx: TxId)

  ghost predicate Happens(t: Table, e: Event) {
    match e
    case Begins(tx, op) => tx !in t && (op.RecoverAll? ==> Ascending(op.visits))
    case Steps(tx) => CanStep(t, tx)
  }

  ghost function AfterEvent(t: Table, e: Event): Table
    requires Happens(t, e)
  {
    match e
    case Begins(tx, op) => t[tx := Tx(LocksOf(op), {}, -1)]
    case Steps(tx) => StepOf(t, tx)
  }

  /** The events lead from an idle database to this table. */
  ghost predicate Reaches(events: seq<Event>, t: Table)
    decreases |events|
  {
    if events == [] then t == map[]
    else
      var n := |events| - 1;
      exists before :: Reaches(events[..n], before) && Happens(before, events[n]) && t == AfterEvent(before, events[n])
  }

  lemma {:induction false} ReachableInv(events: seq<Event>, t: Table)
    requires Reaches(events, t)
    ensures Inv(t)
    decreases |events|
  {
    if events != [] {
      var n := |events| - 1;
      var before :| Reaches(events[..n], before) && Happens(before, events[n]) && t == AfterEvent(before, events[n]);
      ReachableInv(events[..n], before);
      match events[n]
      case Begins(tx, op) => BeginKeepsInv(before, tx, op);
      case Steps(tx) => StepKeepsInv(before, tx);
    }
  }

  /** The operation that a transaction last began with. */
  ghost function Began(events: seq<Event>, tx: TxId): (ops: seq<Operation>)
    ensures |ops| <= 1
    decreases |events|
  {
    if events == [] then []
    else
      var last := events[|events| - 1];
      if last.Begins? && last.tx == tx then [last.op] else Began(events[..|events| - 1], tx)
  }

  /** What the transaction's operation locks is what it holds and what it still needs. */
  ghost predicate Accounted(t: Table, tx: TxId, ops: seq<Operation>) {
    tx in t ==> |ops| == 1 && forall lock :: lock in LocksOf(ops[0]) <==> lock in t[tx].needs || lock in t[tx].holds
  }

  lemma StepAccounted(t: Table, runner: TxId, tx: TxId, ops: seq<Operation>)
    requires CanStep(t, runner) && Accounted(t, tx, ops)
    ensures Accounted(StepOf(t, runner), tx, ops)
    ensures tx in t && tx !in StepOf(t, runner) ==> t[tx].needs == []
  {
    if tx == runner && t[tx].needs != [] {
      assert t[tx].needs == [t[tx].needs[0]] + t[tx].needs[1..];
    }
  }

  lemma {:induction false} ReachableAccounted(events: seq<Event>, t: Table, tx: TxId)
    requires Reaches(events, t)
    ensures Accounted(t, tx, Began(events, tx))
    decreases |events|
  {
    if events != [] {
      var n := |events| - 1;
      var before :| Reaches(events[..n], before) && Happens(before, events[n]) && t == AfterEvent(before, events[n]);
      ReachableAccounted(events[..n], before, tx);
      if events[n].Steps? { StepAccounted(before, events[n].tx, tx, Began(events[..n], tx)); }
    }
  }

  /** In a reachable table no row is locked twice, whoever holds a reservation holds its owner's usage row, and a
      transaction that is about to end holds every row of its operation. */
  lemma ReachableExclusive(events: seq<Event>, t: Table, tx: TxId, other: TxId, lock: Lock)
    requires Reaches(events, t) && tx in t
    ensures lock in t[tx].holds ==> UsageRow(lock.owner) in t[tx].holds
    ensures lock in t[tx].holds && other in t && other != tx ==> lock !in t[other].holds
    ensures t[tx].needs == [] ==>
              |Began(events, tx)| == 1 && (lock in LocksOf(Began(events, tx)[0]) <==> lock in t[tx].holds)
  {
    ReachableInv(events, t);
    ReachableAccounted(events, t, tx);
  }

  /** In no table that any transactions can reach is there a circle of waits. */
  lemma ReachableNoCycle(events: seq<Event>, t: Table, p: seq<TxId>)
    requires Reaches(events, t) && Path(t, p) && |p| > 1
    ensures p[0] != p[|p| - 1]
  {
    ReachableInv(events, t);
    NoCycle(t, p);
  }

  /** Whatever transactions have begun and however far they are, one of them can step, and some schedule ends them
      all. */
  lemma ReachableProgress(events: seq<Event>, t: Table) returns (schedule: seq<TxId>)
    requires Reaches(events, t)
    ensures t != map[] ==> exists tx :: CanStep(t, tx)
    ensures Runs(t, schedule, map[]) && |schedule| <= Remaining(t)
  {
    ReachableInv(events, t);
    if t != map[] { DeadlockFree(t); }
    schedule := AllFinish(t);
  }

  /** No schedule without new arrivals is longer than the work that is left in a reachable table. */
  lemma ReachableRunsEnd(events: seq<Event>, t: Table, schedule: seq<TxId>, last: Table)
    requires Reaches(events, t) && Runs(t, schedule, last)
    ensures |schedule| + Remaining(last) <= Remaining(t)
  {
    ReachableInv(events, t);
    EveryRunEnds(t, schedule, last);
  }

  /** The discipline is what prevents the deadlock: a settlement that took the reservation first and the usage row
      second would leave it and an admission of the same owner waiting for each other. */
  lemma ReservationFirstDeadlocks(owner: Owner, reservation: nat)
    ensures var usage, row := UsageRow(owner), ReservationRow(owner, reservation);
            var t: Table := map[0 := Tx([row], {usage}, owner), 1 := Tx([usage], {row}, owner)];
            && !CanStep(t, 0) && !CanStep(t, 1)
            && Ordered(t[0].needs, t[0].owner) && !Ordered([row, usage], -1)
  {
    var usage, row := UsageRow(owner), ReservationRow(owner, reservation);
    var t: Table := map[0 := Tx([row], {usage}, owner), 1 := Tx([usage], {row}, owner)];
    assert row in t[1].holds && usage in t[0].holds;
    assert t[0].needs[1..] == [];
  }

  /** A commit keeps the discipline if and only if the reservation that it names is the owner's. One of an owner who
      comes first lets it and a recovery that has just visited that owner, and goes on to this one, wait for each
      other. */
  lemma ForeignReservationDeadlocks(owner: Owner, other: Owner, reservation: nat)
    ensures Ordered([UsageRow(other), ReservationRow(owner, reservation)], -1) <==> owner == other
    ensures owner < other ==>
              var mine, row, theirs := UsageRow(owner), ReservationRow(owner, reservation), UsageRow(other);
              var t: Table := map[0 := Tx([row], {theirs}, other), 1 := Tx([theirs], {mine, row}, owner)];
              !CanStep(t, 0) && !CanStep(t, 1) && Ordered([mine, row, theirs], -1)
  {
    var mine, row, theirs := UsageRow(owner), ReservationRow(owner, reservation), UsageRow(other);
    assert [theirs, row][1..] == [row] && [row][1..] == [];
    assert Ordered([row], other) <==> owner == other;
    assert [mine, row, theirs][1..] == [row, theirs] && [row, theirs][1..] == [theirs] && [theirs][1..] == [];
    assert owner < other ==> Ordered([theirs], owner) && Ordered([row, theirs], owner);
    var t: Table := map[0 := Tx([row], {theirs}, other), 1 := Tx([theirs], {mine, row}, owner)];
    assert row in t[1].holds && theirs in t[0].holds;
  }
}
