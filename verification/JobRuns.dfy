/**
 Workers and the job queue over whole runs (api/worker.go, api/database.go): fencing, the job state machine,
 bounded attempts, and whose result is stored. Tokens and identifiers are fresh; a worker that crashes or loses
 its heartbeat takes no more steps.
 */
module JobRuns {
  import opened Options
  import opened JobQueue

  /** How processing one claimed document ended. */
  datatype Result = Processed(content: Content) | Broken(permanent: bool)

  /** What a worker does with its claim. */
  datatype Act = Completing(content: Content) | Failing(kind: FailureKind) | Retrying(at: int) | Renewing(duration: int)

  /** The choice at the end of processNext. */
  function Choose(attempts: nat, maxAttempts: nat, result: Result, retryAt: int): (act: Act)
    ensures act == Retrying(retryAt) <==> result == Broken(false) && attempts < maxAttempts
    ensures act == Failing(Retryable) <==> result == Broken(false) && attempts >= maxAttempts
    ensures act == Failing(Permanent) <==> result == Broken(true)
    ensures result.Processed? ==> act == Completing(result.content)
  {
    match result
    case Processed(content) => Completing(content)
    case Broken(permanent) =>
      if permanent || attempts >= maxAttempts then Failing(if permanent then Permanent else Retryable)
      else Retrying(retryAt)
  }

  function Perform(q: Queue, id: Id, token: Token, act: Act, now: int): (Queue, Outcome) {
    match act
    case Completing(content) => Complete(q, id, token, content, now)
    case Failing(kind) => Fail(q, id, token, kind, now)
    case Retrying(at) => Retry(q, id, token, at, now)
    case Renewing(duration) => Renew(q, id, token, duration, now)
  }

  /** What a claim returned to its worker. */
  datatype Claimed = Claimed(id: Id, attempts: nat)

  datatype Event =
    | ClaimEvent(id: Id, token: Token, until: int)
    | ActEvent(id: Id, token: Token, act: Act, now: int)
    | OwnerRetryEvent(id: Id)
    | CreateEvent(id: Id)

  datatype System = System(queue: Queue, workers: map<Token, Claimed>, log: seq<Event>, seen: set<Id>)

  datatype Step =
    | DoCreate(id: Id, owner: Owner, now: int)
    | DoClaim(picked: Option<Id>, token: Token, duration: int, now: int, skipped: set<Id>)
    | DoRenew(token: Token, duration: int, now: int)
    | DoSettle(token: Token, result: Result, retryAt: int, now: int)
    | DoOwnerRetry(owner: Owner, id: Id)
    | DoDelete(owner: Owner, id: Id)

  /** A claim picks the first claimable row of the swept table, and nothing only when there is none. */
  ghost predicate Enabled(s: System, step: Step, maxAttempts: nat) {
    match step
    case DoCreate(id, _, _) => id !in s.seen
    case DoClaim(picked, token, _, now, skipped) =>
      var swept := Sweep(s.queue.jobs, now, maxAttempts);
      && token !in s.workers
      && (picked.Some? ==> IsNext(swept, picked.value, now, maxAttempts, skipped))
      && (picked.None? ==> forall id :: !Claimable(swept, id, now, maxAttempts, skipped))
    case DoRenew(token, _, _) => token in s.workers
    case DoSettle(token, _, _, _) => token in s.workers
    case _ => true
  }

  ghost function Acted(s: System, token: Token, act: Act, now: int): System
    requires token in s.workers
  {
    var id := s.workers[token].id;
    var (queue, outcome) := Perform(s.queue, id, token, act, now);
    s.(queue := queue, log := if outcome == Done then s.log + [ActEvent(id, token, act, now)] else s.log)
  }

  ghost function After(s: System, step: Step, maxAttempts: nat): System
    requires Enabled(s, step, maxAttempts)
  {
    match step
    case DoCreate(id, owner, now) =>
      s.(queue := Create(s.queue, id, owner, now).0, seen := s.seen + {id}, log := s.log + [CreateEvent(id)])
    case DoClaim(picked, token, duration, now, _) =>
      var queue := Claim(s.queue, picked, token, duration, now, maxAttempts);
      if picked.None? then s.(queue := queue)
      else s.(queue := queue, workers := s.workers[token := Claimed(picked.value, queue.jobs[picked.value].attempts)],
              log := s.log + [ClaimEvent(picked.value, token, now + duration)])
    case DoRenew(token, duration, now) => Acted(s, token, Renewing(duration), now)
    case DoSettle(token, result, retryAt, now) =>
      Acted(s, token, Choose(s.workers[token].attempts, maxAttempts, result, retryAt), now)
    case DoOwnerRetry(owner, id) =>
      var (queue, outcome) := RetryOwned(s.queue, owner, id);
      s.(queue := queue, log := if outcome == Done then s.log + [OwnerRetryEvent(id)] else s.log)
    case DoDelete(owner, id) => s.(queue := Delete(s.queue, owner, id).0)
  }

  // ----- Reading the log

  /** The token of the latest claim of a document. */
  ghost function LastClaim(log: seq<Event>, id: Id): Option<Token> {
    if log == [] then None
    else
      var last := log[|log| - 1];
      if last.ClaimEvent? && last.id == id then Some(last.token) else LastClaim(log[..|log| - 1], id)
  }

  /** When the lease of a document runs out: set by its latest claim or renewal. */
  ghost function LeaseEnd(log: seq<Event>, id: Id): Option<int> {
    if log == [] then None
    else
      var last := log[|log| - 1];
      if last.ClaimEvent? && last.id == id then Some(last.until)
      else if last.ActEvent? && last.id == id && last.act.Renewing? then Some(last.now + last.act.duration)
      else LeaseEnd(log[..|log| - 1], id)
  }

  ghost predicate UnderLease(log: seq<Event>, id: Id, now: int) {
    LeaseEnd(log, id).Some? && now < LeaseEnd(log, id).value
  }

  ghost predicate Settles(e: Event, token: Token) {
    e.ActEvent? && e.token == token && !e.act.Renewing?
  }

  ghost predicate SettledIn(log: seq<Event>, token: Token) {
    exists k | 0 <= k < |log| :: Settles(log[k], token)
  }

  ghost predicate ClaimedIn(log: seq<Event>, token: Token) {
    exists k | 0 <= k < |log| :: log[k].ClaimEvent? && log[k].token == token
  }

  ghost function Claims(log: seq<Event>, id: Id): nat {
    if log == [] then 0
    else Claims(log[..|log| - 1], id) + if log[|log| - 1].ClaimEvent? && log[|log| - 1].id == id then 1 else 0
  }

  ghost function OwnerRetries(log: seq<Event>, id: Id): nat {
    if log == [] then 0
    else OwnerRetries(log[..|log| - 1], id) + if log[|log| - 1] == OwnerRetryEvent(id) then 1 else 0
  }

  lemma Appended(log: seq<Event>, e: Event, id: Id)
    ensures (log + [e])[..|log|] == log
    ensures LastClaim(log + [e], id) == if e.ClaimEvent? && e.id == id then Some(e.token) else LastClaim(log, id)
    ensures LeaseEnd(log + [e], id)
            == if e.ClaimEvent? && e.id == id then Some(e.until)
               else if e.ActEvent? && e.id == id && e.act.Renewing? then Some(e.now + e.act.duration)
               else LeaseEnd(log, id)
    ensures Claims(log + [e], id) == Claims(log, id) + if e.ClaimEvent? && e.id == id then 1 else 0
    ensures OwnerRetries(log + [e], id) == OwnerRetries(log, id) + if e == OwnerRetryEvent(id) then 1 else 0
  {
    assert (log + [e])[..|log|] == log;
  }

  /** Every success in the log came before the lease ran out, and belonged to the latest claim of its document, whose
      token had not settled yet. */
  ghost predicate Fenced(log: seq<Event>, k: nat)
    requires k < |log|
  {
    match log[k]
    case ActEvent(id, token, _, now) =>
      LastClaim(log[..k], id) == Some(token) && !SettledIn(log[..k], token) && UnderLease(log[..k], id, now)
    case ClaimEvent(_, token, _) => !ClaimedIn(log[..k], token)
    case _ => true
  }

  ghost predicate LogFenced(log: seq<Event>) {
    forall k: nat | k < |log| :: Fenced(log, k)
  }

  // ----- The invariant

  /** The state machine of one row. */
  ghost predicate JobOk(job: Job, maxAttempts: nat) {
    && (job.status == Processing <==> job.token.Some?)
    && (job.status == Processing <==> job.leaseExpires.Some?)
    && (job.kind == Permanent ==> job.status == Failed)
    && job.attempts <= maxAttempts
    && (job.status == Queued ==> job.attempts < maxAttempts)
    && (job.text.Some? <==> job.status == Completed)
  }

  /** The worker that holds a row's token claimed that row last and has not settled. */
  ghost predicate HolderOk(s: System, id: Id)
    requires id in s.queue.jobs
  {
    var job := s.queue.jobs[id];
    job.token.Some? ==>
      && job.token.value in s.workers
      && s.workers[job.token.value] == Claimed(id, job.attempts)
      && LastClaim(s.log, id) == job.token
      && LeaseEnd(s.log, id) == job.leaseExpires
      && !SettledIn(s.log, job.token.value)
  }

  /** A completed row shows exactly what one token submitted, in an act that was fenced. */
  ghost predicate ContentOk(s: System, id: Id)
    requires id in s.queue.jobs
  {
    s.queue.jobs[id].status == Completed ==>
      exists k | 0 <= k < |s.log| ::
        s.log[k].ActEvent? && s.log[k].id == id && s.log[k].act.Completing?
            && Stored(s.queue, id) == Some(s.log[k].act.content)
  }

  /** Claims are paid for by attempts, and attempts are only given back by the owner. */
  ghost predicate CountOk(s: System, id: Id, maxAttempts: nat) {
    Claims(s.log, id) <= maxAttempts * OwnerRetries(s.log, id)
      + if id in s.queue.jobs then s.queue.jobs[id].attempts else if id in s.seen then maxAttempts else 0
  }

  ghost predicate RowOk(s: System, id: Id, maxAttempts: nat) {
    && (id in s.queue.jobs ==>
          id in s.seen && JobOk(s.queue.jobs[id], maxAttempts) && HolderOk(s, id) && ContentOk(s, id))
    && (id in s.queue.chunks ==> id in s.queue.jobs && s.queue.jobs[id].status == Completed)
    && CountOk(s, id, maxAttempts)
  }

  ghost predicate LogOk(s: System) {
    && LogFenced(s.log)
    && (forall k | 0 <= k < |s.log| && s.log[k].ClaimEvent? :: s.log[k].token in s.workers)
    && (forall k | 0 <= k < |s.log| && s.log[k].ActEvent? :: s.log[k].token in s.workers)
  }

  ghost predicate Inv(s: System, maxAttempts: nat) {
    LogOk(s) && forall id :: RowOk(s, id, maxAttempts)
  }

  // ----- The log grows at its end

  lemma SettledAfter(log: seq<Event>, e: Event, token: Token)
    ensures SettledIn(log + [e], token) <==> SettledIn(log, token) || Settles(e, token)
  {
    if SettledIn(log, token) {
      var k :| 0 <= k < |log| && Settles(log[k], token);
      assert Settles((log + [e])[k], token);
    }
    if Settles(e, token) {
      assert Settles((log + [e])[|log|], token);
    }
  }

  /** An event that the fence allows keeps the log fenced. */
  lemma FencedAfter(s: System, e: Event, workers: map<Token, Claimed>)
    requires LogOk(s)
    requires forall t | t in s.workers :: t in workers
    requires e.ActEvent? ==> e.token in workers && LastClaim(s.log, e.id) == Some(e.token) && !SettledIn(s.log, e.token)
    requires e.ActEvent? ==> UnderLease(s.log, e.id, e.now)
    requires e.ClaimEvent? ==> e.token in workers && e.token !in s.workers
    ensures LogOk(s.(log := s.log + [e], workers := workers))
  {
    var log := s.log + [e];
    forall k: nat | k < |log| ensures Fenced(log, k) {
      if k < |s.log| {
        assert log[..k] == s.log[..k];
        assert Fenced(s.log, k);
      } else {
        assert log[..k] == s.log;
      }
    }
  }

  // ----- Each step keeps each row right

  /** A row that a step does not touch stays right when the log gains an event about another row. */
  lemma OtherRow(s: System, after: System, e: Event, id: Id, maxAttempts: nat)
    requires RowOk(s, id, maxAttempts)
    requires after.log == s.log + [e]
    requires id in s.queue.jobs <==> id in after.queue.jobs
    requires id in s.queue.jobs ==> after.queue.jobs[id] == s.queue.jobs[id]
    requires id in s.queue.chunks <==> id in after.queue.chunks
    requires id in s.queue.chunks ==> after.queue.chunks[id] == s.queue.chunks[id]
    requires id in after.seen <==> id in s.seen
    requires forall t | t in s.workers :: t in after.workers && after.workers[t] == s.workers[t]
    requires match e
             case ClaimEvent(other, token, _) => other != id && token !in s.workers
             case ActEvent(other, token, _, _) => other != id && token in s.workers && s.workers[token].id == other
             case OwnerRetryEvent(other) => other != id
             case CreateEvent(_) => true
    ensures RowOk(after, id, maxAttempts)
  {
    Appended(s.log, e, id);
    if id in s.queue.jobs {
      var job := s.queue.jobs[id];
      if job.token.Some? { SettledAfter(s.log, e, job.token.value); }
      if job.status == Completed {
        var k :| 0 <= k < |s.log| && s.log[k].ActEvent? && s.log[k].id == id && s.log[k].act.Completing?
            && Stored(s.queue, id) == Some(s.log[k].act.content);
        assert after.log[k] == s.log[k];
      }
    }
  }

  lemma SweepKeepsRow(s: System, now: int, maxAttempts: nat, id: Id)
    requires RowOk(s, id, maxAttempts)
    ensures RowOk(s.(queue := s.queue.(jobs := Sweep(s.queue.jobs, now, maxAttempts))), id, maxAttempts)
  {
    var after := s.(queue := s.queue.(jobs := Sweep(s.queue.jobs, now, maxAttempts)));
    if id in s.queue.jobs && s.queue.jobs[id].status == Completed {
      assert Stored(after.queue, id) == Stored(s.queue, id);
    }
  }

  lemma ClaimKeepsRow(s: System, picked: Id, token: Token, duration: int, now: int, skipped: set<Id>, maxAttempts: nat,
                      id: Id)
    requires LogOk(s) && RowOk(s, id, maxAttempts)
    requires Enabled(s, DoClaim(Some(picked), token, duration, now, skipped), maxAttempts)
    ensures RowOk(After(s, DoClaim(Some(picked), token, duration, now, skipped), maxAttempts), id, maxAttempts)
  {
    var after := After(s, DoClaim(Some(picked), token, duration, now, skipped), maxAttempts);
    var e := ClaimEvent(picked, token, now + duration);
    SweepKeepsRow(s, now, maxAttempts, id);
    var swept := s.(queue := s.queue.(jobs := Sweep(s.queue.jobs, now, maxAttempts)));
    if id != picked {
      OtherRow(swept, after, e, id, maxAttempts);
    } else {
      Appended(s.log, e, id);
      SettledAfter(s.log, e, token);
    }
  }

  lemma ActKeepsRow(s: System, token: Token, act: Act, now: int, maxAttempts: nat, id: Id)
    requires token in s.workers && RowOk(s, id, maxAttempts) && RowOk(s, s.workers[token].id, maxAttempts)
    requires act.Retrying? ==> s.workers[token].attempts < maxAttempts
    ensures RowOk(Acted(s, token, act, now), id, maxAttempts)
  {
    var doc := s.workers[token].id;
    if Perform(s.queue, doc, token, act, now).1 == Done {
      var after, e := Acted(s, token, act, now), ActEvent(doc, token, act, now);
      if id != doc {
        OtherRow(s, after, e, id, maxAttempts);
      } else {
        Appended(s.log, e, id);
        SettledAfter(s.log, e, token);
        if act.Completing? {
          assert after.log[|s.log|] == e;
          assert Stored(after.queue, id) == Some(act.content);
        }
      }
    }
  }

  lemma ActKeepsLog(s: System, token: Token, act: Act, now: int, maxAttempts: nat)
    requires LogOk(s) && token in s.workers && RowOk(s, s.workers[token].id, maxAttempts)
    ensures LogOk(Acted(s, token, act, now))
  {
    var doc := s.workers[token].id;
    if Perform(s.queue, doc, token, act, now).1 == Done {
      FencedAfter(s, ActEvent(doc, token, act, now), s.workers);
    }
  }

  lemma OwnerRetryKeepsRow(s: System, owner: Owner, doc: Id, maxAttempts: nat, id: Id)
    requires maxAttempts > 0 && RowOk(s, id, maxAttempts)
    ensures RowOk(After(s, DoOwnerRetry(owner, doc), maxAttempts), id, maxAttempts)
  {
    if RetryOwned(s.queue, owner, doc).1 == Done {
      var after, e := After(s, DoOwnerRetry(owner, doc), maxAttempts), OwnerRetryEvent(doc);
      if id != doc {
        OtherRow(s, after, e, id, maxAttempts);
      } else {
        RetriedCounts(s, owner, id, maxAttempts);
        RetriedRow(s, owner, id, maxAttempts);
      }
    }
  }

  lemma RetriedCounts(s: System, owner: Owner, id: Id, maxAttempts: nat)
    requires RowOk(s, id, maxAttempts) && RetryOwned(s.queue, owner, id).1 == Done
    ensures CountOk(After(s, DoOwnerRetry(owner, id), maxAttempts), id, maxAttempts)
  {
    Appended(s.log, OwnerRetryEvent(id), id);
    OnceMore(maxAttempts, OwnerRetries(s.log, id));
  }

  lemma OnceMore(a: nat, b: nat)
    ensures a * (b + 1) == a * b + a
  {
  }

  lemma RetriedRow(s: System, owner: Owner, id: Id, maxAttempts: nat)
    requires maxAttempts > 0 && RowOk(s, id, maxAttempts) && RetryOwned(s.queue, owner, id).1 == Done
    ensures var after := After(s, DoOwnerRetry(owner, id), maxAttempts);
            && id in after.queue.jobs && id in after.seen && JobOk(after.queue.jobs[id], maxAttempts)
            && HolderOk(after, id) && ContentOk(after, id) && id !in after.queue.chunks
  {
  }

  lemma CreateKeepsRow(s: System, doc: Id, owner: Owner, now: int, maxAttempts: nat, id: Id)
    requires maxAttempts > 0 && RowOk(s, id, maxAttempts) && doc !in s.seen
    ensures RowOk(After(s, DoCreate(doc, owner, now), maxAttempts), id, maxAttempts)
  {
    var after := After(s, DoCreate(doc, owner, now), maxAttempts);
    if id != doc {
      OtherRow(s, after, CreateEvent(doc), id, maxAttempts);
    } else {
      Appended(s.log, CreateEvent(doc), id);
    }
  }

  lemma DeleteKeepsRow(s: System, owner: Owner, doc: Id, maxAttempts: nat, id: Id)
    requires RowOk(s, id, maxAttempts)
    ensures RowOk(After(s, DoDelete(owner, doc), maxAttempts), id, maxAttempts)
  {
    var after := After(s, DoDelete(owner, doc), maxAttempts);
    if id in after.queue.jobs && after.queue.jobs[id].status == Completed {
      assert Stored(after.queue, id) == Stored(s.queue, id);
    }
  }

  lemma StepKeepsLog(s: System, step: Step, maxAttempts: nat)
    requires Inv(s, maxAttempts) && Enabled(s, step, maxAttempts)
    ensures LogOk(After(s, step, maxAttempts))
  {
    match step
    case DoCreate(id, _, _) => FencedAfter(s, CreateEvent(id), s.workers);
    case DoClaim(picked, token, duration, now, _) =>
      if picked.Some? {
        FencedAfter(s, ClaimEvent(picked.value, token, now + duration), After(s, step, maxAttempts).workers);
      }
    case DoRenew(token, duration, now) =>
      assert RowOk(s, s.workers[token].id, maxAttempts);
      ActKeepsLog(s, token, Renewing(duration), now, maxAttempts);
    case DoSettle(token, result, retryAt, now) =>
      assert RowOk(s, s.workers[token].id, maxAttempts);
      ActKeepsLog(s, token, Choose(s.workers[token].attempts, maxAttempts, result, retryAt), now, maxAttempts);
    case DoOwnerRetry(_, id) => FencedAfter(s, OwnerRetryEvent(id), s.workers);
    case DoDelete(_, _) =>
  }

  lemma StepKeepsInv(s: System, step: Step, maxAttempts: nat)
    requires maxAttempts > 0 && Inv(s, maxAttempts) && Enabled(s, step, maxAttempts)
    ensures Inv(After(s, step, maxAttempts), maxAttempts)
  {
    StepKeepsLog(s, step, maxAttempts);
    forall id ensures RowOk(After(s, step, maxAttempts), id, maxAttempts) {
      assert RowOk(s, id, maxAttempts);
      match step
      case DoCreate(doc, owner, now) => CreateKeepsRow(s, doc, owner, now, maxAttempts, id);
      case DoClaim(picked, token, duration, now, skipped) =>
        if picked.Some? {
          ClaimKeepsRow(s, picked.value, token, duration, now, skipped, maxAttempts, id);
        } else {
          SweepKeepsRow(s, now, maxAttempts, id);
        }
      case DoRenew(token, duration, now) =>
        assert RowOk(s, s.workers[token].id, maxAttempts);
        ActKeepsRow(s, token, Renewing(duration), now, maxAttempts, id);
      case DoSettle(token, result, retryAt, now) =>
        assert RowOk(s, s.workers[token].id, maxAttempts);
        ActKeepsRow(s, token, Choose(s.workers[token].attempts, maxAttempts, result, retryAt), now, maxAttempts, id);
      case DoOwnerRetry(owner, doc) => OwnerRetryKeepsRow(s, owner, doc, maxAttempts, id);
      case DoDelete(owner, doc) => DeleteKeepsRow(s, owner, doc, maxAttempts, id);
    }
  }

  // ----- Runs

  const EMPTY := System(Queue(map[], map[]), map[], [], {})

  ghost predicate Reachable(s: System, steps: seq<Step>, maxAttempts: nat)
    decreases |steps|
  {
    if steps == [] then s == EMPTY
    else
      var last := |steps| - 1;
      exists before :: Reachable(before, steps[..last], maxAttempts) && Enabled(before, steps[last], maxAttempts)
                       && s == After(before, steps[last], maxAttempts)
  }

  lemma {:induction false} ReachableInv(s: System, steps: seq<Step>, maxAttempts: nat)
    requires maxAttempts > 0 && Reachable(s, steps, maxAttempts)
    ensures Inv(s, maxAttempts)
    decreases |steps|
  {
    if steps != [] {
      var last := |steps| - 1;
      var before :| Reachable(before, steps[..last], maxAttempts) && Enabled(before, steps[last], maxAttempts)
                    && s == After(before, steps[last], maxAttempts);
      ReachableInv(before, steps[..last], maxAttempts);
      StepKeepsInv(before, steps[last], maxAttempts);
    }
  }

  // ----- Main results

  /** At most one token can act on a document at any time: the one of its latest claim, which has not settled. */
  lemma OneHolder(s: System, steps: seq<Step>, maxAttempts: nat, id: Id, token: Token, now: int)
    requires maxAttempts > 0 && Reachable(s, steps, maxAttempts)
    requires Holds(s.queue, id, token, now)
    ensures LastClaim(s.log, id) == Some(token) && !SettledIn(s.log, token)
    ensures token in s.workers && s.workers[token] == Claimed(id, s.queue.jobs[id].attempts)
    ensures forall other, later | Holds(s.queue, id, other, later) :: other == token
  {
    ReachableInv(s, steps, maxAttempts);
    assert RowOk(s, id, maxAttempts);
  }

  lemma {:induction false} LastClaimAt(log: seq<Event>, id: Id) returns (k: nat)
    requires LastClaim(log, id).Some?
    ensures k < |log| && log[k].ClaimEvent? && log[k].id == id && log[k].token == LastClaim(log, id).value
    ensures forall j | k < j < |log| :: !(log[j].ClaimEvent? && log[j].id == id)
    decreases |log|
  {
    var last := |log| - 1;
    if log[last].ClaimEvent? && log[last].id == id {
      k := last;
    } else {
      k := LastClaimAt(log[..last], id);
    }
  }

  /** Fencing: in every run, once a later claim of the document has succeeded, no renewal, retry, completion or failure
      under the earlier token succeeds. */
  lemma NoActAfterLaterClaim(s: System, steps: seq<Step>, maxAttempts: nat, id: Id, first: nat, second: nat, act: nat)
    requires maxAttempts > 0 && Reachable(s, steps, maxAttempts)
    requires first < second < act < |s.log|
    requires s.log[first].ClaimEvent? && s.log[first].id == id && s.log[second].ClaimEvent? && s.log[second].id == id
    requires s.log[act].ActEvent? && s.log[act].id == id
    ensures s.log[act].token != s.log[first].token
  {
    ReachableInv(s, steps, maxAttempts);
    var log := s.log;
    assert Fenced(log, act);
    var k := LastClaimAt(log[..act], id);
    assert log[..act][second] == log[second];
    assert k >= second;
    assert Fenced(log, k);
    assert log[..k][first] == log[first];
    assert ClaimedIn(log[..k], log[first].token);
  }

  /** In every run each token settles its claim at most once, and does nothing afterwards. */
  lemma SettledOnce(s: System, steps: seq<Step>, maxAttempts: nat, settle: nat, later: nat)
    requires maxAttempts > 0 && Reachable(s, steps, maxAttempts)
    requires settle < later < |s.log|
    requires s.log[settle].ActEvent? && !s.log[settle].act.Renewing? && s.log[later].ActEvent?
    ensures s.log[later].token != s.log[settle].token
  {
    ReachableInv(s, steps, maxAttempts);
    assert Fenced(s.log, later);
    assert Settles(s.log[..later][settle], s.log[settle].token);
  }

  /** What a reader sees of a document in any reachable state: content exactly when completed, and then exactly what
      some act submitted under the latest claim at that moment, which was not settled before and whose lease had not run
      out. */
  lemma StoredContentIsFenced(s: System, steps: seq<Step>, maxAttempts: nat, id: Id)
    requires maxAttempts > 0 && Reachable(s, steps, maxAttempts) && id in s.queue.jobs
    ensures Stored(s.queue, id).Some? <==> s.queue.jobs[id].status == Completed
    ensures s.queue.jobs[id].status != Completed ==> id !in s.queue.chunks
    ensures s.queue.jobs[id].status == Completed ==>
              exists k | 0 <= k < |s.log| ::
                && s.log[k].ActEvent? && s.log[k].id == id && s.log[k].act.Completing?
                && Stored(s.queue, id) == Some(s.log[k].act.content)
                && LastClaim(s.log[..k], id) == Some(s.log[k].token) && !SettledIn(s.log[..k], s.log[k].token)
                && UnderLease(s.log[..k], id, s.log[k].now)
  {
    ReachableInv(s, steps, maxAttempts);
    assert RowOk(s, id, maxAttempts);
    if s.queue.jobs[id].status == Completed {
      var k :| 0 <= k < |s.log| && s.log[k].ActEvent? && s.log[k].id == id && s.log[k].act.Completing?
          && Stored(s.queue, id) == Some(s.log[k].act.content);
      assert Fenced(s.log, k);
    }
  }

  /** A document is claimed at most maxAttempts times, and as often again for each retry by its owner. */
  lemma ClaimsBounded(s: System, steps: seq<Step>, maxAttempts: nat, id: Id)
    requires maxAttempts > 0 && Reachable(s, steps, maxAttempts)
    ensures Claims(s.log, id) <= maxAttempts * (1 + OwnerRetries(s.log, id))
    ensures id in s.queue.jobs ==> JobOk(s.queue.jobs[id], maxAttempts)
  {
    ReachableInv(s, steps, maxAttempts);
    assert RowOk(s, id, maxAttempts);
    assert maxAttempts * (1 + OwnerRetries(s.log, id)) == maxAttempts + maxAttempts * OwnerRetries(s.log, id);
  }

  /** Completed and permanently failed rows only ever disappear. */
  ghost predicate Final(job: Job) {
    job.status == Completed || (job.status == Failed && job.kind == Permanent)
  }

  lemma FinalIsAbsorbing(s: System, step: Step, maxAttempts: nat, id: Id)
    requires Inv(s, maxAttempts) && Enabled(s, step, maxAttempts)
    requires id in s.queue.jobs && Final(s.queue.jobs[id])
    ensures var q := After(s, step, maxAttempts).queue;
            id in q.jobs ==> q.jobs[id] == s.queue.jobs[id] && Stored(q, id) == Stored(s.queue, id)
    ensures !step.DoDelete? ==> id in After(s, step, maxAttempts).queue.jobs
  {
    assert RowOk(s, id, maxAttempts);
  }
}
