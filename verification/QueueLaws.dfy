/** What the statements of the job queue do to each row (api/database.go), without the functions that define them. */
module QueueLaws {
  import opened Options
  import opened JobQueue

  /** Whether a row waits for a worker: queued without a later time, or processed under a lease that has run out. */
  predicate Waits(job: Job, now: int) {
    match job.status
    case Queued => job.nextAttempt.Some? ==> now >= job.nextAttempt.value
    case Processing => job.leaseExpires.Some? ==> now >= job.leaseExpires.value
    case Completed => false
    case Failed => false
  }

  // ----- Claims

  /** After the first statement of a claim: a waiting row without an attempt left is failed and has no lease; every
      other row is as before. */
  ghost predicate RowSwept(before: Job, after: Job, now: int, maxAttempts: nat) {
    if Waits(before, now) && before.attempts >= maxAttempts then
      && after.status == Failed && after.token == None && after.leaseExpires == None && after.nextAttempt == None
      && after == before.(status := Failed, token := None, leaseExpires := None, nextAttempt := None)
    else after == before
  }

  ghost predicate TableSwept(before: map<Id, Job>, after: map<Id, Job>, now: int, maxAttempts: nat) {
    after.Keys == before.Keys && forall id | id in before :: RowSwept(before[id], after[id], now, maxAttempts)
  }

  /** A row that can be claimed: it waits, has an attempt left, and no other transaction has locked it. */
  ghost predicate Open(before: map<Id, Job>, id: Id, now: int, maxAttempts: nat, skipped: set<Id>) {
    id in before && id !in skipped && before[id].attempts < maxAttempts && Waits(before[id], now)
  }

  /** The times by which waiting rows are ordered. */
  function DueTime(job: Job): int {
    match job.nextAttempt
    case Some(time) => time
    case None => job.created
  }

  /** a does not come after b: by due time, then creation time, then identifier. */
  ghost predicate NotLater(before: map<Id, Job>, a: Id, b: Id)
    requires a in before && b in before
  {
    && DueTime(before[a]) <= DueTime(before[b])
    && (DueTime(before[a]) == DueTime(before[b]) ==> before[a].created <= before[b].created)
    && (DueTime(before[a]) == DueTime(before[b]) && before[a].created == before[b].created ==> a <= b)
  }

  /** The picked row becomes the worker's, with one attempt more and a lease from now. */
  ghost predicate RowTaken(before: Job, after: Job, token: Token, until: int) {
    && after.status == Processing && after.token == Some(token) && after.leaseExpires == Some(until)
    && after.attempts == before.attempts + 1 && after.nextAttempt == None
    && after.owner == before.owner && after.created == before.created && after.kind == before.kind
    && after.text == before.text && after.pages == before.pages
  }

  /** A whole claim on the table before it. */
  ghost predicate ClaimedFrom(before: map<Id, Job>, after: map<Id, Job>, picked: Option<Id>, token: Token,
                              duration: int, now: int, maxAttempts: nat, skipped: set<Id>) {
    && after.Keys == before.Keys
    && (picked.None? <==> forall id :: !Open(before, id, now, maxAttempts, skipped))
    && (picked.Some? ==>
          && Open(before, picked.value, now, maxAttempts, skipped)
          && RowTaken(before[picked.value], after[picked.value], token, now + duration)
          && forall other | Open(before, other, now, maxAttempts, skipped) :: NotLater(before, picked.value, other))
    && (forall id | id in before && Some(id) != picked :: RowSwept(before[id], after[id], now, maxAttempts))
  }

  lemma SweepsRows(jobs: map<Id, Job>, now: int, maxAttempts: nat)
    ensures TableSwept(jobs, Sweep(jobs, now, maxAttempts), now, maxAttempts)
  {
  }

  /** Sweeping does not change which rows can be claimed, nor what they hold. */
  lemma OpenAfterSweep(jobs: map<Id, Job>, id: Id, now: int, maxAttempts: nat, skipped: set<Id>)
    ensures Claimable(Sweep(jobs, now, maxAttempts), id, now, maxAttempts, skipped)
            <==> Open(jobs, id, now, maxAttempts, skipped)
    ensures Open(jobs, id, now, maxAttempts, skipped) ==> Sweep(jobs, now, maxAttempts)[id] == jobs[id]
  {
  }

  /** The claim as it is defined obeys this. */
  lemma ClaimIsLawful(q: Queue, picked: Option<Id>, token: Token, duration: int, now: int, maxAttempts: nat,
                      skipped: set<Id>)
    requires picked.Some? ==> IsNext(Sweep(q.jobs, now, maxAttempts), picked.value, now, maxAttempts, skipped)
    requires picked.None? ==> forall id :: !Claimable(Sweep(q.jobs, now, maxAttempts), id, now, maxAttempts, skipped)
    ensures picked.Some? ==> picked.value in q.jobs
    ensures var after := Claim(q, picked, token, duration, now, maxAttempts);
            && ClaimedFrom(q.jobs, after.jobs, picked, token, duration, now, maxAttempts, skipped)
            && after.chunks == q.chunks
  {
    var swept := Sweep(q.jobs, now, maxAttempts);
    if picked.Some? {
      OpenAfterSweep(q.jobs, picked.value, now, maxAttempts, skipped);
      forall other | Open(q.jobs, other, now, maxAttempts, skipped) ensures NotLater(q.jobs, picked.value, other) {
        OpenAfterSweep(q.jobs, other, now, maxAttempts, skipped);
        assert Before(swept, picked.value, other);
      }
    } else {
      forall id ensures !Open(q.jobs, id, now, maxAttempts, skipped) {
        OpenAfterSweep(q.jobs, id, now, maxAttempts, skipped);
      }
    }
  }

  // ----- Acts under a lease

  /** The row is processed under this token, and its lease has not run out. */
  ghost predicate LeasedTo(q: Queue, id: Id, token: Token, now: int) {
    && id in q.jobs && q.jobs[id].status == Processing
    && q.jobs[id].token == Some(token) && q.jobs[id].leaseExpires.Some? && now < q.jobs[id].leaseExpires.value
  }

  /** An act fails and changes nothing unless the token holds the lease, and otherwise changes no other row. */
  ghost predicate ActsOnRow(q: Queue, after: Queue, outcome: Outcome, id: Id, token: Token, now: int) {
    && (outcome == Done <==> LeasedTo(q, id, token, now))
    && (outcome != Done ==> outcome == LeaseLost && after == q)
    && (outcome == Done ==>
          && id in after.jobs && after.jobs - {id} == q.jobs - {id} && after.chunks - {id} == q.chunks - {id}
          && after.jobs[id].owner == q.jobs[id].owner && after.jobs[id].created == q.jobs[id].created
          && after.jobs[id].attempts == q.jobs[id].attempts)
  }

  lemma OtherRows<K, V>(m: map<K, V>, k: K, v: V)
    ensures m[k := v] - {k} == m - {k}
  {
  }

  lemma RenewLaw(q: Queue, id: Id, token: Token, duration: int, now: int)
    ensures var (after, outcome) := Renew(q, id, token, duration, now);
            && ActsOnRow(q, after, outcome, id, token, now)
            && (outcome == Done ==> LeasedTo(after, id, token, now + duration - 1) && after.chunks == q.chunks
                                    && !LeasedTo(after, id, token, now + duration))
  {
    if id in q.jobs { OtherRows(q.jobs, id, Renew(q, id, token, duration, now).0.jobs[id]); }
  }

  lemma RetryLaw(q: Queue, id: Id, token: Token, nextAttempt: int, now: int)
    ensures var (after, outcome) := Retry(q, id, token, nextAttempt, now);
            && ActsOnRow(q, after, outcome, id, token, now)
            && (outcome == Done ==>
                  && after.jobs[id].status == Queued && after.jobs[id].kind == Retryable && after.jobs[id].token == None
                  && after.chunks == q.chunks
                  && forall later :: Waits(after.jobs[id], later) <==> later >= nextAttempt)
  {
    if id in q.jobs { OtherRows(q.jobs, id, Retry(q, id, token, nextAttempt, now).0.jobs[id]); }
  }

  lemma CompleteLaw(q: Queue, id: Id, token: Token, content: Content, now: int)
    ensures var (after, outcome) := Complete(q, id, token, content, now);
            && ActsOnRow(q, after, outcome, id, token, now)
            && (outcome == Done ==>
                  && after.jobs[id].status == Completed && after.jobs[id].token == None
                  && after.jobs[id].text == Some(content.text) && after.jobs[id].pages == content.pages
                  && (if content.chunks == [] then id !in after.chunks
                      else id in after.chunks && after.chunks[id] == content.chunks))
  {
    if id in q.jobs { OtherRows(q.jobs, id, Complete(q, id, token, content, now).0.jobs[id]); }
    OtherRows(q.chunks, id, content.chunks);
  }

  lemma FailLaw(q: Queue, id: Id, token: Token, kind: FailureKind, now: int)
    ensures var (after, outcome) := Fail(q, id, token, kind, now);
            && ActsOnRow(q, after, outcome, id, token, now)
            && (outcome == Done ==>
                  && after.jobs[id].status == Failed && after.jobs[id].kind == kind && after.jobs[id].token == None
                  && after.chunks == q.chunks)
  {
    if id in q.jobs { OtherRows(q.jobs, id, Fail(q, id, token, kind, now).0.jobs[id]); }
  }

  // ----- The owner's side

  /** An owner's retry works exactly on the owner's failed jobs that are not failed for good, and makes them claimable
      at once with all their attempts. */
  lemma OwnerRetryLaw(q: Queue, owner: Owner, id: Id)
    ensures var (after, outcome) := RetryOwned(q, owner, id);
            && (outcome == Done <==>
                  id in q.jobs && q.jobs[id].owner == owner && q.jobs[id].status == Failed
                      && q.jobs[id].kind == Retryable)
            && (outcome == PermanentFailure <==>
                  id in q.jobs && q.jobs[id].owner == owner && q.jobs[id].status == Failed
                      && q.jobs[id].kind == Permanent)
            && (outcome != Done ==> after == q)
            && (outcome == Done ==>
                  && id in after.jobs && after.jobs - {id} == q.jobs - {id} && after.chunks == q.chunks
                  && after.jobs[id].attempts == 0
                  && forall now, maxAttempts: nat | maxAttempts > 0 :: Open(after.jobs, id, now, maxAttempts, {}))
  {
    if id in q.jobs { OtherRows(q.jobs, id, RetryOwned(q, owner, id).0.jobs[id]); }
  }

  /** A new job can be claimed at once. */
  lemma CreateLaw(q: Queue, id: Id, owner: Owner, now: int)
    ensures var (after, outcome) := Create(q, id, owner, now);
            && (outcome == Done <==> id !in q.jobs)
            && (outcome != Done ==> after == q)
            && (outcome == Done ==>
                  && id in after.jobs && after.jobs - {id} == q.jobs && after.chunks == q.chunks
                  && after.jobs[id].owner == owner && after.jobs[id].created == now && after.jobs[id].attempts == 0
                  && forall later, maxAttempts: nat | maxAttempts > 0 :: Open(after.jobs, id, later, maxAttempts, {}))
  {
    if id !in q.jobs { assert Create(q, id, owner, now).0.jobs - {id} == q.jobs; }
  }

  lemma DeleteLaw(q: Queue, owner: Owner, id: Id)
    ensures var (after, outcome) := JobQueue.Delete(q, owner, id);
            && (outcome == Done <==> id in q.jobs && q.jobs[id].owner == owner)
            && (outcome != Done ==> after == q)
            && (outcome == Done ==>
                  id !in after.jobs && id !in after.chunks
                  && after.jobs == q.jobs - {id} && after.chunks == q.chunks - {id})
  {
  }
}
