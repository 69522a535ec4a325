/**
 The job queue as the store and the worker run it (api/database.go, api/worker.go): row updates, the choice of
 the next row, and one pass of a worker.
 */
module JobStore {
  import opened Options
  import opened JobQueue
  import opened JobRuns
  import opened QueueLaws
  import RetryBackoff

  // ----- One pass of a worker

  /** The calls of one pass after its claim, by number: when each one comes, and which get no answer. */
  datatype Pass = Pass(claimedAt: int, duration: int, times: seq<int>, unanswered: set<nat>)

  /** When the lease ends that call k finds, if all calls before it went well. */
  ghost function LeaseAt(p: Pass, k: nat): int
    requires k <= |p.times|
  {
    (if k == 0 then p.claimedAt else p.times[k - 1]) + p.duration
  }

  /** Call k is answered, and finds the lease of the one before. */
  ghost predicate CallGoesWell(p: Pass, k: nat)
    requires k < |p.times|
  {
    k !in p.unanswered && p.times[k] < LeaseAt(p, k)
  }

  ghost predicate GoesWell(p: Pass, n: nat) {
    n <= |p.times| && forall k: nat | k < n :: CallGoesWell(p, k)
  }

  /** Call k is the first that does not go well. */
  ghost predicate EndsAt(p: Pass, k: nat) {
    k < |p.times| && GoesWell(p, k) && !CallGoesWell(p, k)
  }

  lemma NextCall(p: Pass, k: nat, time: int, next: nat)
    requires k < |p.times| && p.times[k] == time && next == k + 1 && GoesWell(p, k)
    ensures LeaseAt(p, next) == time + p.duration
    ensures k !in p.unanswered && time < LeaseAt(p, k) <==> GoesWell(p, next)
    ensures EndsAt(p, k) <==> !GoesWell(p, next)
  {
    assert GoesWell(p, next) ==> CallGoesWell(p, k);
  }

  lemma EndsEarly(p: Pass, k: nat)
    requires EndsAt(p, k)
    ensures !GoesWell(p, |p.times|)
  {
    assert !CallGoesWell(p, k);
  }

  ghost predicate StillHeld(job: Job, token: Token, attempts: nat, until: int) {
    && job.status == Processing && job.token == Some(token)
    && job.attempts == attempts && job.leaseExpires == Some(until)
  }

  /** The pass ended early: its row still bears the claim, until the lease runs out. */
  ghost predicate Ended(p: Pass, job: Job, token: Token, attempts: nat, outcome: Outcome) {
    && outcome in {LeaseLost, Unanswered}
    && exists k: nat ::
         && EndsAt(p, k) && (k in p.unanswered <==> outcome == Unanswered)
         && StillHeld(job, token, attempts, LeaseAt(p, k))
  }

  /** What the row shows after the settlement of this attempt. */
  ghost predicate Settled(q: Queue, id: Id, result: Result, attempts: nat, maxAttempts: nat, workerTime: int,
                          initial: RetryBackoff.Duration, max: RetryBackoff.Duration) {
    && id in q.jobs
    && match result
       case Processed(content) => q.jobs[id].status == Completed && Stored(q, id) == Some(content)
       case Broken(permanent) =>
         if permanent || attempts >= maxAttempts then
           q.jobs[id].status == Failed && q.jobs[id].kind == (if permanent then Permanent else Retryable)
         else
           && q.jobs[id].status == Queued
           && q.jobs[id].nextAttempt == Some(workerTime + RetryBackoff.Delay(attempts, initial as int, max as int))
  }

  // ----- The store

  class Store {
    var jobs: map<Id, Job>
    var chunks: map<Id, seq<string>>

    constructor ()
      ensures State() == Queue(map[], map[])
    {
      jobs, chunks := map[], map[];
    }

    function State(): Queue
      reads this
    {
      Queue(jobs, chunks)
    }

    /** Due jobs without attempts left become failed, one row after another. */
    method FailExhausted(now: int, maxAttempts: nat)
      modifies this`jobs
      ensures jobs == Sweep(old(jobs), now, maxAttempts)
      ensures TableSwept(old(jobs), jobs, now, maxAttempts)
    {
      SweepsRows(jobs, now, maxAttempts);
      var exhausted := set id | id in jobs && jobs[id].attempts >= maxAttempts && Due(jobs[id], now);
      while exhausted != {}
        invariant jobs.Keys == old(jobs).Keys && exhausted <= jobs.Keys
        invariant forall id | id in jobs :: jobs[id] == if id in exhausted then old(jobs)[id]
                  else SweepJob(old(jobs)[id], now, maxAttempts)
        decreases exhausted
      {
        var id :| id in exhausted;
        jobs := jobs[id := jobs[id].(status := Failed, kind := if jobs[id].kind == Permanent then Permanent
                                     else Retryable,
                                     nextAttempt := None, token := None, leaseExpires := None)];
        exhausted := exhausted - {id};
      }
    }

    /** The candidate query: the first claimable row in (due time, creation time, id) order. */
    method Candidate(now: int, maxAttempts: nat, skipped: set<Id>) returns (picked: Option<Id>)
      ensures picked.Some? ==> IsNext(jobs, picked.value, now, maxAttempts, skipped)
      ensures picked.None? ==> forall id :: !Claimable(jobs, id, now, maxAttempts, skipped)
    {
      picked := None;
      var left := jobs.Keys;
      while left != {}
        invariant left <= jobs.Keys
        invariant picked.Some? ==> Claimable(jobs, picked.value, now, maxAttempts, skipped)
        invariant forall id | Claimable(jobs, id, now, maxAttempts, skipped) ::
                    id in left || (picked.Some? && Before(jobs, picked.value, id))
        decreases left
      {
        var id :| id in left;
        left := left - {id};
        if Claimable(jobs, id, now, maxAttempts, skipped) && (picked.None? || !Before(jobs, picked.value, id)) {
          picked := Some(id);
        }
      }
    }

    method ClaimNext(token: Token, duration: int, now: int, maxAttempts: nat, skipped: set<Id>)
      returns (picked: Option<Id>)
      modifies this
      ensures picked.Some? ==> IsNext(Sweep(old(jobs), now, maxAttempts), picked.value, now, maxAttempts, skipped)
      ensures picked.None? ==> forall id :: !Claimable(Sweep(old(jobs), now, maxAttempts), id, now, maxAttempts,
                                                       skipped)
      ensures State() == Claim(old(State()), picked, token, duration, now, maxAttempts)
      ensures ClaimedFrom(old(jobs), jobs, picked, token, duration, now, maxAttempts, skipped)
    {
      FailExhausted(now, maxAttempts);
      picked := Candidate(now, maxAttempts, skipped);
      if picked.Some? {
        var row := jobs[picked.value];
        jobs := jobs[picked.value := row.(status := Processing, attempts := row.attempts + 1, nextAttempt := None,
                                          token := Some(token), leaseExpires := Some(now + duration))];
      }
      ClaimIsLawful(old(State()), picked, token, duration, now, maxAttempts, skipped);
    }

    method RenewLease(id: Id, token: Token, duration: int, now: int) returns (outcome: Outcome)
      modifies this
      ensures (State(), outcome) == Renew(old(State()), id, token, duration, now)
    {
      if !Holds(State(), id, token, now) {
        return LeaseLost;
      }
      jobs := jobs[id := jobs[id].(leaseExpires := Some(now + duration))];
      return Done;
    }

    method RetryLater(id: Id, token: Token, nextAttempt: int, now: int) returns (outcome: Outcome)
      modifies this
      ensures (State(), outcome) == Retry(old(State()), id, token, nextAttempt, now)
    {
      if !Holds(State(), id, token, now) {
        return LeaseLost;
      }
      jobs := jobs[id := jobs[id].(status := Queued, nextAttempt := Some(nextAttempt), token := None,
                                   leaseExpires := None, kind := Retryable)];
      return Done;
    }

    /** The status update comes first; only its success lets the chunk rows be replaced. */
    method CompleteJob(id: Id, token: Token, content: Content, now: int) returns (outcome: Outcome)
      modifies this
      ensures (State(), outcome) == Complete(old(State()), id, token, content, now)
    {
      if !Holds(State(), id, token, now) {
        return LeaseLost;
      }
      jobs := jobs[id := jobs[id].(status := Completed, text := Some(content.text), pages := content.pages,
                                   nextAttempt := None, token := None, leaseExpires := None)];
      chunks := chunks - {id};
      if |content.chunks| > 0 {
        chunks := chunks[id := content.chunks];
        assert chunks == old(chunks)[id := content.chunks];
      }
      return Done;
    }

    method FailJob(id: Id, token: Token, kind: FailureKind, now: int) returns (outcome: Outcome)
      modifies this
      ensures (State(), outcome) == Fail(old(State()), id, token, kind, now)
    {
      if !Holds(State(), id, token, now) {
        return LeaseLost;
      }
      jobs := jobs[id := jobs[id].(status := Failed, kind := kind, nextAttempt := None, token := None,
                                   leaseExpires := None)];
      return Done;
    }

    method RetryByOwner(owner: Owner, id: Id) returns (outcome: Outcome)
      modifies this
      ensures (State(), outcome) == RetryOwned(old(State()), owner, id)
    {
      if id !in jobs || jobs[id].owner != owner || jobs[id].status != Failed {
        return NotFound;
      }
      if jobs[id].kind == Permanent {
        return PermanentFailure;
      }
      jobs := jobs[id := jobs[id].(status := Queued, kind := Retryable, nextAttempt := None, token := None,
                                   leaseExpires := None, attempts := 0)];
      return Done;
    }

    method Beat(id: Id, token: Token, duration: int, now: int, fails: bool, ghost until: int, ghost attempts: nat)
      returns (outcome: Outcome)
      requires id in jobs && StillHeld(jobs[id], token, attempts, until)
      modifies this
      ensures outcome == if fails then Unanswered else if now < until then Done else LeaseLost
      ensures id in jobs && jobs == old(jobs)[id := jobs[id]]
      ensures StillHeld(jobs[id], token, attempts, if outcome == Done then now + duration else until)
    {
      if fails {
        return Unanswered;
      }
      outcome := RenewLease(id, token, duration, now);
    }

    /** The renewals of the lease while the document is processed. */
    method MaintainLease(id: Id, token: Token, duration: int, beats: seq<int>, unanswered: set<nat>, ghost pass: Pass,
                         ghost attempts: nat) returns (outcome: Outcome)
      requires |beats| < |pass.times| && pass.times[..|beats|] == beats
      requires pass.duration == duration && pass.unanswered == unanswered
      requires id in jobs && StillHeld(jobs[id], token, attempts, LeaseAt(pass, 0))
      modifies this
      ensures id in jobs && jobs == old(jobs)[id := jobs[id]]
      ensures outcome == Done ==>
                GoesWell(pass, |beats|) && StillHeld(jobs[id], token, attempts, LeaseAt(pass, |beats|))
      ensures outcome != Done ==>
                !GoesWell(pass, |pass.times|) && Ended(pass, jobs[id], token, attempts, outcome)
    {
      for i := 0 to |beats|
        invariant id in jobs && jobs == old(jobs)[id := jobs[id]]
        invariant StillHeld(jobs[id], token, attempts, LeaseAt(pass, i)) && GoesWell(pass, i)
      {
        ghost var until, next := LeaseAt(pass, i), i + 1;
        outcome := Beat(id, token, duration, beats[i], i in unanswered, until, attempts);
        NextCall(pass, i, beats[i], next);
        if outcome != Done {
          EndsEarly(pass, i);
          return;
        }
      }
      return Done;
    }

    /** The settlement that follows: `workerTime` is the worker's own clock. */
    method Settle(id: Id, token: Token, attempts: nat, maxAttempts: nat, now: int, fails: bool, workerTime: int,
                  result: Result, initial: RetryBackoff.Duration, max: RetryBackoff.Duration, ghost until: int)
      returns (outcome: Outcome)
      requires 0 < initial <= max
      requires id in jobs && StillHeld(jobs[id], token, attempts, until)
      modifies this
      ensures id in jobs && jobs == old(jobs)[id := jobs[id]]
      ensures outcome == if fails then Unanswered else if now < until then Done else LeaseLost
      ensures outcome == Done ==>
                Settled(State(), id, result, attempts, maxAttempts, workerTime, initial, max)
      ensures outcome != Done ==> jobs == old(jobs)
    {
      if fails {
        return Unanswered;
      }
      match result {
        case Processed(content) =>
          outcome := CompleteJob(id, token, content, now);
        case Broken(permanent) =>
          if permanent || attempts >= maxAttempts {
            outcome := FailJob(id, token, if permanent then Permanent else Retryable, now);
          } else {
            var delay := RetryBackoff.RetryDelay(attempts, initial, max);
            outcome := RetryLater(id, token, workerTime + delay as int, now);
          }
      }
    }

    /** What follows a claim: the renewals, at the database times `beats`, and the settlement at `settledAt`. */
    method ProcessClaimed(id: Id, token: Token, duration: int, attempts: nat, maxAttempts: nat, claimedAt: int,
                          beats: seq<int>, settledAt: int, unanswered: set<nat>, workerTime: int, result: Result,
                          initial: RetryBackoff.Duration, max: RetryBackoff.Duration)
      returns (outcome: Outcome)
      requires 0 < initial <= max
      requires id in jobs && StillHeld(jobs[id], token, attempts, claimedAt + duration)
      modifies this
      ensures id in jobs && jobs == old(jobs)[id := jobs[id]]
      ensures var pass := Pass(claimedAt, duration, beats + [settledAt], unanswered);
              if GoesWell(pass, |beats| + 1) then
                outcome == Done && Settled(State(), id, result, attempts, maxAttempts, workerTime, initial, max)
              else Ended(pass, jobs[id], token, attempts, outcome)
    {
      ghost var pass := Pass(claimedAt, duration, beats + [settledAt], unanswered);
      outcome := MaintainLease(id, token, duration, beats, unanswered, pass, attempts);
      if outcome != Done {
        return;
      }
      ghost var until := LeaseAt(pass, |beats|);
      outcome := Settle(id, token, attempts, maxAttempts, settledAt, |beats| in unanswered, workerTime, result, initial,
                        max, until);
      NextCall(pass, |beats|, settledAt, |beats| + 1);
    }

    /** One pass of a worker: claim, process, settle. The calls in `unanswered` fail without having changed anything;
        such a call, and a lost lease, ends the pass. `workerTime` is the worker's own clock. */
    method ProcessNext(token: Token, duration: int, maxAttempts: nat, skipped: set<Id>, claimedAt: int, beats: seq<int>,
                       settledAt: int, unanswered: set<nat>, workerTime: int, result: Result,
                       initial: RetryBackoff.Duration, max: RetryBackoff.Duration)
      returns (picked: Option<Id>, outcome: Outcome)
      requires 0 < initial <= max
      modifies this
      ensures picked.None? <==> forall id :: !Open(old(jobs), id, claimedAt, maxAttempts, skipped)
      ensures picked.None? ==>
                && outcome == NotFound
                && State() == Claim(old(State()), None, token, duration, claimedAt, maxAttempts)
      ensures picked.Some? ==>
                && IsNext(Sweep(old(jobs), claimedAt, maxAttempts), picked.value, claimedAt, maxAttempts, skipped)
                && picked.value in jobs
                && jobs == Sweep(old(jobs), claimedAt, maxAttempts)[picked.value := jobs[picked.value]]
                && var pass := Pass(claimedAt, duration, beats + [settledAt], unanswered);
                   var attempts := old(jobs)[picked.value].attempts + 1;
                   if GoesWell(pass, |beats| + 1) then
                     && outcome == Done
                     && Settled(State(), picked.value, result, attempts, maxAttempts, workerTime, initial, max)
                   else Ended(pass, jobs[picked.value], token, attempts, outcome)
    {
      picked := ClaimNext(token, duration, claimedAt, maxAttempts, skipped);
      if picked.None? {
        return None, NotFound;
      }
      outcome := ProcessClaimed(picked.value, token, duration, jobs[picked.value].attempts, maxAttempts, claimedAt,
                                beats,
                                settledAt, unanswered, workerTime, result, initial, max);
    }
  }
}
