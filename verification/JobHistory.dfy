/** How often a document was tried: what its row says and what the log of the run says (api/database.go,
    api/worker.go). */
module JobHistory {
  import opened Options
  import opened JobQueue
  import opened JobRuns

  /** The claims of a document since it was created or its owner last retried it. */
  ghost function ClaimsSince(log: seq<Event>, id: Id): nat {
    if log == [] then 0
    else
      var last := log[|log| - 1];
      if last == CreateEvent(id) || last == OwnerRetryEvent(id) then 0
      else ClaimsSince(log[..|log| - 1], id) + if last.ClaimEvent? && last.id == id then 1 else 0
  }

  lemma LogGrows(log: seq<Event>, e: Event, id: Id)
    ensures ClaimsSince(log + [e], id)
            == if e == CreateEvent(id) || e == OwnerRetryEvent(id) then 0
               else ClaimsSince(log, id) + if e.ClaimEvent? && e.id == id then 1 else 0
  {
    assert (log + [e])[..|log|] == log;
  }

  /** A row has used as many attempts as it was claimed. */
  ghost predicate Tallied(s: System, id: Id) {
    id in s.queue.jobs ==> s.queue.jobs[id].attempts == ClaimsSince(s.log, id)
  }

  lemma ClaimTallies(s: System, picked: Option<Id>, token: Token, duration: int, now: int, skipped: set<Id>,
                     maxAttempts: nat, id: Id)
    requires Enabled(s, DoClaim(picked, token, duration, now, skipped), maxAttempts) && Tallied(s, id)
    ensures Tallied(After(s, DoClaim(picked, token, duration, now, skipped), maxAttempts), id)
  {
    if picked.Some? { LogGrows(s.log, ClaimEvent(picked.value, token, now + duration), id); }
  }

  lemma ActKeepsAttempts(q: Queue, doc: Id, token: Token, act: Act, now: int, id: Id)
    ensures var after := Perform(q, doc, token, act, now).0;
            id in after.jobs ==> id in q.jobs && after.jobs[id].attempts == q.jobs[id].attempts
  {
  }

  lemma ActTallies(s: System, token: Token, act: Act, now: int, id: Id)
    requires token in s.workers && Tallied(s, id)
    ensures Tallied(Acted(s, token, act, now), id)
  {
    var doc := s.workers[token].id;
    ActKeepsAttempts(s.queue, doc, token, act, now, id);
    LogGrows(s.log, ActEvent(doc, token, act, now), id);
  }

  lemma OwnerTallies(s: System, owner: Owner, doc: Id, maxAttempts: nat, id: Id)
    requires Tallied(s, id)
    ensures Tallied(After(s, DoOwnerRetry(owner, doc), maxAttempts), id)
  {
    LogGrows(s.log, OwnerRetryEvent(doc), id);
  }

  lemma StepTallies(s: System, step: Step, maxAttempts: nat, id: Id)
    requires Enabled(s, step, maxAttempts) && Tallied(s, id) && Inv(s, maxAttempts)
    ensures Tallied(After(s, step, maxAttempts), id)
  {
    match step
    case DoCreate(doc, owner, now) =>
      assert RowOk(s, doc, maxAttempts);
      LogGrows(s.log, CreateEvent(doc), id);
    case DoClaim(picked, token, duration, now, skipped) =>
      ClaimTallies(s, picked, token, duration, now, skipped, maxAttempts, id);
    case DoRenew(token, duration, now) => ActTallies(s, token, Renewing(duration), now, id);
    case DoSettle(token, result, retryAt, now) =>
      ActTallies(s, token, Choose(s.workers[token].attempts, maxAttempts, result, retryAt), now, id);
    case DoOwnerRetry(owner, doc) => OwnerTallies(s, owner, doc, maxAttempts, id);
    case DoDelete(_, _) =>
  }

  /** In every reachable state the attempts of a row are its claims since its creation or its owner's last retry. */
  lemma {:induction false} AttemptsAreClaims(s: System, steps: seq<Step>, maxAttempts: nat, id: Id)
    requires maxAttempts > 0 && Reachable(s, steps, maxAttempts)
    ensures id in s.queue.jobs ==> s.queue.jobs[id].attempts == ClaimsSince(s.log, id)
    decreases |steps|
  {
    if steps != [] {
      var last := |steps| - 1;
      var before :| Reachable(before, steps[..last], maxAttempts) && Enabled(before, steps[last], maxAttempts)
                    && s == After(before, steps[last], maxAttempts);
      ReachableInv(before, steps[..last], maxAttempts);
      AttemptsAreClaims(before, steps[..last], maxAttempts, id);
      StepTallies(before, steps[last], maxAttempts, id);
    }
  }

  /** A document fails only once it was claimed as often as is allowed, or because its processing broke for good. */
  lemma NoEarlyFailure(s: System, steps: seq<Step>, step: Step, maxAttempts: nat, id: Id)
    requires maxAttempts > 0 && Reachable(s, steps, maxAttempts) && Enabled(s, step, maxAttempts)
    requires id in s.queue.jobs && s.queue.jobs[id].status != Failed
    requires id in After(s, step, maxAttempts).queue.jobs && After(s, step, maxAttempts).queue.jobs[id].status == Failed
    ensures ClaimsSince(s.log, id) >= maxAttempts || (step.DoSettle? && step.result == Broken(true))
  {
    ReachableInv(s, steps, maxAttempts);
    assert RowOk(s, id, maxAttempts);
    AttemptsAreClaims(s, steps, maxAttempts, id);
    if step.DoSettle? { assert RowOk(s, s.workers[step.token].id, maxAttempts); }
  }
}
