/**
 The leased job queue inside the documents table (api/database.go): what each statement does to the rows.
 Identifiers are numbers, ordered as PostgreSQL orders uuids; times are what NOW() returned.
 */
module JobQueue {
  import opened Options

  type Owner = string
  type Id = nat
  type Token = nat

  datatype Status = Queued | Processing | Completed | Failed
  datatype FailureKind = Retryable | Permanent

  /** Extracted text and chunks as one worker submitted them. */
  datatype Content = Content(text: string, pages: nat, chunks: seq<string>)

  datatype Job = Job(owner: Owner, created: int, status: Status, kind: FailureKind, attempts: nat,
                     nextAttempt: Option<int>, token: Option<Token>, leaseExpires: Option<int>, text: Option<string>,
                     pages: nat)

  datatype Queue = Queue(jobs: map<Id, Job>, chunks: map<Id, seq<string>>)

  datatype Outcome = Done | LeaseLost | NotFound | PermanentFailure | DuplicateKey | Unanswered

  // ----- Claiming

  /** Waiting jobs whose time has come, and processing jobs whose lease ran out. */
  predicate Due(job: Job, now: int) {
    || (job.status == Queued && (job.nextAttempt.None? || job.nextAttempt.value <= now))
    || (job.status == Processing && (job.leaseExpires.None? || job.leaseExpires.value <= now))
  }

  function GiveUp(job: Job): Job {
    job.(status := Failed, nextAttempt := None, token := None, leaseExpires := None)
  }

  function SweepJob(job: Job, now: int, maxAttempts: nat): Job {
    if job.attempts >= maxAttempts && Due(job, now) then GiveUp(job) else job
  }

  /** The first statement of a claim: due jobs without attempts left become failed. */
  function Sweep(jobs: map<Id, Job>, now: int, maxAttempts: nat): map<Id, Job> {
    map id | id in jobs :: SweepJob(jobs[id], now, maxAttempts)
  }

  predicate Claimable(jobs: map<Id, Job>, id: Id, now: int, maxAttempts: nat, skipped: set<Id>) {
    id in jobs && id !in skipped && jobs[id].attempts < maxAttempts && Due(jobs[id], now)
  }

  function DueSince(job: Job): int {
    if job.nextAttempt.Some? then job.nextAttempt.value else job.created
  }

  predicate Before(jobs: map<Id, Job>, a: Id, b: Id)
    requires a in jobs && b in jobs
  {
    var x, y := jobs[a], jobs[b];
    || DueSince(x) < DueSince(y)
    || (DueSince(x) == DueSince(y) && (x.created < y.created || (x.created == y.created && a <= b)))
  }

  /** The row the second statement picks; `skipped` are the rows that other transactions have locked. */
  ghost predicate IsNext(jobs: map<Id, Job>, id: Id, now: int, maxAttempts: nat, skipped: set<Id>) {
    && Claimable(jobs, id, now, maxAttempts, skipped)
    && forall other | Claimable(jobs, other, now, maxAttempts, skipped) :: Before(jobs, id, other)
  }

  function Lease(job: Job, token: Token, until: int): Job {
    job.(status := Processing, attempts := job.attempts + 1, nextAttempt := None, token := Some(token),
         leaseExpires := Some(until))
  }

  /** The whole claim, given the row that was picked, if any. */
  function Claim(q: Queue, picked: Option<Id>, token: Token, duration: int, now: int, maxAttempts: nat): Queue
    requires picked.Some? ==> picked.value in q.jobs
  {
    var swept := Sweep(q.jobs, now, maxAttempts);
    if picked.None? then q.(jobs := swept)
    else q.(jobs := swept[picked.value := Lease(swept[picked.value], token, now + duration)])
  }

  // ----- Acting under a lease

  predicate Holds(q: Queue, id: Id, token: Token, now: int) {
    && id in q.jobs && q.jobs[id].status == Processing && q.jobs[id].token == Some(token)
    && q.jobs[id].leaseExpires.Some? && q.jobs[id].leaseExpires.value > now
  }

  function Renew(q: Queue, id: Id, token: Token, duration: int, now: int): (Queue, Outcome) {
    if !Holds(q, id, token, now) then (q, LeaseLost)
    else (q.(jobs := q.jobs[id := q.jobs[id].(leaseExpires := Some(now + duration))]), Done)
  }

  function Retry(q: Queue, id: Id, token: Token, nextAttempt: int, now: int): (Queue, Outcome) {
    if !Holds(q, id, token, now) then (q, LeaseLost)
    else (q.(jobs := q.jobs[id := q.jobs[id].(status := Queued, nextAttempt := Some(nextAttempt), token := None,
                                              leaseExpires := None, kind := Retryable)]), Done)
  }

  function Complete(q: Queue, id: Id, token: Token, content: Content, now: int): (Queue, Outcome) {
    if !Holds(q, id, token, now) then (q, LeaseLost)
    else
      var job := q.jobs[id].(status := Completed, text := Some(content.text), pages := content.pages,
                             nextAttempt := None, token := None, leaseExpires := None);
      (Queue(q.jobs[id := job], if content.chunks == [] then q.chunks - {id} else q.chunks[id := content.chunks]), Done)
  }

  function Fail(q: Queue, id: Id, token: Token, kind: FailureKind, now: int): (Queue, Outcome) {
    if !Holds(q, id, token, now) then (q, LeaseLost)
    else (q.(jobs := q.jobs[id := GiveUp(q.jobs[id]).(kind := kind)]), Done)
  }

  // ----- The owner's side

  function Create(q: Queue, id: Id, owner: Owner, now: int): (Queue, Outcome) {
    if id in q.jobs then (q, DuplicateKey)
    else (q.(jobs := q.jobs[id := Job(owner, now, Queued, Retryable, 0, None, None, None, None, 0)]), Done)
  }

  function RetryOwned(q: Queue, owner: Owner, id: Id): (Queue, Outcome) {
    if id !in q.jobs || q.jobs[id].owner != owner || q.jobs[id].status != Failed then (q, NotFound)
    else if q.jobs[id].kind == Permanent then (q, PermanentFailure)
    else (q.(jobs := q.jobs[id := q.jobs[id].(status := Queued, kind := Retryable, nextAttempt := None, token := None,
                                              leaseExpires := None, attempts := 0)]), Done)
  }

  function Delete(q: Queue, owner: Owner, id: Id): (Queue, Outcome) {
    if id !in q.jobs || q.jobs[id].owner != owner then (q, NotFound)
    else (Queue(q.jobs - {id}, q.chunks - {id}), Done)
  }

  /** What a row shows of its content, with the chunk rows in index order. */
  function Stored(q: Queue, id: Id): Option<Content>
    requires id in q.jobs
  {
    if q.jobs[id].text.None? then None
    else Some(Content(q.jobs[id].text.value, q.jobs[id].pages, if id in q.chunks then q.chunks[id] else []))
  }
}
