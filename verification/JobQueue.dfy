/**
 The jobs and job_attempts tables, and every statement the worker code runs against them, as
 functions from one table state to the next. Each function is one committed SQL statement or
 transaction. A job is named by its position in the table: rows are only ever appended.
 */
module JobQueue {
  import opened Wrappers
  import opened Backoff

  // One second on the clock, which counts nanoseconds as time.Duration does.
  const SECOND := 1_000_000_000
  // The default of the max_attempts column; no statement writes the column.
  const DEFAULT_MAX_ATTEMPTS := 5

  datatype Status = Queued | Leased | Succeeded | Failed | DeadLetter

  datatype Job = Job(
    jobType: string, key: string, payload: map<string, string>, priority: int, status: Status,
    availableAt: int, leaseOwner: Option<string>, leaseUntil: Option<int>, attempts: int,
    maxAttempts: int, createdAt: int, lastError: Option<string>, finishedAt: Option<int>)

  datatype Attempt = Attempt(job: nat, no: int, worker: string, error: string, at: int)

  datatype Queue = Queue(jobs: seq<Job>, log: seq<Attempt>)

  datatype Request = Request(jobType: string, key: string, payload: map<string, string>, priority: int)

  const EMPTY := Queue([], [])

  // ---------- Enqueue ----------

  predicate IsRow(j: Job, jobType: string, key: string) {
    j.jobType == jobType && j.key == key
  }

  predicate Has(q: Queue, jobType: string, key: string) {
    exists j :: j in q.jobs && IsRow(j, jobType, key)
  }

  // priority is a SMALLINT column
  predicate Storable(r: Request) {
    -0x8000 <= r.priority < 0x8000
  }

  function NewJob(now: int, r: Request, maxAttempts: int): Job {
    Job(r.jobType, r.key, r.payload, r.priority, Queued, now, None, None, 0, maxAttempts, now, None, None)
  }

  function Enqueued(q: Queue, now: int, r: Request, maxAttempts: int): Queue {
    if !Storable(r) || Has(q, r.jobType, r.key) then q
    else q.(jobs := q.jobs + [NewJob(now, r, maxAttempts)])
  }

  // ---------- LeaseNext ----------

  predicate Leasable(j: Job, now: int) {
    (j.status == Queued && j.availableAt <= now)
    || (j.status == Leased && j.leaseUntil.Some? && j.leaseUntil.value <= now)
  }

  // ORDER BY priority ASC, created_at ASC; rows equal on both may come in either order
  predicate NotAfter(a: Job, b: Job) {
    a.priority < b.priority || (a.priority == b.priority && a.createdAt <= b.createdAt)
  }

  // Row id may be returned by the candidate query, given the rows other transactions have locked.
  predicate Candidate(q: Queue, now: int, locked: set<nat>, id: nat) {
    && id < |q.jobs| && id !in locked && Leasable(q.jobs[id], now)
    && forall k: nat :: k < |q.jobs| && k !in locked && Leasable(q.jobs[k], now) ==> NotAfter(q.jobs[id], q.jobs[k])
  }

  predicate NoneLeasable(q: Queue, now: int, locked: set<nat>) {
    forall k: nat :: k < |q.jobs| && k !in locked ==> !Leasable(q.jobs[k], now)
  }

  // int(leaseDuration.Seconds()): truncation toward zero
  function WholeSeconds(nanos: int): int {
    if nanos >= 0 then nanos / SECOND else -(-nanos / SECOND)
  }

  function Lease(j: Job, now: int, worker: string, nanos: int): Job {
    j.(status := Leased, leaseOwner := Some(worker), leaseUntil := Some(now + WholeSeconds(nanos) * SECOND))
  }

  function Granted(q: Queue, now: int, worker: string, nanos: int, id: nat): Queue
    requires id < |q.jobs|
  {
    q.(jobs := q.jobs[id := Lease(q.jobs[id], now, worker, nanos)])
  }

  // ---------- Complete ----------

  function Succeed(j: Job, now: int): Job {
    j.(status := Succeeded, finishedAt := Some(now), leaseOwner := None, leaseUntil := None)
  }

  function Completed(q: Queue, now: int, id: nat): Queue {
    if id < |q.jobs| then q.(jobs := q.jobs[id := Succeed(q.jobs[id], now)]) else q
  }

  // ---------- Fail ----------

  function RetryDelay(attempt: int): int {
    RetryBackoff(attempt) * SECOND
  }

  predicate FinalFailure(j: Job, permanent: bool) {
    j.attempts + 1 >= j.maxAttempts || permanent
  }

  function Retire(j: Job, now: int, error: string, permanent: bool): Job {
    var final := FinalFailure(j, permanent);
    j.(attempts := j.attempts + 1,
       lastError := Some(error),
       status := if final then DeadLetter else Queued,
       availableAt := if final then now else now + RetryDelay(j.attempts + 1),
       leaseOwner := None,
       leaseUntil := None,
       finishedAt := if final then Some(now) else j.finishedAt)
  }

  predicate Logged(q: Queue, id: nat, no: int) {
    exists a :: a in q.log && a.job == id && a.no == no
  }

  // The transaction commits unless the job is missing, the attempts check fails or the
  // (job_id, attempt_no) pair is taken.
  predicate FailCommits(q: Queue, id: nat) {
    && id < |q.jobs|
    && q.jobs[id].attempts + 1 <= q.jobs[id].maxAttempts
    && !Logged(q, id, q.jobs[id].attempts + 1)
  }

  function FailedOnce(q: Queue, now: int, id: nat, worker: string, error: string, permanent: bool): Queue {
    if FailCommits(q, id) then
      Queue(q.jobs[id := Retire(q.jobs[id], now, error, permanent)],
            q.log + [Attempt(id, q.jobs[id].attempts + 1, worker, error, now)])
    else q
  }

  // ---------- The invariant ----------

  // The attempt numbers logged for a job, in commit order
  function LoggedNumbers(log: seq<Attempt>, id: nat): seq<int> {
    if log == [] then []
    else
      var init, last := log[..|log| - 1], log[|log| - 1];
      if last.job == id then LoggedNumbers(init, id) + [last.no] else LoggedNumbers(init, id)
  }

  predicate RowInv(j: Job) {
    && 0 <= j.attempts <= j.maxAttempts && 0 < j.maxAttempts
    && j.status != Failed
    && (j.status == Queued || j.status == Leased ==> j.attempts < j.maxAttempts)
    && (j.status == Leased <==> j.leaseUntil.Some?)
    && (j.status == Leased <==> j.leaseOwner.Some?)
  }

  predicate LogInv(q: Queue, id: nat)
    requires id < |q.jobs| && q.jobs[id].attempts >= 0
  {
    LoggedNumbers(q.log, id) == seq(q.jobs[id].attempts, i => i + 1)
  }

  ghost predicate Inv(q: Queue) {
    && (forall i: nat, j: nat ::
          i < j < |q.jobs| ==> q.jobs[i].jobType != q.jobs[j].jobType || q.jobs[i].key != q.jobs[j].key)
    && (forall i: nat :: i < |q.jobs| ==> RowInv(q.jobs[i]) && LogInv(q, i))
    && (forall a :: a in q.log ==> a.job < |q.jobs|)
  }

  lemma {:induction false} LoggedIsMembership(q: Queue, id: nat, no: int)
    ensures Logged(q, id, no) <==> no in LoggedNumbers(q.log, id)
    decreases |q.log|
  {
    if q.log != [] {
      var init, last := q.log[..|q.log| - 1], q.log[|q.log| - 1];
      LoggedIsMembership(q.(log := init), id, no);
      assert q.log == init + [last];
    }
  }

  // Under the invariant the attempts check is the only thing that can reject a Fail.
  lemma FailCommitsUnlessExhausted(q: Queue, id: nat)
    requires Inv(q) && id < |q.jobs|
    ensures FailCommits(q, id) <==> q.jobs[id].attempts < q.jobs[id].maxAttempts
  {
    LoggedIsMembership(q, id, q.jobs[id].attempts + 1);
    assert LogInv(q, id);
  }

  lemma NoEntriesForUnknownJob(log: seq<Attempt>, id: nat)
    requires forall a :: a in log ==> a.job != id
    ensures LoggedNumbers(log, id) == []
  {
  }

  lemma EnqueueKeepsInv(q: Queue, now: int, r: Request, maxAttempts: int)
    requires Inv(q) && maxAttempts > 0
    ensures Inv(Enqueued(q, now, r, maxAttempts))
  {
    NoEntriesForUnknownJob(q.log, |q.jobs|);
    var q' := Enqueued(q, now, r, maxAttempts);
    if q' != q {
      forall i: nat | i < |q'.jobs|
        ensures RowInv(q'.jobs[i]) && LogInv(q', i)
      {
        if i < |q.jobs| {
          assert LogInv(q, i);
        }
      }
      forall i: nat | i < |q.jobs|
        ensures !IsRow(q.jobs[i], r.jobType, r.key)
      {
        assert q.jobs[i] in q.jobs;
      }
    }
  }

  // Any rewrite of one row that keeps its identity, its attempt count and its row invariant
  lemma UpdateKeepsInv(q: Queue, id: nat, j: Job)
    requires Inv(q) && id < |q.jobs| && RowInv(j)
    requires IsRow(j, q.jobs[id].jobType, q.jobs[id].key) && j.attempts == q.jobs[id].attempts
    ensures Inv(q.(jobs := q.jobs[id := j]))
  {
    var q' := q.(jobs := q.jobs[id := j]);
    forall i: nat | i < |q'.jobs|
      ensures RowInv(q'.jobs[i]) && LogInv(q', i)
    {
      assert LogInv(q, i);
    }
  }

  lemma FailKeepsInv(q: Queue, now: int, id: nat, worker: string, error: string, permanent: bool)
    requires Inv(q)
    ensures Inv(FailedOnce(q, now, id, worker, error, permanent))
  {
    var q' := FailedOnce(q, now, id, worker, error, permanent);
    if FailCommits(q, id) {
      var entry := Attempt(id, q.jobs[id].attempts + 1, worker, error, now);
      assert q'.log[..|q'.log| - 1] == q.log;
      forall i: nat | i < |q'.jobs|
        ensures RowInv(q'.jobs[i]) && LogInv(q', i)
      {
        assert LogInv(q, i);
      }
    }
  }
}
