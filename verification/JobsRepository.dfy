/**
 The repository of the jobs module: the two tables it updates and its four statements.
 */
module JobsRepository {
  import opened Wrappers
  import opened JobQueue

  // What Enqueue returns: the row now holding the key and whether this call inserted it
  datatype EnqueueReply = Stored(id: nat, inserted: bool) | EnqueueError

  // What Fail returns: whether the failure was the last one, or that the transaction was rolled back
  datatype FailReply = Recorded(final: bool) | FailError

  class PostgresRepository {
    var jobs: seq<Job>
    var attempts: seq<Attempt>

    constructor ()
      ensures Table() == EMPTY
    {
      jobs, attempts := [], [];
    }

    function Table(): Queue
      reads this
    {
      Queue(jobs, attempts)
    }

    // The row the unique index on (job_type, idempotency_key) points at
    method FindByKey(jobType: string, key: string) returns (id: Option<nat>)
      ensures id.Some? ==> id.value < |jobs| && IsRow(jobs[id.value], jobType, key)
      ensures id.Some? <==> Has(Table(), jobType, key)
    {
      for i := 0 to |jobs|
        invariant forall k :: 0 <= k < i ==> !IsRow(jobs[k], jobType, key)
      {
        if IsRow(jobs[i], jobType, key) {
          return Some(i);
        }
      }
      id := None;
    }

    // INSERT ... ON CONFLICT DO NOTHING, then a look-up when nothing was inserted
    method Enqueue(now: int, request: Request) returns (reply: EnqueueReply)
      modifies this
      ensures Table() == JobQueue.Enqueued(old(Table()), now, request, DEFAULT_MAX_ATTEMPTS)
      ensures reply.EnqueueError? <==> !Storable(request)
      ensures reply.Stored? ==>
                && reply.id < |jobs| && IsRow(jobs[reply.id], request.jobType, request.key)
                && (reply.inserted <==> !old(Has(Table(), request.jobType, request.key)))
                && (reply.inserted ==> reply.id == |old(jobs)|)
                && (!reply.inserted ==> jobs == old(jobs))
      // the columns of an inserted row; no other row and no attempt is touched
      ensures reply.Stored? && reply.inserted ==>
                var j := jobs[reply.id];
                && |jobs| == |old(jobs)| + 1 && jobs[..|old(jobs)|] == old(jobs) && attempts == old(attempts)
                && j.jobType == request.jobType && j.key == request.key && j.payload == request.payload
                && j.priority == request.priority && j.status == Queued && j.attempts == 0 && j.maxAttempts == 5
                && j.availableAt == now && j.createdAt == now && j.leaseOwner.None? && j.leaseUntil.None?
                && j.lastError.None? && j.finishedAt.None?
    {
      if !Storable(request) {
        return EnqueueError;
      }
      var existing := FindByKey(request.jobType, request.key);
      if existing.Some? {
        reply := Stored(existing.value, false);
      } else {
        reply := Stored(|jobs|, true);
        jobs := jobs + [Job(request.jobType, request.key, request.payload, request.priority, Queued, now, None, None, 0,
                            DEFAULT_MAX_ATTEMPTS, now, None, None)];
      }
    }

    // Row k is queued and available, or leased and its lease is over; and no transaction has locked it.
    predicate DueAndFree(k: nat, now: int, locked: set<nat>)
      reads this
    {
      && k < |jobs| && k !in locked
      && ((jobs[k].status == Queued && jobs[k].availableAt <= now)
          || (jobs[k].status == Leased && jobs[k].leaseUntil.Some? && jobs[k].leaseUntil.value <= now))
    }

    // Row i does not come after row k by ascending priority number and, on a tie, by age.
    predicate ComesFirst(i: nat, k: nat)
      reads this
      requires i < |jobs| && k < |jobs|
    {
      && jobs[i].priority <= jobs[k].priority
      && (jobs[i].priority == jobs[k].priority ==> jobs[i].createdAt <= jobs[k].createdAt)
    }

    // The candidate query: the first row in (priority, created_at) order that is due and not locked
    method SelectCandidate(now: int, locked: set<nat>) returns (best: Option<nat>)
      ensures best.Some? ==> Candidate(Table(), now, locked, best.value)
      ensures best.None? ==> NoneLeasable(Table(), now, locked)
      ensures best.Some? ==>
                && DueAndFree(best.value, now, locked)
                && forall k: nat :: DueAndFree(k, now, locked) ==> ComesFirst(best.value, k)
      ensures best.None? ==> forall k: nat :: !DueAndFree(k, now, locked)
    {
      best := None;
      for i := 0 to |jobs|
        invariant best.Some? ==> best.value < i && best.value !in locked && Leasable(jobs[best.value], now)
        invariant forall k: nat :: k < i && k !in locked && Leasable(jobs[k], now) ==>
                                     best.Some? && NotAfter(jobs[best.value], jobs[k])
      {
        if i !in locked && Leasable(jobs[i], now) {
          if best.None? || !NotAfter(jobs[best.value], jobs[i]) {
            best := Some(i);
          }
        }
      }
    }

    method LeaseNext(now: int, worker: string, nanos: int, locked: set<nat>) returns (id: Option<nat>)
      modifies this
      ensures id.None? ==> NoneLeasable(old(Table()), now, locked) && Table() == old(Table())
      ensures id.Some? ==>
                && Candidate(old(Table()), now, locked, id.value)
                && Table() == Granted(old(Table()), now, worker, nanos, id.value)
      // the row leased, on its columns; no other row and no attempt is touched
      ensures id.None? ==> forall k: nat :: !old(DueAndFree(k, now, locked))
      ensures id.Some? ==>
                && old(DueAndFree(id.value, now, locked))
                && (forall k: nat :: old(DueAndFree(k, now, locked)) ==> old(ComesFirst(id.value, k)))
                && |jobs| == |old(jobs)| && attempts == old(attempts)
                && (forall k: nat :: k < |jobs| && k != id.value ==> jobs[k] == old(jobs[k]))
                && (nanos >= 0 ==>
                      jobs[id.value]
                      == old(jobs[id.value]).(status := Leased, leaseOwner := Some(worker),
                                              leaseUntil := Some(now + nanos - nanos % 1_000_000_000)))
    {
      id := SelectCandidate(now, locked);
      if id.Some? {
        var seconds := WholeSeconds(nanos);
        jobs := jobs[id.value := jobs[id.value].(
          status := Leased, leaseOwner := Some(worker), leaseUntil := Some(now + seconds * SECOND))];
      }
    }

    method Complete(now: int, id: nat) returns (found: bool)
      modifies this
      ensures found <==> id < |old(jobs)|
      ensures Table() == Completed(old(Table()), now, id)
      ensures attempts == old(attempts) && |jobs| == |old(jobs)| && forall k: nat :: k < |jobs| && k != id ==> jobs[k] == old(jobs[k])
      ensures found ==>
                jobs[id] == old(jobs[id]).(status := Succeeded, finishedAt := Some(now), leaseOwner := None, leaseUntil := None)
    {
      found := id < |jobs|;
      if found {
        jobs := jobs[id := jobs[id].(status := Succeeded, finishedAt := Some(now), leaseOwner := None, leaseUntil := None)];
      }
    }

    method Fail(now: int, id: nat, worker: string, error: string, permanent: bool) returns (reply: FailReply)
      modifies this
      ensures Table() == FailedOnce(old(Table()), now, id, worker, error, permanent)
      ensures reply.Recorded? <==> FailCommits(old(Table()), id)
      // the row failed, on its columns; no other row is touched
      ensures reply.Recorded? ==>
                var before := old(jobs[id]);
                var j, n := jobs[id], before.attempts + 1;
                && |jobs| == |old(jobs)| && (forall k: nat :: k < |jobs| && k != id ==> jobs[k] == old(jobs[k]))
                && attempts == old(attempts) + [Attempt(id, n, worker, error, now)]
                && (reply.final <==> n >= before.maxAttempts || permanent)
                && j.attempts == n && j.lastError == Some(error) && j.leaseOwner.None? && j.leaseUntil.None?
                && j.status == (if reply.final then DeadLetter else Queued)
                && (reply.final ==> j.finishedAt == Some(now) && j.availableAt == now)
                && (!reply.final && n >= 1 ==>
                      j.availableAt == now + (if n <= 4 then 15 * n * n else 300) * 1_000_000_000)
                && (!reply.final ==> j.finishedAt == before.finishedAt)
                && j == before.(status := j.status, attempts := n, lastError := j.lastError, availableAt := j.availableAt,
                                leaseOwner := None, leaseUntil := None, finishedAt := j.finishedAt)
      ensures reply.FailError? ==> jobs == old(jobs) && attempts == old(attempts)
      ensures reply.Recorded? ==> (reply.final <==> jobs[id].status == DeadLetter)
    {
      if id >= |jobs| {
        return FailError;
      }
      var row := jobs[id];
      var attemptNo := row.attempts + 1;
      var final := attemptNo >= row.maxAttempts || permanent;
      var availableAt := now;
      if !final {
        availableAt := availableAt + JobQueue.RetryDelay(attemptNo);
      }
      if attemptNo > row.maxAttempts || Logged(Table(), id, attemptNo) {
        return FailError;
      }
      jobs := jobs[id := row.(
        attempts := attemptNo,
        lastError := Some(error),
        status := if final then DeadLetter else Queued,
        availableAt := availableAt,
        leaseOwner := None,
        leaseUntil := None,
        finishedAt := if final then Some(now) else row.finishedAt)];
      attempts := attempts + [Attempt(id, attemptNo, worker, error, now)];
      reply := Recorded(final);
    }
  }
}
