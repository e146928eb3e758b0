/**
 The service of the jobs module: validated enqueueing and the body of the worker loop.
 */
module JobsService {
  import opened Wrappers
  import opened Validate
  import opened JobQueue
  import opened JobsRepository
  import opened Workers
  import QueueRuns

  datatype ServiceReply = Accepted(id: nat, inserted: bool) | TypeRequired | KeyInvalid | StoreError

  const DEFAULT_PRIORITY := 50

  function WithDefaultPriority(r: Request): Request {
    if r.priority <= 0 then r.(priority := DEFAULT_PRIORITY) else r
  }

  predicate Acceptable(r: Request) {
    r.jobType != "" && ValidIdempotencyKey(r.key) && Storable(WithDefaultPriority(r))
  }

  // Service.Enqueue as a table transformer
  function Submitted(q: Queue, now: int, r: Request): Queue {
    if Acceptable(r) then Enqueued(q, now, WithDefaultPriority(r), DEFAULT_MAX_ATTEMPTS) else q
  }

  const DEFAULT_LEASE := 45 * SECOND

  // What the world does to one pass of the loop: when the handler returns and how, whether Complete takes
  // effect and is seen to, and whether Fail takes effect
  datatype Pass = Pass(
    returnedAt: int, outcome: Outcome, error: string, completeStored: bool, completeAcknowledged: bool, failStored: bool)

  predicate Possible(p: Pass) {
    p.completeAcknowledged ==> p.completeStored
  }

  function Outcomes(jobType: string, handled: set<string>, p: Pass): Outcome {
    if jobType in handled then p.outcome else Transient
  }

  // The job has been completed and its worker knows.
  predicate Finishes(jobType: string, handled: set<string>, p: Pass) {
    Outcomes(jobType, handled, p) == Ok && p.completeAcknowledged
  }

  function Error(jobType: string, handled: set<string>, p: Pass): string {
    if jobType in handled then p.error else "unsupported job type"
  }

  // What is left of the job table after the calls the loop makes for a job it has leased
  function Settled(q: Queue, id: nat, worker: string, handled: set<string>, p: Pass): Queue
    requires id < |q.jobs|
  {
    var jobType := q.jobs[id].jobType;
    var outcome := Outcomes(jobType, handled, p);
    var completed := if outcome == Ok && p.completeStored then Completed(q, p.returnedAt, id) else q;
    if Finishes(jobType, handled, p) || !p.failStored then completed
    else FailedOnce(completed, p.returnedAt, id, worker, Error(jobType, handled, p), outcome == Permanent)
  }

  // After a pass over a leased job it is succeeded exactly when its handler was and Complete took
  // effect, unless the worker was not told and its Fail took effect as well; a Fail that takes effect
  // uses up an attempt, of a job completed unawares too; and the job is still leased exactly when
  // neither statement took effect.
  lemma SettlingEndsTheLease(q: Queue, id: nat, worker: string, handled: set<string>, p: Pass)
    requires Inv(q) && id < |q.jobs| && q.jobs[id].status == Leased && Possible(p)
    ensures
      var j, j' := q.jobs[id], Settled(q, id, worker, handled, p).jobs[id];
      var failed := p.failStored && !Finishes(j.jobType, handled, p);
      && (j'.status == Succeeded <==> Outcomes(j.jobType, handled, p) == Ok && p.completeStored && !failed)
      && j'.attempts == j.attempts + (if failed then 1 else 0)
      && (j'.status == DeadLetter <==>
            failed && (j.attempts + 1 == j.maxAttempts || Outcomes(j.jobType, handled, p) == Permanent))
      && (j'.status == Leased <==> !failed && !(Outcomes(j.jobType, handled, p) == Ok && p.completeStored))
      && (j'.status == Leased ==> j' == j)
      && (failed ==> j'.lastError == Some(if j.jobType in handled then p.error else "unsupported job type"))
      && (j'.status == Queued ==>
            j'.availableAt == p.returnedAt + (if j.attempts <= 3 then 15 * (j.attempts + 1) * (j.attempts + 1) else 300) * SECOND)
  {
    FailCommitsUnlessExhausted(q, id);
    FailCommitsUnlessExhausted(Completed(q, p.returnedAt, id), id) by {
      CompleteKeepsInv(q, p.returnedAt, id);
    }
    hide Logged, Inv;
  }

  lemma CompleteKeepsInv(q: Queue, at: int, id: nat)
    requires Inv(q)
    ensures Inv(Completed(q, at, id))
  {
    QueueRuns.StepKeepsInv(q, QueueRuns.Complete(at, id));
    hide Inv;
  }

  class Service {
    const repo: PostgresRepository

    constructor (repo: PostgresRepository)
      ensures this.repo == repo
    {
      this.repo := repo;
    }

    method Enqueue(now: int, request: Request) returns (reply: ServiceReply)
      modifies repo
      ensures repo.Table() == Submitted(old(repo.Table()), now, request)
      ensures reply.Accepted? <==> Acceptable(request)
      ensures reply.TypeRequired? <==> request.jobType == ""
      ensures reply.KeyInvalid? <==> request.jobType != "" && !ValidIdempotencyKey(request.key)
      ensures reply.Accepted? ==>
                && reply.id < |repo.jobs| && IsRow(repo.jobs[reply.id], request.jobType, request.key)
                && (reply.inserted <==> !old(Has(repo.Table(), request.jobType, request.key)))
      // what an inserted job will be run with, and when it comes up
      ensures reply.Accepted? && reply.inserted ==>
                var j := repo.jobs[reply.id];
                && j.payload == request.payload && j.status == Queued && j.availableAt == now && j.createdAt == now
                && j.attempts == 0 && j.maxAttempts == 5
                && j.priority == (if request.priority <= 0 then 50 else request.priority)
    {
      if request.jobType == "" {
        return TypeRequired;
      }
      var matches := MatchesKeyPattern(request.key);
      if !matches {
        return KeyInvalid;
      }
      var req := request;
      if req.priority <= 0 {
        req := req.(priority := DEFAULT_PRIORITY);
      }
      var stored := repo.Enqueue(now, req);
      match stored {
        case EnqueueError => reply := StoreError;
        case Stored(id, inserted) => reply := Accepted(id, inserted);
      }
    }

    // One pass of RunLoop: lease a job, run its handler, then complete or fail it.
    method RunOnce(now: int, worker: string, leaseDuration: int, locked: set<nat>, handled: set<string>, p: Pass)
      returns (id: Option<nat>)
      requires Possible(p)
      modifies repo
      ensures id.None? ==> NoneLeasable(old(repo.Table()), now, locked) && repo.Table() == old(repo.Table())
      ensures id.Some? ==>
                && Candidate(old(repo.Table()), now, locked, id.value)
                && var lease := if leaseDuration <= 0 then 45_000_000_000 else leaseDuration;
                   repo.Table() == Settled(Granted(old(repo.Table()), now, worker, lease, id.value), id.value, worker, handled, p)
    {
      hide FailedOnce, NoneLeasable;
      var lease := leaseDuration;
      if lease <= 0 {
        lease := DEFAULT_LEASE;
      }
      id := repo.LeaseNext(now, worker, lease, locked);
      if id.None? {
        return;
      }
      var job := repo.jobs[id.value];
      if job.jobType !in handled {
        if p.failStored {
          var _ := repo.Fail(p.returnedAt, id.value, worker, "unsupported job type", false);
        }
        return;
      }
      if p.outcome != Ok {
        if p.failStored {
          var _ := repo.Fail(p.returnedAt, id.value, worker, p.error, p.outcome == Permanent);
        }
        return;
      }
      if p.completeStored {
        var _ := repo.Complete(p.returnedAt, id.value);
      }
      if !p.completeAcknowledged && p.failStored {
        var _ := repo.Fail(p.returnedAt, id.value, worker, p.error, false);
      }
    }
  }
}
