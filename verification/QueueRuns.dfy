/**
 Runs of the job queue under arbitrary interleavings. Complete and Fail name a job, not a lease, so
 a run may contain calls from workers whose lease ended long ago.
 */
module QueueRuns {
  import opened Wrappers
  import opened JobQueue

  datatype Event =
    | Enqueue(at: int, request: Request, maxAttempts: int)
    | LeaseNext(at: int, worker: string, nanos: int, locked: set<nat>, pick: Option<nat>)
    | Complete(at: int, id: nat)
    | Fail(at: int, id: nat, worker: string, error: string, permanent: bool)

  // What the database may answer: any minimal candidate, or nothing when there is none.
  predicate Legal(q: Queue, e: Event) {
    match e
    case Enqueue(_, _, maxAttempts) => maxAttempts > 0
    case LeaseNext(at, _, _, locked, Some(id)) => Candidate(q, at, locked, id)
    case LeaseNext(at, _, _, locked, None) => NoneLeasable(q, at, locked)
    case _ => true
  }

  function Step(q: Queue, e: Event): Queue
    requires Legal(q, e)
  {
    match e
    case Enqueue(at, request, maxAttempts) => Enqueued(q, at, request, maxAttempts)
    case LeaseNext(at, worker, nanos, _, Some(id)) => Granted(q, at, worker, nanos, id)
    case LeaseNext(_, _, _, _, None) => q
    case Complete(at, id) => Completed(q, at, id)
    case Fail(at, id, worker, error, permanent) => FailedOnce(q, at, id, worker, error, permanent)
  }

  // The first n events of a run are legal one after the other, on a clock that never goes back.
  predicate Run(q: Queue, es: seq<Event>, n: nat)
    requires n <= |es|
    decreases n, 0
  {
    n == 0 || (Run(q, es, n - 1) && Legal(After(q, es, n - 1), es[n - 1]) && (n >= 2 ==> es[n - 2].at <= es[n - 1].at))
  }

  function After(q: Queue, es: seq<Event>, n: nat): Queue
    requires n <= |es| && Run(q, es, n)
    decreases n, 1
  {
    if n == 0 then q else Step(After(q, es, n - 1), es[n - 1])
  }

  lemma {:induction false} RunPrefix(q: Queue, es: seq<Event>, m: nat, n: nat)
    requires m <= n <= |es| && Run(q, es, n)
    ensures Run(q, es, m)
    ensures 1 <= m ==> es[m - 1].at <= es[n - 1].at
  {
    if m < n {
      RunPrefix(q, es, m, n - 1);
    }
  }

  // ---------- The whole-run invariant ----------

  lemma StepKeepsInv(q: Queue, e: Event)
    requires Inv(q) && Legal(q, e)
    ensures Inv(Step(q, e))
  {
    match e {
      case Enqueue(at, r, maxAttempts) => EnqueueKeepsInv(q, at, r, maxAttempts);
      case LeaseNext(at, worker, nanos, _, Some(id)) => UpdateKeepsInv(q, id, Lease(q.jobs[id], at, worker, nanos));
      case LeaseNext(_, _, _, _, None) =>
      case Complete(at, id) =>
        if id < |q.jobs| {
          UpdateKeepsInv(q, id, Succeed(q.jobs[id], at));
        }
      case Fail(at, id, worker, error, permanent) => FailKeepsInv(q, at, id, worker, error, permanent);
    }
  }

  // Every run, stale calls included, keeps the keys unique, the attempt log of each job exactly
  // 1 .. attempts, queued and leased jobs below their limit and lease fields set only on leased jobs.
  lemma {:induction false} RunKeepsInv(q: Queue, es: seq<Event>, n: nat)
    requires Inv(q) && n <= |es| && Run(q, es, n)
    ensures Inv(After(q, es, n))
  {
    if n > 0 {
      RunKeepsInv(q, es, n - 1);
      StepKeepsInv(After(q, es, n - 1), es[n - 1]);
    }
  }

  predicate Terminal(j: Job) {
    j.status == Succeeded || j.status == DeadLetter
  }

  // succeeded and dead_letter are not absorbing in general. A step moves a job out of its terminal
  // status exactly when it is a Complete of a dead-lettered job, or a Fail of a job that has an
  // attempt left and was either succeeded or is now given a retry.
  lemma TerminalStatusKeptExactly(q: Queue, e: Event, id: nat)
    requires Inv(q) && Legal(q, e) && id < |q.jobs| && Terminal(q.jobs[id])
    ensures Step(q, e).jobs[id].status == q.jobs[id].status <==>
            !(e.Complete? && e.id == id && q.jobs[id].status == DeadLetter)
            && !(e.Fail? && e.id == id && q.jobs[id].attempts < q.jobs[id].maxAttempts
                 && (q.jobs[id].status == Succeeded
                     || (!e.permanent && q.jobs[id].attempts + 1 < q.jobs[id].maxAttempts)))
  {
    FailCommitsUnlessExhausted(q, id);
  }

  // ---------- Lease exclusion ----------

  predicate Grants(e: Event, id: nat) {
    e.LeaseNext? && e.pick == Some(id)
  }

  // A Fail of the job commits as event k.
  predicate FailsAt(q: Queue, es: seq<Event>, k: nat, id: nat)
    requires k < |es| && Run(q, es, k)
  {
    es[k].Fail? && es[k].id == id && FailCommits(After(q, es, k), id)
  }

  // While no Fail commits, a job granted until t stays leased until t or has been completed.
  lemma {:induction false} GrantHolds(q: Queue, es: seq<Event>, i: nat, n: nat, id: nat, t: int)
    requires i < n <= |es| && Run(q, es, n) && Run(q, es, i + 1)
    requires Grants(es[i], id) && After(q, es, i + 1).jobs[id].leaseUntil == Some(t)
    requires es[n - 1].at < t
    requires forall k: nat :: i < k < n && Run(q, es, k) ==> !FailsAt(q, es, k, id)
    ensures id < |After(q, es, n).jobs|
    ensures var j := After(q, es, n).jobs[id];
            (j.status == Leased && j.leaseUntil == Some(t)) || j.status == Succeeded
  {
    if n > i + 1 {
      RunPrefix(q, es, n - 1, n);
      GrantHolds(q, es, i, n - 1, id, t);
    }
  }

  // Lease exclusion over every run: a job granted until t and granted again before t has had a Fail
  // committed between the two grants.
  lemma RegrantNeedsFail(q: Queue, es: seq<Event>, i: nat, j: nat, id: nat)
    requires i < j < |es| && Run(q, es, j + 1) && Run(q, es, i + 1)
    requires Grants(es[i], id) && Grants(es[j], id)
    requires After(q, es, i + 1).jobs[id].leaseUntil.Some? && es[j].at < After(q, es, i + 1).jobs[id].leaseUntil.value
    ensures exists k: nat :: i < k < j && Run(q, es, k) && FailsAt(q, es, k, id)
  {
    if forall k: nat :: i < k < j && Run(q, es, k) ==> !FailsAt(q, es, k, id) {
      RunPrefix(q, es, j, j + 1);
      GrantHolds(q, es, i, j, id, After(q, es, i + 1).jobs[id].leaseUntil.value);
      assert false;
    }
  }

  // ---------- Draining ----------

  // The ids granted by calling LeaseNext again and again at one moment, with no other transaction.
  predicate Drains(q: Queue, now: int, worker: string, nanos: int, picks: seq<nat>)
    decreases |picks|
  {
    picks == []
    || (Candidate(q, now, {}, picks[0]) && Drains(Granted(q, now, worker, nanos, picks[0]), now, worker, nanos, picks[1..]))
  }

  function Drained(q: Queue, now: int, worker: string, nanos: int, picks: seq<nat>): Queue
    requires Drains(q, now, worker, nanos, picks)
    decreases |picks|
  {
    if picks == [] then q else Drained(Granted(q, now, worker, nanos, picks[0]), now, worker, nanos, picks[1..])
  }

  function LeasableIds(q: Queue, now: int): set<nat> {
    set id: nat | id < |q.jobs| && Leasable(q.jobs[id], now)
  }

  // A lease shorter than a second has already expired when it is granted.
  lemma GrantRemovesFromLeasable(q: Queue, now: int, worker: string, nanos: int, id: nat)
    requires id < |q.jobs| && Leasable(q.jobs[id], now)
    ensures nanos >= SECOND ==>
              LeasableIds(Granted(q, now, worker, nanos, id), now) == LeasableIds(q, now) - {id}
    ensures nanos < SECOND ==>
              LeasableIds(Granted(q, now, worker, nanos, id), now) == LeasableIds(q, now)
  {
    var q' := Granted(q, now, worker, nanos, id);
    assert forall k: nat :: k < |q.jobs| && k != id ==> q'.jobs[k] == q.jobs[k];
  }

  // a has the smaller priority number, or the same one and is no younger.
  predicate InOrder(a: Job, b: Job) {
    a.priority <= b.priority && (a.priority == b.priority ==> a.createdAt <= b.createdAt)
  }

  // Draining with a lease of at least a second grants each leasable job at most once, in order of
  // priority and age, and finds nothing more exactly when it has granted all of them.
  lemma {:induction false} DrainIsExactAndOrdered(q: Queue, now: int, worker: string, nanos: int, picks: seq<nat>)
    requires nanos >= SECOND && Drains(q, now, worker, nanos, picks)
    ensures forall a :: 0 <= a < |picks| ==> picks[a] < |q.jobs| && picks[a] in LeasableIds(q, now)
    ensures forall a, b :: 0 <= a < b < |picks| ==> picks[a] != picks[b]
    ensures forall a, b :: 0 <= a < b < |picks| ==> InOrder(q.jobs[picks[a]], q.jobs[picks[b]])
    ensures |picks| <= |LeasableIds(q, now)|
    ensures NoneLeasable(Drained(q, now, worker, nanos, picks), now, {}) <==> |picks| == |LeasableIds(q, now)|
    decreases |picks|
  {
    var left := LeasableIds(q, now);
    if picks == [] {
      if left != {} {
        var k :| k in left;
        assert Leasable(q.jobs[k], now);
      }
    } else {
      var q' := Granted(q, now, worker, nanos, picks[0]);
      GrantRemovesFromLeasable(q, now, worker, nanos, picks[0]);
      DrainIsExactAndOrdered(q', now, worker, nanos, picks[1..]);
      assert forall a :: 1 <= a < |picks| ==> picks[a] == picks[1..][a - 1];
      forall a, b | 0 <= a < b < |picks|
        ensures picks[a] != picks[b] && InOrder(q.jobs[picks[a]], q.jobs[picks[b]])
      {
        if a > 0 {
          assert InOrder(q'.jobs[picks[1..][a - 1]], q'.jobs[picks[1..][b - 1]]);
        }
      }
    }
  }
}
