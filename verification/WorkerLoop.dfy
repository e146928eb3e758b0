/** A pass of the worker loop, from the lease to its end, is a path of the worker protocol. */
module WorkerLoop {
  import opened Wrappers
  import opened JobQueue
  import opened JobsService
  import opened Workers
  import opened Dispatch
  import QueueRuns

  // The calls a worker makes once the handler of its grant has returned
  function SettlingSteps(g: Grant, t: nat, handled: set<string>, p: Pass): seq<Event> {
    var fail := Fail(p.returnedAt, t, p.failStored, JobsService.Error(g.jobType, handled, p));
    if Outcomes(g.jobType, handled, p) != Ok then [fail]
    else
      [Complete(p.returnedAt, t, p.completeStored, p.completeAcknowledged)]
      + if p.completeAcknowledged then [] else [fail]
  }

  lemma {:induction false} ExecutesInTurn(s: System, es: seq<Event>, s': System, fs: seq<Event>, s'': System)
    requires Executes(s, es, s') && Executes(s', fs, s'')
    ensures Executes(s, es + fs, s'')
    decreases |es|
  {
    hide Legal, Step;
    if es == [] {
      assert es + fs == fs;
    } else {
      ExecutesInTurn(Step(s, es[0]), es[1..], s', fs, s'');
      assert (es + fs)[1..] == es[1..] + fs;
    }
  }

  lemma OneStep(s: System, e: Event)
    requires Legal(s, e)
    ensures Executes(s, [e], Step(s, e))
  {
    hide Step, Legal;
    assert [e][1..] == [];
  }

  // The state in which grant t is over and the job table is q
  function Ended(s: System, t: nat, q: Queue): System
    requires t < |s.grants|
  {
    s.(q := q, grants := s.grants[t := s.grants[t].(pc := Over)])
  }

  lemma FailEnds(s: System, t: nat, at: int, stored: bool, error: string)
    requires t < |s.grants| && (s.grants[t].pc in {Returned(Transient), Returned(Permanent)} || s.grants[t].pc.CompleteFailed?)
    ensures
      var g := s.grants[t];
      var q := if stored then FailedOnce(s.q, at, g.job, g.worker, error, g.pc == Returned(Permanent)) else s.q;
      Executes(s, [Fail(at, t, stored, error)], Ended(s, t, q))
  {
    hide FailedOnce;
    var e := Fail(at, t, stored, error);
    OneStep(s, e);
  }

  // What the loop does after its handler has returned is a path of the protocol to the end of the grant.
  lemma SettlingIsAPath(s: System, t: nat, handled: set<string>, p: Pass)
    requires t < |s.grants| && JobsService.Possible(p)
    requires
      var g := s.grants[t];
      && g.pc == Returned(Outcomes(g.jobType, handled, p))
      && g.job < |s.q.jobs| && s.q.jobs[g.job].jobType == g.jobType
    ensures
      var g := s.grants[t];
      Executes(s, SettlingSteps(g, t, handled, p), Ended(s, t, Settled(s.q, g.job, g.worker, handled, p)))
  {
    var g := s.grants[t];
    var error := JobsService.Error(g.jobType, handled, p);
    hide FailedOnce, Executes;
    if Outcomes(g.jobType, handled, p) != Ok {
      FailEnds(s, t, p.returnedAt, p.failStored, error);
    } else {
      var complete := Complete(p.returnedAt, t, p.completeStored, p.completeAcknowledged);
      OneStep(s, complete);
      var s1 := Step(s, complete);
      if p.completeAcknowledged {
        assert s1 == Ended(s, t, Settled(s.q, g.job, g.worker, handled, p));
        assert [complete] + [] == [complete];
      } else {
        FailEnds(s1, t, p.returnedAt, p.failStored, error);
        var q := if p.failStored then FailedOnce(s1.q, p.returnedAt, g.job, g.worker, error, false) else s1.q;
        assert Ended(s1, t, q) == Ended(s, t, Settled(s.q, g.job, g.worker, handled, p));
        ExecutesInTurn(s, [complete], s1, [Fail(p.returnedAt, t, p.failStored, error)], Ended(s1, t, q));
      }
    }
  }

  // The state after a grant, whose worker is about to call the handler
  function Leased(s: System, now: int, worker: string, nanos: int, id: nat): System
    requires id < |s.q.jobs|
  {
    var q := Granted(s.q, now, worker, nanos, id);
    s.(q := q,
       grants := s.grants + [Workers.Grant(id, q.jobs[id].jobType, q.jobs[id].key, worker, q.jobs[id].leaseUntil.value, Start)])
  }

  // A pass of the loop is a path: if the handler takes the new grant from its start to its outcome, the
  // lease, the handler and the settling calls together lead to the table RunOnce leaves.
  lemma RunOnceIsAPath(
      s: System, now: int, worker: string, nanos: int, locked: set<nat>, id: nat, handled: set<string>, p: Pass,
      steps: seq<Event>, records: map<string, RecordStatus>)
    requires Candidate(s.q, now, locked, id) && JobsService.Possible(p)
    requires
      var leased, t := Leased(s, now, worker, nanos, id), |s.grants|;
      Executes(leased, steps, AtPc(leased, t, Returned(Outcomes(leased.grants[t].jobType, handled, p)), records))
    ensures
      var leased, t := Leased(s, now, worker, nanos, id), |s.grants|;
      var q := Settled(Granted(s.q, now, worker, nanos, id), id, worker, handled, p);
      Executes(s, [LeaseNext(now, worker, nanos, locked, Some(id))] + steps + SettlingSteps(leased.grants[t], t, handled, p),
               Ended(leased, t, q).(records := records))
  {
    var leased, t := Leased(s, now, worker, nanos, id), |s.grants|;
    var lease := LeaseNext(now, worker, nanos, locked, Some(id));
    assert Legal(s, lease) && Step(s, lease) == leased;
    hide Legal, Step, Executes, Settled, Candidate;
    OneStep(s, lease);
    var returned := AtPc(leased, t, Returned(Outcomes(leased.grants[t].jobType, handled, p)), records);
    ExecutesInTurn(s, [lease], leased, steps, returned);
    SettlingIsAPath(returned, t, handled, p);
    var q := Settled(leased.q, id, worker, handled, p);
    assert Ended(returned, t, q) == Ended(leased, t, q).(records := records);
    ExecutesInTurn(s, [lease] + steps, returned, SettlingSteps(leased.grants[t], t, handled, p), Ended(returned, t, q));
  }

  // The dispatch handler is such a handler.
  lemma DispatchPassIsAPath(
      s: System, now: int, worker: string, nanos: int, locked: set<nat>, id: nat, handled: set<string>, p: Pass, w: World)
    requires Candidate(s.q, now, locked, id) && JobsService.Possible(p) && Dispatch.Possible(w)
    requires s.q.jobs[id].jobType == DISPATCH && DISPATCH in handled
    requires p.outcome == Handled(s.records, s.q.jobs[id].key, s.q.jobs[id].payload, w).1
    ensures
      var leased, t := Leased(s, now, worker, nanos, id), |s.grants|;
      var job := s.q.jobs[id];
      var q := Settled(Granted(s.q, now, worker, nanos, id), id, worker, handled, p);
      Executes(s, [LeaseNext(now, worker, nanos, locked, Some(id))]
                  + HandlerSteps(leased, t, job.payload, w, p.returnedAt) + SettlingSteps(leased.grants[t], t, handled, p),
               Ended(leased, t, q).(records := Handled(s.records, job.key, job.payload, w).0))
  {
    assert id < |s.q.jobs|;
    hide Executes, Handled, HandlerSteps, Settled, Candidate, Legal, Step;
    var leased, t, job := Leased(s, now, worker, nanos, id), |s.grants|, s.q.jobs[id];
    HandlerIsAPath(leased, t, job.payload, w, p.returnedAt);
    RunOnceIsAPath(s, now, worker, nanos, locked, id, handled, p,
                   HandlerSteps(leased, t, job.payload, w, p.returnedAt), Handled(s.records, job.key, job.payload, w).0);
  }
}
