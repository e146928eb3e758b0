/**
 Any number of workers running RunLoop against one queue, and the WhatsApp dispatch handler step by
 step. Each grant of a lease is one entry of `grants`, because worker names are constants and cannot
 tell two grants apart. A worker that crashes simply takes no further step.

 A run is timely when every step a worker takes for a grant happens before the grant's lease ends.
 */
module Workers {
  import opened Wrappers
  import opened JobQueue
  import QueueRuns

  const DISPATCH := "dispatch_whatsapp"

  // How a handler returned; an error may be marked permanent
  datatype Outcome = Ok | Transient | Permanent

  // Where the worker holding a grant stands
  datatype Pc =
    | Start                            // job leased
    | Ready                            // dispatch record exists and was not sent
    | Undelivered(permanent: bool)     // payload rejected or Send failed
    | Delivered                        // Send succeeded, record not yet updated
    | Marked                           // record updated to sent
    | Returned(outcome: Outcome)       // handler returned to RunLoop
    | CompleteFailed(stored: bool)     // Complete returned an error, whether or not it took effect
    | Over                             // Complete or Fail has been called

  datatype Grant = Grant(job: nat, jobType: string, key: string, worker: string, until: int, pc: Pc)

  datatype RecordStatus = RecordPending | RecordFailed | RecordSent

  // The queue, the grants given out so far and whatsapp_dispatches by idempotency key
  datatype System = System(q: Queue, grants: seq<Grant>, records: map<string, RecordStatus>)

  const INITIAL := System(EMPTY, [], map[])

  // A statement is stored if it took effect, and acknowledged if the worker was told that it did; a
  // statement may be stored without being acknowledged.
  datatype Event =
    | Enqueue(at: int, request: Request, maxAttempts: int)
    | LeaseNext(at: int, worker: string, nanos: int, locked: set<nat>, pick: Option<nat>)
    | Return(at: int, t: nat, outcome: Outcome)      // any other handler, no handler, or an early error
    | UpsertPending(at: int, t: nat, stored: bool, acknowledged: bool)
    | RejectPayload(at: int, t: nat)
    | Send(at: int, t: nat, delivered: bool, mediaMissing: bool)
    | MarkFailed(at: int, t: nat, stored: bool)
    | MarkSent(at: int, t: nat, stored: bool, acknowledged: bool)
    | RemoveMedia(at: int, t: nat, removed: bool)
    | Complete(at: int, t: nat, stored: bool, acknowledged: bool)
    | Fail(at: int, t: nat, stored: bool, error: string)

  predicate OfWorker(e: Event) {
    !e.Enqueue? && !e.LeaseNext?
  }

  predicate Enabled(g: Grant, e: Event)
    requires OfWorker(e)
  {
    match e
    case Return(_, _, outcome) => g.pc == Start && (g.jobType == DISPATCH ==> outcome != Ok)
    case UpsertPending(_, _, stored, acknowledged) => g.pc == Start && g.jobType == DISPATCH && (acknowledged ==> stored)
    case RejectPayload(_, _) => g.pc == Ready
    case Send(_, _, _, _) => g.pc == Ready
    case MarkFailed(_, _, _) => g.pc.Undelivered?
    case MarkSent(_, _, stored, acknowledged) => g.pc == Delivered && (acknowledged ==> stored)
    case RemoveMedia(_, _, _) => g.pc == Marked
    case Complete(_, _, stored, acknowledged) => g.pc == Returned(Ok) && (acknowledged ==> stored)
    case Fail(_, _, _, _) => g.pc in {Returned(Transient), Returned(Permanent)} || g.pc.CompleteFailed?
  }

  // What the step does to the queue, if anything
  function QueueEvent(s: System, e: Event): Option<QueueRuns.Event>
    requires OfWorker(e) ==> e.t < |s.grants|
  {
    match e
    case Enqueue(at, request, maxAttempts) => Some(QueueRuns.Enqueue(at, request, maxAttempts))
    case LeaseNext(at, worker, nanos, locked, pick) => Some(QueueRuns.LeaseNext(at, worker, nanos, locked, pick))
    case Complete(at, t, true, _) => Some(QueueRuns.Complete(at, s.grants[t].job))
    case Fail(at, t, true, error) =>
      Some(QueueRuns.Fail(at, s.grants[t].job, s.grants[t].worker, error, s.grants[t].pc == Returned(Permanent)))
    case _ => None
  }

  predicate Legal(s: System, e: Event) {
    && (OfWorker(e) ==> e.t < |s.grants| && Enabled(s.grants[e.t], e))
    && (QueueEvent(s, e).Some? ==> QueueRuns.Legal(s.q, QueueEvent(s, e).value))
  }

  predicate Timely(s: System, e: Event)
    requires Legal(s, e)
  {
    OfWorker(e) ==> e.at < s.grants[e.t].until
  }

  function NextPc(s: System, g: Grant, e: Event): Pc
    requires OfWorker(e)
  {
    match e
    case Return(_, _, outcome) => Returned(outcome)
    case UpsertPending(_, _, _, acknowledged) =>
      if !acknowledged then Returned(Transient) else if Sent(s, g.key) then Returned(Ok) else Ready
    case RejectPayload(_, _) => Undelivered(true)
    case Send(_, _, delivered, mediaMissing) => if delivered then Delivered else Undelivered(mediaMissing)
    case MarkFailed(_, _, _) => Returned(if g.pc == Undelivered(true) then Permanent else Transient)
    case MarkSent(_, _, _, acknowledged) => if acknowledged then Marked else Returned(Transient)
    case RemoveMedia(_, _, removed) => Returned(if removed then Ok else Transient)
    case Complete(_, _, stored, acknowledged) => if acknowledged then Over else CompleteFailed(stored)
    case Fail(_, _, _, _) => Over
  }

  function NextRecords(s: System, g: Grant, e: Event): map<string, RecordStatus> {
    match e
    case UpsertPending(_, _, true, _) => if g.key in s.records then s.records else s.records[g.key := RecordPending]
    case MarkFailed(_, _, true) => s.records[g.key := RecordFailed]
    case MarkSent(_, _, true, _) => s.records[g.key := RecordSent]
    case _ => s.records
  }

  function Step(s: System, e: Event): System
    requires Legal(s, e)
  {
    var q := match QueueEvent(s, e) case Some(qe) => QueueRuns.Step(s.q, qe) case None => s.q;
    if OfWorker(e) then
      var g := s.grants[e.t];
      System(q, s.grants[e.t := g.(pc := NextPc(s, g, e))], NextRecords(s, g, e))
    else if e.LeaseNext? && e.pick.Some? then
      var j := q.jobs[e.pick.value];
      s.(q := q, grants := s.grants + [Grant(e.pick.value, j.jobType, j.key, e.worker, j.leaseUntil.value, Start)])
    else
      s.(q := q)
  }

  predicate Sent(s: System, key: string) {
    key in s.records && s.records[key] == RecordSent
  }

  // ---------- Runs ----------

  predicate Run(es: seq<Event>, n: nat)
    requires n <= |es|
    decreases n, 0
  {
    n == 0 || (Run(es, n - 1) && Legal(After(es, n - 1), es[n - 1]) && (n >= 2 ==> es[n - 2].at <= es[n - 1].at))
  }

  function After(es: seq<Event>, n: nat): System
    requires n <= |es| && Run(es, n)
    decreases n, 1
  {
    if n == 0 then INITIAL else Step(After(es, n - 1), es[n - 1])
  }

  predicate TimelyRun(es: seq<Event>, n: nat)
    requires n <= |es|
  {
    n == 0 || (Run(es, n) && TimelyRun(es, n - 1) && Timely(After(es, n - 1), es[n - 1]))
  }

  // ---------- The invariant of timely runs ----------

  // The grant's worker may still act.
  predicate Live(g: Grant, now: int) {
    g.pc != Over && now < g.until
  }

  // What the grant's position says about its dispatch record
  predicate PcInv(s: System, g: Grant, now: int) {
    && (Live(g, now) && (g.pc in {Ready, Delivered} || g.pc.Undelivered?) ==> g.key in s.records && !Sent(s, g.key))
    && (g.pc in {Ready, Delivered, Marked} || g.pc.Undelivered? ==> g.jobType == DISPATCH)
    && (g.pc in {Marked, Returned(Ok)} && g.jobType == DISPATCH ==> Sent(s, g.key))
  }

  // The job is still under the grant's lease, or was completed under it without the worker knowing.
  predicate HoldsJob(j: Job, g: Grant) {
    if g.pc == CompleteFailed(true) then j.status == Succeeded && j.attempts < j.maxAttempts
    else j.status == Leased && j.leaseUntil == Some(g.until)
  }

  predicate GrantInv(s: System, t: nat, now: int)
    requires t < |s.grants|
  {
    var g := s.grants[t];
    && g.job < |s.q.jobs| && IsRow(s.q.jobs[g.job], g.jobType, g.key)
    && (Live(g, now) ==> HoldsJob(s.q.jobs[g.job], g))
    && PcInv(s, g, now)
  }

  ghost predicate SystemInv(s: System, now: int) {
    && Inv(s.q)
    && (forall t: nat :: t < |s.grants| ==> GrantInv(s, t, now))
    && (forall t: nat, u: nat :: t < u < |s.grants| && Live(s.grants[t], now) && Live(s.grants[u], now) ==>
          s.grants[t].job != s.grants[u].job)
    && (forall i: nat :: i < |s.q.jobs| && s.q.jobs[i].jobType == DISPATCH && s.q.jobs[i].status == Succeeded ==>
          Sent(s, s.q.jobs[i].key))
  }

  lemma WaitingKeepsInv(s: System, before: int, now: int)
    requires SystemInv(s, before) && before <= now
    ensures SystemInv(s, now)
  {
    forall t: nat | t < |s.grants|
      ensures GrantInv(s, t, now)
    {
      assert GrantInv(s, t, before);
    }
  }

  // Two live dispatch grants are for different keys.
  lemma LiveGrantsHaveDistinctKeys(s: System, now: int, t: nat, u: nat)
    requires SystemInv(s, now) && t < |s.grants| && u < |s.grants| && t != u
    requires Live(s.grants[t], now) && Live(s.grants[u], now)
    requires s.grants[t].jobType == s.grants[u].jobType
    ensures s.grants[t].key != s.grants[u].key
  {
    assert GrantInv(s, t, now) && GrantInv(s, u, now);
  }

  // A timely step of one worker rewrites at most the job it holds.
  lemma WorkerStepTouchesOwnJob(s: System, e: Event)
    requires SystemInv(s, e.at) && Legal(s, e) && Timely(s, e) && OfWorker(e)
    ensures |Step(s, e).q.jobs| == |s.q.jobs|
    ensures forall i: nat :: i < |s.q.jobs| ==>
              IsRow(Step(s, e).q.jobs[i], s.q.jobs[i].jobType, s.q.jobs[i].key)
              && (i != s.grants[e.t].job ==> Step(s, e).q.jobs[i] == s.q.jobs[i])
    ensures s.grants[e.t].job < |s.q.jobs| && HoldsJob(s.q.jobs[s.grants[e.t].job], s.grants[e.t])
    ensures Step(s, e).q.jobs[s.grants[e.t].job].status == Succeeded ==>
              s.q.jobs[s.grants[e.t].job].status == Succeeded || (e.Complete? && e.stored)
  {
    assert GrantInv(s, e.t, e.at);
  }

  lemma WorkerStepEffect(s: System, e: Event)
    requires Legal(s, e) && OfWorker(e)
    ensures Step(s, e).grants == s.grants[e.t := s.grants[e.t].(pc := NextPc(s, s.grants[e.t], e))]
    ensures Step(s, e).records == NextRecords(s, s.grants[e.t], e)
    ensures QueueEvent(s, e).None? ==> Step(s, e).q == s.q
  {
  }

  lemma SentIsKept(s: System, e: Event)
    requires SystemInv(s, e.at) && Legal(s, e) && Timely(s, e)
    ensures forall key :: Sent(s, key) ==> Sent(Step(s, e), key)
    ensures forall key :: key in s.records ==> key in Step(s, e).records
    ensures OfWorker(e) ==> forall key :: key != s.grants[e.t].key ==> Sent(s, key) == Sent(Step(s, e), key)
  {
    if OfWorker(e) {
      assert GrantInv(s, e.t, e.at);
    }
  }

  lemma OwnJobKept(s: System, e: Event)
    requires SystemInv(s, e.at) && Legal(s, e) && Timely(s, e) && OfWorker(e)
    ensures
      var g' := Step(s, e).grants[e.t];
      && g'.job < |Step(s, e).q.jobs| && IsRow(Step(s, e).q.jobs[g'.job], g'.jobType, g'.key)
      && (Live(g', e.at) ==> HoldsJob(Step(s, e).q.jobs[g'.job], g'))
  {
    hide PcInv, NextRecords, FailedOnce, Logged;
    assert GrantInv(s, e.t, e.at);
    assert RowInv(s.q.jobs[s.grants[e.t].job]);
    if e.Complete? && e.stored {
      hide RowInv;
    } else if e.Fail? {
      WorkerStepTouchesOwnJob(s, e);
      assert Step(s, e).grants[e.t].pc == Over;
      hide RowInv;
    }
  }

  lemma OwnPcKept(s: System, e: Event)
    requires SystemInv(s, e.at) && Legal(s, e) && Timely(s, e) && OfWorker(e)
    ensures PcInv(Step(s, e), Step(s, e).grants[e.t], e.at)
  {
    assert GrantInv(s, e.t, e.at);
    WorkerStepEffect(s, e);
    hide Step, Inv, QueueEvent, HoldsJob;
  }

  lemma OwnGrantKept(s: System, e: Event)
    requires SystemInv(s, e.at) && Legal(s, e) && Timely(s, e) && OfWorker(e)
    ensures GrantInv(Step(s, e), e.t, e.at)
  {
    assert GrantInv(s, e.t, e.at) && Inv(s.q);
    hide Inv, RowInv;
    OwnJobKept(s, e);
    OwnPcKept(s, e);
  }

  lemma OtherGrantKept(s: System, e: Event, t: nat)
    requires SystemInv(s, e.at) && Legal(s, e) && Timely(s, e) && OfWorker(e)
    requires t < |s.grants| && t != e.t
    ensures Step(s, e).grants[t] == s.grants[t] && GrantInv(Step(s, e), t, e.at)
  {
    var g := s.grants[t];
    assert GrantInv(s, t, e.at);
    WorkerStepTouchesOwnJob(s, e);
    SentIsKept(s, e);
    assert Live(s.grants[e.t], e.at);
    if Live(g, e.at) {
      assert g.job != s.grants[e.t].job;
      if g.jobType == s.grants[e.t].jobType {
        LiveGrantsHaveDistinctKeys(s, e.at, t, e.t);
      }
      assert GrantInv(s, e.t, e.at);
      assert g.jobType != s.grants[e.t].jobType ==> Step(s, e).records == s.records || s.grants[e.t].jobType == DISPATCH;
    }
  }

  // A job is completed by the worker holding it, which for a dispatch job has seen the record sent.
  lemma CompletionMeansSent(s: System, e: Event, i: nat)
    requires SystemInv(s, e.at) && Legal(s, e) && Timely(s, e) && OfWorker(e)
    requires i < |s.q.jobs| && s.q.jobs[i].jobType == DISPATCH && Step(s, e).q.jobs[i].status == Succeeded
    ensures Sent(Step(s, e), s.q.jobs[i].key)
  {
    assert GrantInv(s, e.t, e.at);
    WorkerStepTouchesOwnJob(s, e);
    SentIsKept(s, e);
  }

  lemma QueueInvKept(s: System, e: Event)
    requires Inv(s.q) && Legal(s, e)
    ensures Inv(Step(s, e).q)
  {
    if QueueEvent(s, e).Some? {
      QueueRuns.StepKeepsInv(s.q, QueueEvent(s, e).value);
    }
  }

  lemma LiveJobsStayDistinct(s: System, e: Event)
    requires SystemInv(s, e.at) && Legal(s, e) && Timely(s, e) && OfWorker(e)
    ensures |Step(s, e).grants| == |s.grants|
    ensures
      var grants := Step(s, e).grants;
      forall t: nat, u: nat :: t < u < |grants| && Live(grants[t], e.at) && Live(grants[u], e.at) ==>
        grants[t].job != grants[u].job
  {
    hide Step, GrantInv, Inv, NextPc, NextRecords, QueueEvent;
    WorkerStepEffect(s, e);
    assert s.grants[e.t].pc != Over && Live(s.grants[e.t], e.at);
    hide Legal, Timely;
  }

  lemma WorkerStepKeepsInv(s: System, e: Event)
    requires SystemInv(s, e.at) && Legal(s, e) && Timely(s, e) && OfWorker(e)
    ensures SystemInv(Step(s, e), e.at)
  {
    hide Step, GrantInv, Inv, RowInv, Legal, Timely, NextPc, NextRecords, QueueEvent;
    var s' := Step(s, e);
    QueueInvKept(s, e);
    WorkerStepEffect(s, e);
    LiveJobsStayDistinct(s, e);
    forall t: nat | t < |s'.grants|
      ensures GrantInv(s', t, e.at)
    {
      if t == e.t {
        OwnGrantKept(s, e);
      } else {
        OtherGrantKept(s, e, t);
      }
    }
    forall i: nat | i < |s'.q.jobs| && s'.q.jobs[i].jobType == DISPATCH && s'.q.jobs[i].status == Succeeded
      ensures Sent(s', s'.q.jobs[i].key)
    {
      WorkerStepTouchesOwnJob(s, e);
      CompletionMeansSent(s, e, i);
    }
  }

  lemma QueueStepKeepsInv(s: System, e: Event)
    requires SystemInv(s, e.at) && Legal(s, e) && !OfWorker(e)
    ensures SystemInv(Step(s, e), e.at)
  {
    hide Inv;
    var s' := Step(s, e);
    QueueInvKept(s, e);
    forall t: nat | t < |s'.grants|
      ensures GrantInv(s', t, e.at)
    {
      if t < |s.grants| {
        assert GrantInv(s, t, e.at);
      }
    }
    forall t: nat, u: nat | t < u < |s'.grants| && Live(s'.grants[t], e.at) && Live(s'.grants[u], e.at)
      ensures s'.grants[t].job != s'.grants[u].job
    {
      assert GrantInv(s, t, e.at);
    }
  }
}
