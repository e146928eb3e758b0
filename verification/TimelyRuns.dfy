/**
 What timely runs guarantee from their first event to their last: terminal jobs stay as they are,
 grants are accounted for, retries are spaced, and a message is delivered once unless its delivery
 could not be recorded.
 */
module TimelyRuns {
  import opened Wrappers
  import opened Backoff
  import opened JobQueue
  import QueueRuns
  import opened Workers

  lemma {:induction false} TimelyRunKeepsInv(es: seq<Event>, n: nat)
    requires n <= |es| && TimelyRun(es, n) && Run(es, n)
    ensures n == 0 ==> SystemInv(After(es, n), 0)
    ensures n > 0 ==> SystemInv(After(es, n), es[n - 1].at) && SystemInv(After(es, n - 1), es[n - 1].at)
  {
    if n > 0 {
      TimelyRunKeepsInv(es, n - 1);
      var s, e := After(es, n - 1), es[n - 1];
      if n > 1 {
        WaitingKeepsInv(s, es[n - 2].at, e.at);
      }
      if OfWorker(e) {
        WorkerStepKeepsInv(s, e);
      } else {
        QueueStepKeepsInv(s, e);
      }
    }
  }

  lemma {:induction false} TimelyPrefix(es: seq<Event>, m: nat, n: nat)
    requires m <= n <= |es| && TimelyRun(es, n) && Run(es, n)
    ensures TimelyRun(es, m) && Run(es, m)
    ensures 1 <= m ==> es[m - 1].at <= es[n - 1].at
  {
    if m < n {
      TimelyPrefix(es, m, n - 1);
    }
  }

  predicate GrantsJob(e: Event, id: nat) {
    e.LeaseNext? && e.pick == Some(id)
  }

  predicate CompletesJob(s: System, e: Event, id: nat) {
    e.Complete? && e.stored && e.t < |s.grants| && s.grants[e.t].job == id && id < |s.q.jobs|
  }

  predicate FailsJob(s: System, e: Event, id: nat) {
    e.Fail? && e.stored && e.t < |s.grants| && s.grants[e.t].job == id && FailCommits(s.q, id)
  }

  predicate ReclaimsJob(s: System, e: Event, id: nat) {
    GrantsJob(e, id) && id < |s.q.jobs| && s.q.jobs[id].status == Leased
  }

  // The step fails a job that the same worker has completed without being told so.
  predicate UndoesCompletion(s: System, e: Event, id: nat) {
    e.Fail? && e.stored && e.t < |s.grants| && s.grants[e.t].job == id && s.grants[e.t].pc == CompleteFailed(true)
  }

  // The four ways a job's row changes in a timely run, and nothing else
  lemma JobMoves(s: System, e: Event, id: nat)
    requires SystemInv(s, e.at) && Legal(s, e) && Timely(s, e) && id < |s.q.jobs|
    ensures id < |Step(s, e).q.jobs|
    ensures
      var j, j' := s.q.jobs[id], Step(s, e).q.jobs[id];
      if GrantsJob(e, id) then
        (j.status == Queued || j.status == Leased) && Leasable(j, e.at) && j' == Lease(j, e.at, e.worker, e.nanos)
      else if CompletesJob(s, e, id) then j.status == Leased && j' == Succeed(j, e.at)
      else if FailsJob(s, e, id) then
        && j.status == (if UndoesCompletion(s, e, id) then Succeeded else Leased)
        && j' == Retire(j, e.at, e.error, s.grants[e.t].pc == Returned(Permanent))
      else j' == j
    ensures UndoesCompletion(s, e, id) ==> FailsJob(s, e, id)
  {
    if OfWorker(e) {
      assert GrantInv(s, e.t, e.at);
      FailCommitsUnlessExhausted(s.q, s.grants[e.t].job);
    }
  }

  // ---------- Terminal rows ----------

  // A timely step changes a terminal row exactly when it fails a job that the same worker completed
  // without being told so; the row then is no longer succeeded, and a dead-lettered row never changes.
  lemma TerminalRowKeptExactly(s: System, e: Event, id: nat)
    requires SystemInv(s, e.at) && Legal(s, e) && Timely(s, e) && id < |s.q.jobs| && QueueRuns.Terminal(s.q.jobs[id])
    ensures id < |Step(s, e).q.jobs|
    ensures Step(s, e).q.jobs[id] == s.q.jobs[id] <==> !UndoesCompletion(s, e, id)
    ensures UndoesCompletion(s, e, id) ==> s.q.jobs[id].status == Succeeded != Step(s, e).q.jobs[id].status
  {
    hide Step, Legal, Timely, SystemInv;
    JobMoves(s, e, id);
  }

  // The job's row is the given one after each of the first m, m + 1, ..., n events.
  predicate StaysAs(es: seq<Event>, m: nat, n: nat, id: nat, row: Job)
    requires m <= n <= |es| && Run(es, n)
  {
    && id < |After(es, n).q.jobs| && After(es, n).q.jobs[id] == row
    && (m < n ==> StaysAs(es, m, n - 1, id, row))
  }

  // One of the events m, ..., n - 1 undoes a completion of the job.
  predicate Undone(es: seq<Event>, m: nat, n: nat, id: nat)
    requires m <= n <= |es| && Run(es, n)
  {
    m < n && (Undone(es, m, n - 1, id) || UndoesCompletion(After(es, n - 1), es[n - 1], id))
  }

  // In a timely run a succeeded or dead-lettered row stays as it is exactly as long as no worker, told
  // that its stored Complete failed, fails the job after all.
  lemma {:induction false} TerminalIsKeptExactly(es: seq<Event>, m: nat, n: nat, id: nat)
    requires m <= n <= |es| && TimelyRun(es, n) && Run(es, n) && Run(es, m)
    requires id < |After(es, m).q.jobs| && QueueRuns.Terminal(After(es, m).q.jobs[id])
    ensures StaysAs(es, m, n, id, After(es, m).q.jobs[id]) <==> !Undone(es, m, n, id)
  {
    hide Step, Legal, Timely, SystemInv, UndoesCompletion;
    if m < n {
      TerminalIsKeptExactly(es, m, n - 1, id);
      TimelyRunKeepsInv(es, n);
      if StaysAs(es, m, n - 1, id, After(es, m).q.jobs[id]) {
        TerminalRowKeptExactly(After(es, n - 1), es[n - 1], id);
      }
    }
  }

  // dead_letter is absorbing in every timely run.
  lemma {:induction false} DeadLetterIsAbsorbing(es: seq<Event>, m: nat, n: nat, id: nat)
    requires m <= n <= |es| && TimelyRun(es, n) && Run(es, n) && Run(es, m)
    requires id < |After(es, m).q.jobs| && After(es, m).q.jobs[id].status == DeadLetter
    ensures id < |After(es, n).q.jobs| && After(es, n).q.jobs[id] == After(es, m).q.jobs[id]
  {
    hide Step, Legal, Timely, SystemInv;
    if m < n {
      DeadLetterIsAbsorbing(es, m, n - 1, id);
      TimelyRunKeepsInv(es, n);
      TerminalRowKeptExactly(After(es, n - 1), es[n - 1], id);
    }
  }

  // ---------- Sent records ----------

  // The step turns the key's record to failed.
  predicate MarksFailed(s: System, e: Event, key: string) {
    e.MarkFailed? && e.stored && e.t < |s.grants| && s.grants[e.t].key == key
  }

  // Whoever is late, a sent record stays sent exactly as long as no MarkFailed for its key is stored.
  lemma SentKeptExactly(s: System, e: Event, key: string)
    requires Legal(s, e) && Sent(s, key)
    ensures Sent(Step(s, e), key) <==> !MarksFailed(s, e, key)
  {
    if OfWorker(e) {
      WorkerStepEffect(s, e);
      hide Step, QueueEvent;
    }
  }

  predicate SentThroughout(es: seq<Event>, m: nat, n: nat, key: string)
    requires m <= n <= |es| && Run(es, n)
  {
    Sent(After(es, n), key) && (m < n ==> SentThroughout(es, m, n - 1, key))
  }

  predicate MarkedFailed(es: seq<Event>, m: nat, n: nat, key: string)
    requires m <= n <= |es| && Run(es, n)
  {
    m < n && (MarkedFailed(es, m, n - 1, key) || MarksFailed(After(es, n - 1), es[n - 1], key))
  }

  lemma {:induction false} SentThroughoutExactly(es: seq<Event>, m: nat, n: nat, key: string)
    requires m <= n <= |es| && Run(es, n) && Run(es, m) && Sent(After(es, m), key)
    ensures SentThroughout(es, m, n, key) <==> !MarkedFailed(es, m, n, key)
  {
    hide Step, Legal, Sent, MarksFailed;
    if m < n {
      SentThroughoutExactly(es, m, n - 1, key);
      if SentThroughout(es, m, n - 1, key) {
        SentKeptExactly(After(es, n - 1), es[n - 1], key);
      }
    }
  }

  // In a timely run nobody marks a sent record failed: once sent, it stays sent.
  lemma {:induction false} SentIsAbsorbing(es: seq<Event>, m: nat, n: nat, key: string)
    requires m <= n <= |es| && TimelyRun(es, n) && Run(es, n) && Run(es, m)
    requires Sent(After(es, m), key)
    ensures Sent(After(es, n), key)
  {
    hide Step;
    if m < n {
      SentIsAbsorbing(es, m, n - 1, key);
      TimelyRunKeepsInv(es, n);
      SentIsKept(After(es, n - 1), es[n - 1]);
    }
  }

  // A dispatch job that ever shows as succeeded has a record that is sent.
  lemma SucceededDispatchWasSent(es: seq<Event>, n: nat, id: nat)
    requires n <= |es| && TimelyRun(es, n) && Run(es, n)
    requires id < |After(es, n).q.jobs|
    requires After(es, n).q.jobs[id].jobType == DISPATCH && After(es, n).q.jobs[id].status == Succeeded
    ensures Sent(After(es, n), After(es, n).q.jobs[id].key)
  {
    TimelyRunKeepsInv(es, n);
  }

  // ---------- Accounting ----------

  function One(b: bool): nat {
    if b then 1 else 0
  }

  function GrantCount(es: seq<Event>, n: nat, id: nat): nat
    requires n <= |es|
  {
    if n == 0 then 0 else GrantCount(es, n - 1, id) + One(GrantsJob(es[n - 1], id))
  }

  function ReclaimCount(es: seq<Event>, n: nat, id: nat): nat
    requires n <= |es| && Run(es, n)
  {
    if n == 0 then 0 else ReclaimCount(es, n - 1, id) + One(ReclaimsJob(After(es, n - 1), es[n - 1], id))
  }

  function CompleteCount(es: seq<Event>, n: nat, id: nat): nat
    requires n <= |es| && Run(es, n)
  {
    if n == 0 then 0 else CompleteCount(es, n - 1, id) + One(CompletesJob(After(es, n - 1), es[n - 1], id))
  }

  function FailCount(es: seq<Event>, n: nat, id: nat): nat
    requires n <= |es| && Run(es, n)
  {
    if n == 0 then 0 else FailCount(es, n - 1, id) + One(FailsJob(After(es, n - 1), es[n - 1], id))
  }

  predicate Shows(q: Queue, id: nat, status: Status) {
    id < |q.jobs| && q.jobs[id].status == status
  }

  function Failures(q: Queue, id: nat): int {
    if id < |q.jobs| then q.jobs[id].attempts else 0
  }

  // Failures of a job its worker had completed without being told so
  function UndoCount(es: seq<Event>, n: nat, id: nat): nat
    requires n <= |es| && Run(es, n)
  {
    if n == 0 then 0 else UndoCount(es, n - 1, id) + One(UndoesCompletion(After(es, n - 1), es[n - 1], id))
  }

  lemma OneEventIsAccountedFor(s: System, e: Event, id: nat)
    requires SystemInv(s, e.at) && Legal(s, e) && Timely(s, e)
    ensures One(Shows(s.q, id, Leased)) + One(GrantsJob(e, id)) + One(UndoesCompletion(s, e, id))
         == One(FailsJob(s, e, id)) + One(CompletesJob(s, e, id)) + One(ReclaimsJob(s, e, id))
            + One(Shows(Step(s, e).q, id, Leased))
    ensures One(Shows(s.q, id, Succeeded)) + One(CompletesJob(s, e, id))
         == One(Shows(Step(s, e).q, id, Succeeded)) + One(UndoesCompletion(s, e, id))
    ensures Failures(s.q, id) + One(FailsJob(s, e, id)) == Failures(Step(s, e).q, id)
  {
    if id < |s.q.jobs| {
      JobMoves(s, e, id);
    } else if OfWorker(e) {
      assert GrantInv(s, e.t, e.at);
    }
  }

  // Every grant ends in a failure, a completion or a reclaim, or is the lease the job is under now,
  // where a failure that undoes a completion ends no grant. A job that shows as succeeded has been
  // completed once more than its completions were undone, any other job exactly as often.
  lemma {:induction false} GrantsAreAccountedFor(es: seq<Event>, n: nat, id: nat)
    requires n <= |es| && TimelyRun(es, n) && Run(es, n)
    ensures GrantCount(es, n, id) + UndoCount(es, n, id)
         == FailCount(es, n, id) + CompleteCount(es, n, id) + ReclaimCount(es, n, id)
            + One(Shows(After(es, n).q, id, Leased))
    ensures CompleteCount(es, n, id) == One(Shows(After(es, n).q, id, Succeeded)) + UndoCount(es, n, id)
    ensures FailCount(es, n, id) == Failures(After(es, n).q, id)
  {
    hide Step, Legal, Timely, SystemInv, UndoesCompletion, FailsJob, CompletesJob, ReclaimsJob;
    if n > 0 {
      GrantsAreAccountedFor(es, n - 1, id);
      TimelyRunKeepsInv(es, n);
      OneEventIsAccountedFor(After(es, n - 1), es[n - 1], id);
    }
  }

  // ---------- Retry spacing ----------

  function FirstOf(before: Option<int>, s: System, e: Event, id: nat): Option<int> {
    if before.None? && FailsJob(s, e, id) then Some(e.at) else before
  }

  // When the job failed for the first time
  function FirstFailure(es: seq<Event>, n: nat, id: nat): Option<int>
    requires n <= |es| && Run(es, n)
  {
    if n == 0 then None else FirstOf(FirstFailure(es, n - 1, id), After(es, n - 1), es[n - 1], id)
  }

  // After k >= 1 failures a queued job is held back, and a leased or succeeded one was held back, until
  // the delays of failures 1 .. k have passed since the first.
  predicate Spaced(q: Queue, id: nat, first: Option<int>, now: int) {
    && (Failures(q, id) == 0 <==> first.None?)
    && (Failures(q, id) > 0 && first.Some? ==>
          var due := first.value + TotalBackoff(Failures(q, id) + 1) * SECOND;
          && (Shows(q, id, Queued) ==> due <= q.jobs[id].availableAt)
          && (Shows(q, id, Leased) || Shows(q, id, Succeeded) ==> due <= now))
  }

  lemma StepKeepsSpacing(s: System, e: Event, id: nat, first: Option<int>)
    requires SystemInv(s, e.at) && Legal(s, e) && Timely(s, e) && Spaced(s.q, id, first, e.at)
    ensures Spaced(Step(s, e).q, id, FirstOf(first, s, e, id), e.at)
    ensures FailsJob(s, e, id) ==>
              FirstOf(first, s, e, id).Some?
              && e.at >= FirstOf(first, s, e, id).value + TotalBackoff(Failures(Step(s, e).q, id)) * SECOND
  {
    if id < |s.q.jobs| {
      JobMoves(s, e, id);
      assert RowInv(s.q.jobs[id]);
    }
  }

  lemma {:induction false} RunKeepsSpacing(es: seq<Event>, n: nat, id: nat)
    requires n <= |es| && TimelyRun(es, n) && Run(es, n)
    ensures Spaced(After(es, n).q, id, FirstFailure(es, n, id), if n == 0 then 0 else es[n - 1].at)
  {
    hide Step;
    if n > 0 {
      RunKeepsSpacing(es, n - 1, id);
      TimelyRunKeepsInv(es, n);
      StepKeepsSpacing(After(es, n - 1), es[n - 1], id, FirstFailure(es, n - 1, id));
    }
  }

  // The m-th failure of a job comes no earlier than its first failure plus the delays of failures
  // 1 .. m - 1; with m the job's limit this bounds when it can run out of attempts.
  lemma FailureRespectsBackoff(es: seq<Event>, n: nat, id: nat, m: int)
    requires 0 < n <= |es| && TimelyRun(es, n) && Run(es, n)
    requires FailsJob(After(es, n - 1), es[n - 1], id) && Failures(After(es, n).q, id) == m
    ensures FirstFailure(es, n, id).Some?
    ensures es[n - 1].at >= FirstFailure(es, n, id).value + TotalBackoff(m) * SECOND
    ensures m == DEFAULT_MAX_ATTEMPTS ==> es[n - 1].at >= FirstFailure(es, n, id).value + 450 * SECOND
  {
    hide Step;
    RunKeepsSpacing(es, n - 1, id);
    TimelyRunKeepsInv(es, n);
    StepKeepsSpacing(After(es, n - 1), es[n - 1], id, FirstFailure(es, n - 1, id));
    TotalBackoffClosedForm(5);
  }

  // ---------- Delivery ----------

  // Grants whose worker delivered and has not called MarkSent: it crashed in between, or is there now
  function StrandedCount(grants: seq<Workers.Grant>, key: string): nat {
    if grants == [] then 0
    else
      var last := grants[|grants| - 1];
      StrandedCount(grants[..|grants| - 1], key) + One(last.pc == Delivered && last.key == key)
  }

  lemma {:induction false} StrandedAfterUpdate(grants: seq<Workers.Grant>, t: nat, pc: Pc, key: string)
    requires t < |grants|
    ensures StrandedCount(grants[t := grants[t].(pc := pc)], key) + One(grants[t].pc == Delivered && grants[t].key == key)
         == StrandedCount(grants, key) + One(pc == Delivered && grants[t].key == key)
  {
    var n := |grants| - 1;
    var updated := grants[t := grants[t].(pc := pc)];
    if t == n {
      assert updated[..n] == grants[..n];
    } else {
      StrandedAfterUpdate(grants[..n], t, pc, key);
      assert updated[..n] == grants[..n][t := grants[..n][t].(pc := pc)];
    }
  }

  function Delivers(s: System, e: Event, key: string): nat
    requires Legal(s, e)
  {
    One(e.Send? && e.delivered && s.grants[e.t].key == key)
  }

  function LosesMark(s: System, e: Event, key: string): nat
    requires Legal(s, e)
  {
    One(e.MarkSent? && !e.stored && s.grants[e.t].key == key)
  }

  function MarkFails(s: System, e: Event, key: string): nat
    requires Legal(s, e)
  {
    One(e.MarkSent? && !e.acknowledged && s.grants[e.t].key == key)
  }

  function SendCount(es: seq<Event>, n: nat, key: string): nat
    requires n <= |es| && Run(es, n)
  {
    if n == 0 then 0 else SendCount(es, n - 1, key) + Delivers(After(es, n - 1), es[n - 1], key)
  }

  // Deliveries whose MarkSent did not take effect
  function UnmarkedCount(es: seq<Event>, n: nat, key: string): nat
    requires n <= |es| && Run(es, n)
  {
    if n == 0 then 0 else UnmarkedCount(es, n - 1, key) + LosesMark(After(es, n - 1), es[n - 1], key)
  }

  // Calls of MarkSent that returned an error, whether or not they took effect
  function MarkErrorCount(es: seq<Event>, n: nat, key: string): nat
    requires n <= |es| && Run(es, n)
  {
    if n == 0 then 0 else MarkErrorCount(es, n - 1, key) + MarkFails(After(es, n - 1), es[n - 1], key)
  }

  // Deliveries for a key that are recorded as sent or still waiting to be
  function OnRecord(s: System, key: string): nat {
    One(Sent(s, key)) + StrandedCount(s.grants, key)
  }

  // Only a stored MarkSent makes a key sent, and no timely step undoes that.
  lemma RecordMoves(s: System, e: Event, key: string)
    requires SystemInv(s, e.at) && Legal(s, e) && Timely(s, e) && OfWorker(e)
    ensures One(Sent(Step(s, e), key)) == One(Sent(s, key)) + One(e.MarkSent? && e.stored && s.grants[e.t].key == key)
  {
    assert GrantInv(s, e.t, e.at);
    WorkerStepEffect(s, e);
    hide Step, Inv, QueueEvent;
  }

  // A worker is stranded from its delivery to its MarkSent.
  lemma StrandedMoves(s: System, e: Event, key: string)
    requires Legal(s, e) && OfWorker(e)
    ensures StrandedCount(Step(s, e).grants, key) + One(e.MarkSent? && s.grants[e.t].key == key)
         == StrandedCount(s.grants, key) + Delivers(s, e, key)
  {
    StrandedAfterUpdate(s.grants, e.t, NextPc(s, s.grants[e.t], e), key);
    WorkerStepEffect(s, e);
    hide Step, StrandedCount, QueueEvent;
  }

  lemma OneDeliveryIsAccountedFor(s: System, e: Event, key: string)
    requires SystemInv(s, e.at) && Legal(s, e) && Timely(s, e)
    ensures OnRecord(s, key) + Delivers(s, e, key) == OnRecord(Step(s, e), key) + LosesMark(s, e, key)
  {
    if OfWorker(e) {
      RecordMoves(s, e, key);
      StrandedMoves(s, e, key);
      hide Step, StrandedCount, SystemInv, Legal, Sent;
    } else {
      assert e.LeaseNext? && e.pick.Some? ==> Step(s, e).grants[..|s.grants|] == s.grants;
    }
  }

  lemma {:induction false} DeliveriesAreOnRecordOrLost(es: seq<Event>, n: nat, key: string)
    requires n <= |es| && TimelyRun(es, n) && Run(es, n)
    ensures SendCount(es, n, key) == OnRecord(After(es, n), key) + UnmarkedCount(es, n, key)
  {
    hide Step;
    if n > 0 {
      var s, e := After(es, n - 1), es[n - 1];
      DeliveriesAreOnRecordOrLost(es, n - 1, key);
      assert SystemInv(s, e.at) by {
        TimelyRunKeepsInv(es, n);
      }
      assert After(es, n) == Step(s, e);
      OneDeliveryIsAccountedFor(s, e, key);
    }
  }

  lemma {:induction false} UnmarkedIsAnError(es: seq<Event>, n: nat, key: string)
    requires n <= |es| && Run(es, n)
    ensures UnmarkedCount(es, n, key) <= MarkErrorCount(es, n, key)
  {
    hide Step;
    if n > 0 {
      UnmarkedIsAnError(es, n - 1, key);
    }
  }

  // Conservation of deliveries: each successful provider Send for a key is the one recorded as sent,
  // one whose MarkSent did not take effect, or one whose worker never reached MarkSent. So a key is
  // delivered at most once more often than its MarkSent returned an error or was not reached.
  lemma DeliveriesAreAccountedFor(es: seq<Event>, n: nat, key: string)
    requires n <= |es| && TimelyRun(es, n) && Run(es, n)
    ensures SendCount(es, n, key)
         == One(Sent(After(es, n), key)) + UnmarkedCount(es, n, key) + StrandedCount(After(es, n).grants, key)
    ensures SendCount(es, n, key) <= 1 + MarkErrorCount(es, n, key) + StrandedCount(After(es, n).grants, key)
  {
    hide Step, SendCount, UnmarkedCount, MarkErrorCount, StrandedCount;
    DeliveriesAreOnRecordOrLost(es, n, key);
    UnmarkedIsAnError(es, n, key);
  }
}
