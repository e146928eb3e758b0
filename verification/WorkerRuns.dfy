/**
 What any run of workers, timely or not, does to the job table is a run of the queue on its own: the
 theorems about queue runs hold however late the workers are.
 */
module WorkerRuns {
  import opened Wrappers
  import opened JobQueue
  import opened Workers
  import QueueRuns

  // The statements that the first n events send to the job table
  function Trace(es: seq<Event>, n: nat): seq<QueueRuns.Event>
    requires n <= |es| && Run(es, n)
  {
    if n == 0 then []
    else
      var e := QueueEvent(After(es, n - 1), es[n - 1]);
      Trace(es, n - 1) + if e.Some? then [e.value] else []
  }

  lemma {:induction false} LongerListSameRun(q: Queue, es: seq<QueueRuns.Event>, e: QueueRuns.Event, n: nat)
    requires n <= |es| && QueueRuns.Run(q, es, n)
    ensures QueueRuns.Run(q, es + [e], n) && QueueRuns.After(q, es + [e], n) == QueueRuns.After(q, es, n)
  {
    hide QueueRuns.Legal, QueueRuns.Step;
    if n > 0 {
      LongerListSameRun(q, es, e, n - 1);
    }
  }

  lemma QueueRunGrows(q: Queue, es: seq<QueueRuns.Event>, e: QueueRuns.Event)
    requires QueueRuns.Run(q, es, |es|) && QueueRuns.Legal(QueueRuns.After(q, es, |es|), e)
    requires es != [] ==> es[|es| - 1].at <= e.at
    ensures QueueRuns.Run(q, es + [e], |es| + 1)
    ensures QueueRuns.After(q, es + [e], |es| + 1) == QueueRuns.Step(QueueRuns.After(q, es, |es|), e)
  {
    hide QueueRuns.Legal, QueueRuns.Step;
    LongerListSameRun(q, es, e, |es|);
  }

  lemma QueueEventIsAt(s: System, e: Event)
    requires Legal(s, e)
    ensures QueueEvent(s, e).Some? ==> QueueEvent(s, e).value.at == e.at && QueueRuns.Legal(s.q, QueueEvent(s, e).value)
    ensures Step(s, e).q == if QueueEvent(s, e).Some? then QueueRuns.Step(s.q, QueueEvent(s, e).value) else s.q
  {
    hide QueueRuns.Step, QueueRuns.Legal;
  }

  lemma {:induction false} TraceIsAQueueRun(es: seq<Event>, n: nat)
    requires n <= |es| && Run(es, n)
    ensures QueueRuns.Run(EMPTY, Trace(es, n), |Trace(es, n)|)
    ensures QueueRuns.After(EMPTY, Trace(es, n), |Trace(es, n)|) == After(es, n).q
    ensures Trace(es, n) != [] ==> n > 0 && Trace(es, n)[|Trace(es, n)| - 1].at <= es[n - 1].at
  {
    if n > 0 {
      hide Legal, Step, QueueEvent, QueueRuns.Legal, QueueRuns.Step;
      var s, e := After(es, n - 1), es[n - 1];
      TraceIsAQueueRun(es, n - 1);
      QueueEventIsAt(s, e);
      if QueueEvent(s, e).Some? {
        assert Trace(es, n) == Trace(es, n - 1) + [QueueEvent(s, e).value];
        QueueRunGrows(EMPTY, Trace(es, n - 1), QueueEvent(s, e).value);
      } else {
        assert Trace(es, n) == Trace(es, n - 1);
      }
    }
  }

  // So even late workers keep the table's invariant.
  lemma AnyRunKeepsQueueInv(es: seq<Event>, n: nat)
    requires n <= |es| && Run(es, n)
    ensures Inv(After(es, n).q)
  {
    hide Legal, Step, QueueRuns.Legal, QueueRuns.Step, RowInv;
    TraceIsAQueueRun(es, n);
    assert Inv(EMPTY);
    QueueRuns.RunKeepsInv(EMPTY, Trace(es, n), |Trace(es, n)|);
  }
}
