/**
 Concurrent ingest requests, v1 and v2 alike, racing for the batch of their idempotency key. Creating
 the batch, merging the bundle and marking the batch merged are three separate steps, each of which
 may fail, and each of which may succeed without the caller learning of it.
 */
module Batches {
  import opened Wrappers

  datatype BatchStatus = BatchAccepted | BatchMerged

  // A row of ingest_batches; its position is its id
  datatype Batch = Batch(student: string, key: string, checksum: string, status: BatchStatus)

  // A request after normalisation and validation
  datatype Request = Request(student: string, key: string, checksum: string)

  datatype Reply = Success(batch: nat) | AlreadyProcessed(batch: nat) | Conflict | Internal

  datatype Pc = Start | Created(batch: nat) | Committed(batch: nat) | Done(reply: Reply)

  datatype Call = Call(request: Request, pc: Pc)

  // The batch table, the calls in progress or finished, and the calls whose merge has committed
  datatype System = System(batches: seq<Batch>, calls: seq<Call>, merges: seq<nat>)

  const INITIAL := System([], [], [])

  datatype Event =
    | Arrive(request: Request)
    | CreateBatch(c: nat, stored: bool, acknowledged: bool)
    | MergeBundle(c: nat, committed: bool, acknowledged: bool)
    | MarkMerged(c: nat, stored: bool, acknowledged: bool)

  predicate ForBatch(r: Request, b: Batch) {
    r.student == b.student && r.key == b.key
  }

  // The position of the batch of a student and key, if there is one
  function FindBatch(batches: seq<Batch>, student: string, key: string): (found: Option<nat>)
    ensures found.Some? ==>
              && found.value < |batches|
              && batches[found.value].student == student && batches[found.value].key == key
    ensures found.None? ==> forall b :: b in batches ==> b.student != student || b.key != key
  {
    if batches == [] then None
    else
      var n := |batches| - 1;
      if batches[n].student == student && batches[n].key == key then Some(n) else FindBatch(batches[..n], student, key)
  }

  predicate Legal(s: System, e: Event) {
    match e
    case Arrive(_) => true
    case CreateBatch(c, stored, acknowledged) => c < |s.calls| && s.calls[c].pc == Start && (acknowledged ==> stored)
    case MergeBundle(c, committed, acknowledged) => c < |s.calls| && s.calls[c].pc.Created? && (acknowledged ==> committed)
    case MarkMerged(c, stored, acknowledged) =>
      c < |s.calls| && s.calls[c].pc.Committed? && s.calls[c].pc.batch < |s.batches| && (acknowledged ==> stored)
  }

  function At(s: System, c: nat, pc: Pc): System
    requires c < |s.calls|
  {
    s.(calls := s.calls[c := s.calls[c].(pc := pc)])
  }

  function Step(s: System, e: Event): System
    requires Legal(s, e)
  {
    match e
    case Arrive(request) => s.(calls := s.calls + [Call(request, Start)])
    case CreateBatch(c, stored, acknowledged) =>
      var r := s.calls[c].request;
      var found := FindBatch(s.batches, r.student, r.key);
      if found.None? && stored then
        At(s, c, if acknowledged then Created(|s.batches|) else Done(Internal))
        .(batches := s.batches + [Batch(r.student, r.key, r.checksum, BatchAccepted)])
      else if !acknowledged || found.None? then At(s, c, Done(Internal))
      else if s.batches[found.value].checksum != r.checksum then At(s, c, Done(Conflict))
      else At(s, c, Done(AlreadyProcessed(found.value)))
    case MergeBundle(c, committed, acknowledged) =>
      At(s, c, if acknowledged then Committed(s.calls[c].pc.batch) else Done(Internal))
      .(merges := if committed then s.merges + [c] else s.merges)
    case MarkMerged(c, stored, acknowledged) =>
      var b := s.calls[c].pc.batch;
      At(s, c, Done(if acknowledged then Success(b) else Internal))
      .(batches := if stored then s.batches[b := s.batches[b].(status := BatchMerged)] else s.batches)
  }

  // ---------- The invariant ----------

  // Merges committed for a student and key
  function MergeCount(s: System, student: string, key: string): nat {
    Count(s.calls, s.merges, student, key)
  }

  function Count(calls: seq<Call>, merges: seq<nat>, student: string, key: string): nat {
    if merges == [] then 0
    else
      var n := |merges| - 1;
      Count(calls, merges[..n], student, key)
      + if merges[n] < |calls| && calls[merges[n]].request.student == student && calls[merges[n]].request.key == key
        then 1 else 0
  }

  // The call created batch b and is still working on it.
  predicate Holds(call: Call, b: nat) {
    call.pc == Created(b) || call.pc == Committed(b)
  }

  predicate CallInv(s: System, c: nat)
    requires c < |s.calls|
  {
    var call := s.calls[c];
    match call.pc
    case Created(b) => b < |s.batches| && ForBatch(call.request, s.batches[b])
    case Committed(b) => b < |s.batches| && ForBatch(call.request, s.batches[b]) && c in s.merges
    case Done(AlreadyProcessed(b)) =>
      b < |s.batches| && ForBatch(call.request, s.batches[b]) && s.batches[b].checksum == call.request.checksum
    case Done(Success(b)) =>
      && b < |s.batches| && ForBatch(call.request, s.batches[b]) && s.batches[b].checksum == call.request.checksum
      && s.batches[b].status == BatchMerged && c in s.merges
    case Done(Conflict) =>
      exists k :: 0 <= k < |s.batches| && ForBatch(call.request, s.batches[k]) && s.batches[k].checksum != call.request.checksum
    case _ => true
  }

  predicate BatchInv(s: System, b: nat)
    requires b < |s.batches|
  {
    var merges := MergeCount(s, s.batches[b].student, s.batches[b].key);
    && merges <= 1
    && (s.batches[b].status == BatchMerged ==> merges == 1)
    && (forall c: nat :: c < |s.calls| && s.calls[c].pc == Created(b) ==> merges == 0)
    && (forall c: nat :: c < |s.calls| && s.calls[c].pc == Committed(b) ==> merges == 1)
    && (forall c: nat, d: nat :: c < d < |s.calls| ==> !(Holds(s.calls[c], b) && Holds(s.calls[d], b)))
    && (forall c: nat :: c < |s.calls| && Holds(s.calls[c], b) ==> s.batches[b].checksum == s.calls[c].request.checksum)
  }

  ghost predicate Inv(s: System) {
    && (forall i: nat, j: nat :: i < j < |s.batches| ==>
          s.batches[i].student != s.batches[j].student || s.batches[i].key != s.batches[j].key)
    && (forall c: nat :: c < |s.calls| ==> CallInv(s, c))
    && (forall b: nat :: b < |s.batches| ==> BatchInv(s, b))
    && (forall student, key :: FindBatch(s.batches, student, key).None? ==> MergeCount(s, student, key) == 0)
    && (forall c :: c in s.merges ==> c < |s.calls|)
  }

  // Merge counts depend on the requests and the merge log only.
  lemma {:induction false} CountIgnoresPcs(calls: seq<Call>, calls': seq<Call>, merges: seq<nat>, student: string, key: string)
    requires |calls| <= |calls'| && forall c: nat :: c in merges ==> c < |calls|
    requires forall c: nat :: c < |calls| ==> calls[c].request == calls'[c].request
    ensures Count(calls, merges, student, key) == Count(calls', merges, student, key)
  {
    if merges != [] {
      var n := |merges| - 1;
      assert merges[n] in merges;
      assert forall c: nat :: c in merges[..n] ==> c in merges;
      CountIgnoresPcs(calls, calls', merges[..n], student, key);
    }
  }

  predicate SameRequests(s: System, s': System) {
    |s.calls| <= |s'.calls| && forall c: nat :: c < |s.calls| ==> s.calls[c].request == s'.calls[c].request
  }

  lemma SameLogSameCounts(s: System, s': System)
    requires Inv(s) && SameRequests(s, s') && s'.merges == s.merges
    ensures forall student, key :: MergeCount(s', student, key) == MergeCount(s, student, key)
  {
    forall student, key
      ensures MergeCount(s', student, key) == MergeCount(s, student, key)
    {
      CountIgnoresPcs(s.calls, s'.calls, s.merges, student, key);
    }
  }

  lemma FindIsTheBatch(s: System, b: nat)
    requires Inv(s) && b < |s.batches|
    ensures FindBatch(s.batches, s.batches[b].student, s.batches[b].key) == Some(b)
  {
    assert s.batches[b] in s.batches;
  }

  // The table may grow or a status may change without hiding a batch from the look-up.
  lemma FindStaysSome(batches: seq<Batch>, batches': seq<Batch>, student: string, key: string)
    requires |batches| <= |batches'|
    requires forall b: nat :: b < |batches| ==> batches'[b].student == batches[b].student && batches'[b].key == batches[b].key
    ensures FindBatch(batches', student, key).None? ==> FindBatch(batches, student, key).None?
  {
    var found := FindBatch(batches, student, key);
    if found.Some? {
      assert batches'[found.value] in batches';
    }
  }

  lemma ArriveKeepsInv(s: System, e: Event)
    requires Inv(s) && e.Arrive?
    ensures Inv(Step(s, e))
  {
    var s' := Step(s, e);
    SameLogSameCounts(s, s');
    hide MergeCount, FindBatch;
    forall c: nat | c < |s'.calls|
      ensures CallInv(s', c)
    {
      assert c < |s.calls| ==> CallInv(s, c);
    }
    forall b: nat | b < |s'.batches|
      ensures BatchInv(s', b)
    {
      assert BatchInv(s, b);
    }
  }

  // A call that only learns its reply leaves the invariant alone.
  lemma ReplyKeepsInv(s: System, c: nat, reply: Reply)
    requires Inv(s) && c < |s.calls| && CallInv(At(s, c, Done(reply)), c)
    ensures Inv(At(s, c, Done(reply)))
  {
    var s' := At(s, c, Done(reply));
    SameLogSameCounts(s, s');
    hide MergeCount, FindBatch;
    forall d: nat | d < |s'.calls|
      ensures CallInv(s', d)
    {
      assert CallInv(s, d);
    }
    forall b: nat | b < |s'.batches|
      ensures BatchInv(s', b)
    {
      assert BatchInv(s, b);
    }
  }

  // A batch appended for a student and key without one, held by its creator or by nobody
  lemma NewBatchKeepsInv(s: System, c: nat, pc: Pc)
    requires Inv(s) && c < |s.calls| && s.calls[c].pc == Start
    requires FindBatch(s.batches, s.calls[c].request.student, s.calls[c].request.key).None?
    requires pc == Created(|s.batches|) || pc == Done(Internal)
    ensures
      var r := s.calls[c].request;
      Inv(At(s, c, pc).(batches := s.batches + [Batch(r.student, r.key, r.checksum, BatchAccepted)]))
  {
    var r := s.calls[c].request;
    var s' := At(s, c, pc).(batches := s.batches + [Batch(r.student, r.key, r.checksum, BatchAccepted)]);
    SameLogSameCounts(s, s');
    assert MergeCount(s', r.student, r.key) == 0;
    hide MergeCount, BatchInv, CallInv;
    forall student, key | FindBatch(s'.batches, student, key).None?
      ensures MergeCount(s', student, key) == 0
    {
      FindStaysSome(s.batches, s'.batches, student, key);
    }
    assert forall b: nat :: b < |s.batches| ==> s.batches[b] in s.batches;
    hide FindBatch;
    forall d: nat | d < |s'.calls|
      ensures CallInv(s', d) && (d != c ==> !Holds(s'.calls[d], |s.batches|))
    {
      CallSurvivesGrowth(s, s', c, d);
    }
    forall b: nat | b < |s'.batches|
      ensures BatchInv(s', b)
    {
      if b < |s.batches| {
        OldBatchSurvives(s, s', c, b);
      } else {
        FreshBatchInv(s, s', c);
      }
    }
  }

  // The calls other than c are untouched, c has left its start, and the table only grew.
  predicate Grew(s: System, s': System, c: nat) {
    && c < |s.calls| == |s'.calls| && s.calls[c].pc == Start && s'.merges == s.merges
    && |s'.batches| == |s.batches| + 1 && s'.batches[..|s.batches|] == s.batches
    && (forall d: nat :: d < |s.calls| && d != c ==> s'.calls[d] == s.calls[d])
    && s'.calls[c].request == s.calls[c].request
    && ForBatch(s.calls[c].request, s'.batches[|s.batches|])
    && (s'.calls[c].pc == Created(|s.batches|) || s'.calls[c].pc == Done(Internal))
  }

  lemma CallSurvivesGrowth(s: System, s': System, c: nat, d: nat)
    requires Grew(s, s', c) && d < |s.calls| && CallInv(s, d)
    ensures CallInv(s', d) && (d != c ==> !Holds(s'.calls[d], |s.batches|))
  {
    assert forall b: nat :: b < |s.batches| ==> s'.batches[b] == s'.batches[..|s.batches|][b];
    if d != c && s.calls[d].pc == Done(Conflict) {
      var k :| 0 <= k < |s.batches| && ForBatch(s.calls[d].request, s.batches[k]) && s.batches[k].checksum != s.calls[d].request.checksum;
      assert ForBatch(s'.calls[d].request, s'.batches[k]);
    }
  }

  lemma FreshBatchInv(s: System, s': System, c: nat)
    requires Grew(s, s', c) && MergeCount(s', s.calls[c].request.student, s.calls[c].request.key) == 0
    requires s'.batches[|s.batches|].status == BatchAccepted
    requires s'.batches[|s.batches|].checksum == s.calls[c].request.checksum
    requires forall d: nat :: d < |s'.calls| && d != c ==> !Holds(s'.calls[d], |s.batches|)
    ensures BatchInv(s', |s.batches|)
  {
    hide MergeCount;
  }

  lemma OldBatchSurvives(s: System, s': System, c: nat, b: nat)
    requires Grew(s, s', c) && b < |s.batches| && BatchInv(s, b)
    requires forall student, key :: MergeCount(s', student, key) == MergeCount(s, student, key)
    ensures BatchInv(s', b)
  {
    assert s'.batches[b] == s'.batches[..|s.batches|][b];
    hide MergeCount;
  }

  lemma CreateKeepsInv(s: System, e: Event)
    requires Inv(s) && e.CreateBatch? && Legal(s, e)
    ensures Inv(Step(s, e))
  {
    var r := s.calls[e.c].request;
    var found := FindBatch(s.batches, r.student, r.key);
    hide Inv;
    if found.None? && e.stored {
      NewBatchKeepsInv(s, e.c, if e.acknowledged then Created(|s.batches|) else Done(Internal));
    } else if !e.acknowledged || found.None? {
      ReplyKeepsInv(s, e.c, Internal);
    } else if s.batches[found.value].checksum != r.checksum {
      ReplyKeepsInv(s, e.c, Conflict);
    } else {
      ReplyKeepsInv(s, e.c, AlreadyProcessed(found.value));
    }
  }

  lemma OneMoreMerge(s: System, e: Event, student: string, key: string)
    requires Inv(s) && e.MergeBundle? && Legal(s, e)
    ensures MergeCount(Step(s, e), student, key)
         == MergeCount(s, student, key)
            + if e.committed && s.calls[e.c].request.student == student && s.calls[e.c].request.key == key then 1 else 0
  {
    var s' := Step(s, e);
    CountIgnoresPcs(s.calls, s'.calls, s.merges, student, key);
    assert e.committed ==> s'.merges[..|s'.merges| - 1] == s.merges;
  }

  // The batch the merging call holds, and the others, whose counts stand still
  lemma BatchSurvivesMerge(s: System, e: Event, b: nat)
    requires e.MergeBundle? && Legal(s, e) && CallInv(s, e.c) && b < |s.batches| && BatchInv(s, b)
    requires b != s.calls[e.c].pc.batch ==>
               s.batches[b].student != s.calls[e.c].request.student || s.batches[b].key != s.calls[e.c].request.key
    requires MergeCount(Step(s, e), s.batches[b].student, s.batches[b].key)
          == MergeCount(s, s.batches[b].student, s.batches[b].key)
             + if e.committed && b == s.calls[e.c].pc.batch then 1 else 0
    ensures BatchInv(Step(s, e), b)
  {
    hide MergeCount, FindBatch;
    assert Step(s, e).batches == s.batches;
  }

  lemma MergeKeepsInv(s: System, e: Event)
    requires Inv(s) && e.MergeBundle? && Legal(s, e)
    ensures Inv(Step(s, e))
  {
    var s' := Step(s, e);
    var r, held := s.calls[e.c].request, s.calls[e.c].pc.batch;
    assert CallInv(s, e.c) && BatchInv(s, held);
    FindIsTheBatch(s, held);
    forall student, key
      ensures MergeCount(s', student, key)
           == MergeCount(s, student, key) + if e.committed && r.student == student && r.key == key then 1 else 0
    {
      OneMoreMerge(s, e, student, key);
    }
    hide MergeCount, FindBatch;
    assert forall b: nat :: b < |s.batches| && b != held ==>
      s.batches[b].student != r.student || s.batches[b].key != r.key;
    forall c: nat | c < |s'.calls|
      ensures CallInv(s', c)
    {
      assert CallInv(s, c);
      hide Inv, BatchInv;
    }
    hide BatchInv, CallInv;
    forall b: nat | b < |s'.batches|
      ensures BatchInv(s', b)
    {
      BatchSurvivesMerge(s, e, b);
    }
  }

  lemma BatchSurvivesMark(s: System, e: Event, b: nat)
    requires e.MarkMerged? && Legal(s, e) && b < |s.batches| && BatchInv(s, b)
    requires MergeCount(Step(s, e), s.batches[b].student, s.batches[b].key)
          == MergeCount(s, s.batches[b].student, s.batches[b].key)
    ensures BatchInv(Step(s, e), b)
  {
    hide MergeCount, FindBatch;
  }

  lemma MarkKeepsInv(s: System, e: Event)
    requires Inv(s) && e.MarkMerged? && Legal(s, e)
    ensures Inv(Step(s, e))
  {
    var s' := Step(s, e);
    var held := s.calls[e.c].pc.batch;
    assert CallInv(s, e.c) && BatchInv(s, held);
    SameLogSameCounts(s, s');
    forall student, key | FindBatch(s'.batches, student, key).None?
      ensures MergeCount(s', student, key) == 0
    {
      FindStaysSome(s.batches, s'.batches, student, key);
    }
    hide MergeCount, FindBatch;
    assert forall b: nat :: b < |s'.batches| ==>
      && s'.batches[b] == s.batches[b].(status := s'.batches[b].status)
      && (s.batches[b].status == BatchMerged ==> s'.batches[b].status == BatchMerged);
    forall c: nat | c < |s'.calls|
      ensures CallInv(s', c)
    {
      assert CallInv(s, c);
      CallSurvivesMark(s, s', c, e.c);
    }
    hide BatchInv, CallInv;
    forall b: nat | b < |s'.batches|
      ensures BatchInv(s', b)
    {
      BatchSurvivesMark(s, e, b);
    }
  }

  lemma CallSurvivesMark(s: System, s': System, c: nat, marking: nat)
    requires c < |s.calls| == |s'.calls| && CallInv(s, c) && |s'.batches| == |s.batches| && s'.merges == s.merges
    requires forall b: nat :: b < |s.batches| ==>
               s'.batches[b] == s.batches[b].(status := s'.batches[b].status)
               && (s.batches[b].status == BatchMerged ==> s'.batches[b].status == BatchMerged)
    requires c != marking ==> s'.calls[c] == s.calls[c]
    requires c == marking ==>
               && s.calls[c].pc.Committed? && s'.calls[c].request == s.calls[c].request
               && s.batches[s.calls[c].pc.batch].checksum == s.calls[c].request.checksum
               && (s'.calls[c].pc == Done(Internal)
                   || (s'.calls[c].pc == Done(Success(s.calls[c].pc.batch))
                       && s'.batches[s.calls[c].pc.batch].status == BatchMerged))
    ensures CallInv(s', c)
  {
    if s.calls[c].pc == Done(Conflict) {
      var k :| 0 <= k < |s.batches| && ForBatch(s.calls[c].request, s.batches[k]) && s.batches[k].checksum != s.calls[c].request.checksum;
      assert ForBatch(s'.calls[c].request, s'.batches[k]);
    }
  }

  lemma StepKeepsInv(s: System, e: Event)
    requires Inv(s) && Legal(s, e)
    ensures Inv(Step(s, e))
  {
    hide Inv, Step, Legal;
    match e {
      case Arrive(_) => ArriveKeepsInv(s, e);
      case CreateBatch(_, _, _) => CreateKeepsInv(s, e);
      case MergeBundle(_, _, _) => MergeKeepsInv(s, e);
      case MarkMerged(_, _, _) => MarkKeepsInv(s, e);
    }
  }

  // ---------- Runs ----------

  predicate Run(es: seq<Event>, n: nat)
    requires n <= |es|
    decreases n, 0
  {
    n == 0 || (Run(es, n - 1) && Legal(After(es, n - 1), es[n - 1]))
  }

  function After(es: seq<Event>, n: nat): System
    requires n <= |es| && Run(es, n)
    decreases n, 1
  {
    if n == 0 then INITIAL else Step(After(es, n - 1), es[n - 1])
  }

  lemma {:induction false} RunKeepsInv(es: seq<Event>, n: nat)
    requires n <= |es| && Run(es, n)
    ensures Inv(After(es, n))
  {
    if n > 0 {
      hide Inv, Step, Legal;
      RunKeepsInv(es, n - 1);
      StepKeepsInv(After(es, n - 1), es[n - 1]);
    } else {
      InitialInv();
    }
  }

  lemma InitialInv()
    ensures Inv(INITIAL)
  {
  }

  // At most one merge per student and idempotency key commits in any interleaving with any failures;
  // a batch marked merged had exactly one.
  lemma AtMostOneMergePerKey(es: seq<Event>, n: nat, student: string, key: string)
    requires n <= |es| && Run(es, n)
    ensures MergeCount(After(es, n), student, key) <= 1
    ensures forall b :: b in After(es, n).batches && b.student == student && b.key == key && b.status == BatchMerged ==>
              MergeCount(After(es, n), student, key) == 1
  {
    RunKeepsInv(es, n);
    var s := After(es, n);
    var found := FindBatch(s.batches, student, key);
    if found.Some? {
      assert BatchInv(s, found.value);
    }
  }

  // What a finished call was told is true: success means that its own merge committed, as the only one
  // for the key, and the batch is marked; otherwise an equal or a different bundle holds the key.
  lemma RepliesAreTrue(es: seq<Event>, n: nat, c: nat)
    requires n <= |es| && Run(es, n) && c < |After(es, n).calls|
    ensures
      var s := After(es, n);
      var call := s.calls[c];
      && (call.pc.Done? && call.pc.reply.Success? ==>
            && c in s.merges && MergeCount(s, call.request.student, call.request.key) == 1
            && Batch(call.request.student, call.request.key, call.request.checksum, BatchMerged) in s.batches)
      && (call.pc.Done? && call.pc.reply.AlreadyProcessed? ==>
            exists b :: b in s.batches && ForBatch(call.request, b) && b.checksum == call.request.checksum)
      && (call.pc == Done(Conflict) ==>
            exists b :: b in s.batches && ForBatch(call.request, b) && b.checksum != call.request.checksum)
  {
    RunKeepsInv(es, n);
    var s := After(es, n);
    assert CallInv(s, c);
    match s.calls[c].pc {
      case Done(Success(b)) => assert BatchInv(s, b);
      case _ =>
    }
  }

  // A call for a key whose batch has another checksum is told of the conflict and changes nothing.
  lemma ConflictChangesNothing(s: System, c: nat)
    requires Inv(s) && Legal(s, CreateBatch(c, true, true))
    requires exists b :: b in s.batches && ForBatch(s.calls[c].request, b) && b.checksum != s.calls[c].request.checksum
    ensures Step(s, CreateBatch(c, true, true)) == At(s, c, Done(Conflict))
  {
    var b :| b in s.batches && ForBatch(s.calls[c].request, b) && b.checksum != s.calls[c].request.checksum;
    var i: nat :| i < |s.batches| && s.batches[i] == b;
    FindIsTheBatch(s, i);
  }

  // ---------- Not exactly once ----------

  // The first n events can happen one after the other from state s on.
  predicate Continues(s: System, es: seq<Event>, n: nat)
    requires n <= |es|
    decreases n, 0
  {
    n == 0 || (Continues(s, es, n - 1) && Legal(Continued(s, es, n - 1), es[n - 1]))
  }

  function Continued(s: System, es: seq<Event>, n: nat): System
    requires n <= |es| && Continues(s, es, n)
    decreases n, 1
  {
    if n == 0 then s else Step(Continued(s, es, n - 1), es[n - 1])
  }

  // The bundle of the batch has not been merged and no call is about to merge it.
  ghost predicate Abandoned(s: System, b: nat) {
    && b < |s.batches| && MergeCount(s, s.batches[b].student, s.batches[b].key) == 0
    && forall c: nat :: c < |s.calls| ==> s.calls[c].pc != Created(b)
  }

  lemma AbandonedStep(s: System, e: Event, b: nat)
    requires Inv(s) && Legal(s, e) && Abandoned(s, b)
    ensures Abandoned(Step(s, e), b)
    ensures Step(s, e).batches[b].student == s.batches[b].student && Step(s, e).batches[b].key == s.batches[b].key
  {
    assert BatchInv(s, b);
    FindIsTheBatch(s, b);
    var student, key := s.batches[b].student, s.batches[b].key;
    if e.MergeBundle? {
      OneMoreMerge(s, e, student, key);
      assert CallInv(s, e.c);
      assert s.calls[e.c].pc.batch != b;
    } else {
      SameLogSameCounts(s, Step(s, e));
    }
    hide MergeCount, FindBatch;
  }

  lemma {:induction false} AbandonedForever(s: System, es: seq<Event>, n: nat, b: nat)
    requires Inv(s) && Abandoned(s, b) && n <= |es| && Continues(s, es, n)
    ensures Inv(Continued(s, es, n)) && Abandoned(Continued(s, es, n), b)
    ensures MergeCount(Continued(s, es, n), s.batches[b].student, s.batches[b].key) == 0
  {
    if n > 0 {
      AbandonedForever(s, es, n - 1, b);
      KeyStays(s, es, n - 1, b);
      AbandonedStep(Continued(s, es, n - 1), es[n - 1], b);
      StepKeepsInv(Continued(s, es, n - 1), es[n - 1]);
      hide Inv, Step, Legal, MergeCount;
    }
  }

  lemma {:induction false} KeyStays(s: System, es: seq<Event>, n: nat, b: nat)
    requires b < |s.batches| && n <= |es| && Continues(s, es, n)
    ensures
      var s' := Continued(s, es, n);
      && b < |s'.batches| && s'.batches[b].student == s.batches[b].student && s'.batches[b].key == s.batches[b].key
  {
    hide FindBatch;
    if n > 0 {
      KeyStays(s, es, n - 1, b);
    }
  }

  // Some way to go on from s leads to a merge for the key of batch b.
  ghost predicate CanBeMerged(s: System, b: nat)
    requires b < |s.batches|
  {
    exists es :: Continues(s, es, |es|) && MergeCount(Continued(s, es, |es|), s.batches[b].student, s.batches[b].key) == 1
  }

  // The bundle of a batch is ever merged only if it has been already or the call that created the batch
  // is still about to merge it; if neither is the case no later request can make up for it.
  lemma MergedEventuallyExactly(s: System, b: nat)
    requires Inv(s) && b < |s.batches|
    ensures CanBeMerged(s, b) <==>
            || MergeCount(s, s.batches[b].student, s.batches[b].key) == 1
            || exists c: nat :: c < |s.calls| && s.calls[c].pc == Created(b)
  {
    var student, key := s.batches[b].student, s.batches[b].key;
    assert BatchInv(s, b);
    if MergeCount(s, student, key) == 1 {
      var es: seq<Event> := [];
      assert Continues(s, es, |es|);
    } else if c: nat :| c < |s.calls| && s.calls[c].pc == Created(b) {
      OneMergeAway(s, b, c);
    } else {
      assert Abandoned(s, b);
      forall es | Continues(s, es, |es|)
        ensures MergeCount(Continued(s, es, |es|), student, key) == 0
      {
        AbandonedForever(s, es, |es|, b);
      }
    }
    hide Inv, MergeCount, Continued;
  }

  lemma OneMergeAway(s: System, b: nat, c: nat)
    requires Inv(s) && b < |s.batches| && c < |s.calls| && s.calls[c].pc == Created(b)
    ensures CanBeMerged(s, b)
  {
    var es := [MergeBundle(c, true, true)];
    assert Continues(s, es, 0) && Continues(s, es, 1);
    assert BatchInv(s, b) && CallInv(s, c);
    OneMoreMerge(s, es[0], s.batches[b].student, s.batches[b].key);
    assert Continued(s, es, 1) == Step(s, es[0]);
    hide MergeCount, Step, Inv;
  }

  // A request with an abandoned batch's bundle is told that it was processed.
  lemma AbandonedLooksProcessed(s: System, c: nat, b: nat)
    requires Inv(s) && b < |s.batches| && Legal(s, CreateBatch(c, true, true))
    requires s.calls[c].request == Request(s.batches[b].student, s.batches[b].key, s.batches[b].checksum)
    ensures Step(s, CreateBatch(c, true, true)).calls[c].pc == Done(AlreadyProcessed(b))
  {
    FindIsTheBatch(s, b);
  }

  // One failed merge is enough to abandon a batch for good.
  lemma FailedMergeAbandonsBatch()
    ensures
      var r := Request("s1", "sync-0001", "c1");
      var es := [Arrive(r), CreateBatch(0, true, true), MergeBundle(0, false, false), Arrive(r), CreateBatch(1, true, true)];
      && Run(es, 5) && Abandoned(After(es, 3), 0)
      && |After(es, 5).calls| == 2
      && After(es, 5).calls[0].pc == Done(Internal) && After(es, 5).calls[1].pc == Done(AlreadyProcessed(0))
      && After(es, 5).merges == []
  {
    var r := Request("s1", "sync-0001", "c1");
    var es := [Arrive(r), CreateBatch(0, true, true), MergeBundle(0, false, false), Arrive(r), CreateBatch(1, true, true)];
    assert Run(es, 0) && Run(es, 1);
    assert Run(es, 2) && Run(es, 3);
    assert Run(es, 4);
    assert Run(es, 5);
  }
}
