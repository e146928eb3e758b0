/**
 Runs of workers in which a finished job or a sent record does not stay as it is, for jobs that the
 service accepts and with handlers that do what their payload makes them do.
 */
module WorkerWitnesses {
  import opened Wrappers
  import opened Text
  import opened JobQueue
  import opened Validate
  import opened Workers
  import opened TimelyRuns
  import Dispatch
  import FollowUps
  import JobsService
  import QueueRuns

  const LEASE := JobsService.DEFAULT_LEASE
  const STUDENT := "5f0c1c9e-3c64-4a57-9d0e-6b8f2f1a7e11"

  // A follow-up of an ingest
  const DAILY_REQUEST := Request(
    "recompute_daily_stats", FollowUps.Key("daily:", STUDENT, "2026-03-31"),
    map["student_id" := STUDENT, "date" := "2026-03-31"], 40)

  // A homework photo to be sent
  const PHOTO_REQUEST := Request(
    "dispatch_whatsapp", "photo:hw-0001",
    map["kind" := "homework_photo", "student_id" := STUDENT, "object_key" := "file:///media/hw-0001.jpg"], 30)

  lemma StudentIsAnId()
    ensures FollowUps.IsStudentId(STUDENT)
  {
  }

  lemma DailyIsAcceptable()
    ensures JobsService.Acceptable(DAILY_REQUEST) && JobsService.WithDefaultPriority(DAILY_REQUEST) == DAILY_REQUEST
  {
    StudentIsAnId();
    DailyKeyChars();
    hide KeyChar, ValidIdempotencyKey, FollowUps.Key, FollowUps.IsStudentId;
    FollowUps.KeyIsValid("daily:", STUDENT, "2026-03-31");
  }

  lemma DailyKeyChars()
    ensures FollowUps.KeyChars("daily:") && FollowUps.KeyChars("2026-03-31")
  {
  }

  lemma PhotoIsAcceptable()
    ensures JobsService.Acceptable(PHOTO_REQUEST) && JobsService.WithDefaultPriority(PHOTO_REQUEST) == PHOTO_REQUEST
  {
    PhotoKeyChars();
    hide KeyChar, ValidIdempotencyKey;
    FollowUps.KeyCharsValid(PHOTO_REQUEST.key);
  }

  lemma PhotoKeyChars()
    ensures FollowUps.KeyChars("photo:hw-0001")
  {
  }

  lemma PhotoTexts()
    ensures Trim("homework_photo") == "homework_photo" && Lower("homework_photo") == "homework_photo"
    ensures Trim("file:///media/hw-0001.jpg") == "file:///media/hw-0001.jpg"
    ensures Trim("/media/hw-0001.jpg") == "/media/hw-0001.jpg"
  {
    assert Lower("homework_photo") == "homework_photo";
    hide Trim, Lower;
    TrimFixesExactlyUnpadded("homework_photo");
    TrimFixesExactlyUnpadded("file:///media/hw-0001.jpg");
    TrimFixesExactlyUnpadded("/media/hw-0001.jpg");
  }

  // The handler validates the photo's payload, and its object key names a media file.
  lemma PhotoIsSendable()
    ensures Dispatch.Acceptable(PHOTO_REQUEST.payload)
    ensures Dispatch.NamesMediaFile(Dispatch.ReadString(PHOTO_REQUEST.payload, "object_key"))
  {
    hide Trim, Lower, Dispatch.Message;
    PhotoTexts();
    var objectKey := "file:///media/hw-0001.jpg";
    assert objectKey[7..] == "/media/hw-0001.jpg" && objectKey[..7] == "file://";
    assert Dispatch.Kind(PHOTO_REQUEST.payload) == "homework_photo";
  }

  // ---------- A succeeded job is queued again ----------

  // One job is leased, handled and completed, but the worker is not told so and fails it
  function LostReplyRun(r: Request): seq<Event> {
    [Enqueue(0, r, 5), LeaseNext(0, "worker-jobs", LEASE, {}, Some(0)), Return(SECOND, 0, Ok),
     Complete(SECOND, 0, true, false), Fail(SECOND, 0, true, "connection reset")]
  }

  lemma HandledInTime(r: Request)
    requires r.jobType != DISPATCH && Storable(r)
    ensures Run(LostReplyRun(r), 3) && TimelyRun(LostReplyRun(r), 3)
    ensures
      var s := After(LostReplyRun(r), 3);
      && s.grants == [Workers.Grant(0, r.jobType, r.key, "worker-jobs", LEASE, Returned(Ok))]
      && s.q == Queue([NewJob(0, r, 5).(status := Leased, leaseOwner := Some("worker-jobs"), leaseUntil := Some(LEASE))], [])
  {
    var es := LostReplyRun(r);
    assert Run(es, 0) && TimelyRun(es, 0);
    assert Run(es, 1) && TimelyRun(es, 1);
    assert After(es, 1).q.jobs == [NewJob(0, r, 5)];
    assert Run(es, 2) && TimelyRun(es, 2);
    assert Run(es, 3) && TimelyRun(es, 3);
  }

  lemma CompletedUnawares(r: Request)
    requires r.jobType != DISPATCH && Storable(r)
    ensures Run(LostReplyRun(r), 4) && TimelyRun(LostReplyRun(r), 4)
    ensures
      var s := After(LostReplyRun(r), 4);
      && s.grants == [Workers.Grant(0, r.jobType, r.key, "worker-jobs", LEASE, CompleteFailed(true))]
      && |s.q.jobs| == 1 && s.q.jobs[0].status == Succeeded && s.q.jobs[0].attempts == 0
      && s.q.jobs[0].maxAttempts == 5 && s.q.log == []
  {
    HandledInTime(r);
    assert Run(LostReplyRun(r), 4);
  }

  // A timely run in which the reply to a stored Complete is lost: the job succeeds and is queued again.
  lemma LostReplyRequeuesSucceeded()
    ensures JobsService.Acceptable(DAILY_REQUEST)
    ensures
      var es := LostReplyRun(DAILY_REQUEST);
      && Run(es, 4) && Run(es, 5) && TimelyRun(es, 5)
      && Shows(After(es, 4).q, 0, Succeeded) && Shows(After(es, 5).q, 0, Queued)
  {
    DailyIsAcceptable();
    hide Step, SystemInv, JobsService.Acceptable, FollowUps.Key;
    var es := LostReplyRun(DAILY_REQUEST);
    CompletedUnawares(DAILY_REQUEST);
    assert Run(es, 5) && TimelyRun(es, 5);
    TimelyRunKeepsInv(es, 5);
    JobMoves(After(es, 4), es[4], 0);
  }

  // ---------- A sent record is marked failed ----------

  // Two workers on one dispatch job; the second, which leases it when the first one's lease has ended,
  // delivers before the first gets to Send
  function RivalsRun(r: Request): seq<Event> {
    [Enqueue(0, r, 5),
     LeaseNext(0, "worker-whatsapp", LEASE, {}, Some(0)),
     UpsertPending(0, 0, true, true),
     LeaseNext(LEASE, "worker-whatsapp", LEASE, {}, Some(0)),
     UpsertPending(LEASE, 1, true, true),
     Send(LEASE, 1, true, false),
     MarkSent(LEASE, 1, true, true),
     Send(LEASE, 0, false, false),
     MarkFailed(LEASE, 0, true)]
  }

  function LeasedUntil(r: Request, until: int): Queue {
    Queue([NewJob(0, r, 5).(status := Leased, leaseOwner := Some("worker-whatsapp"), leaseUntil := Some(until))], [])
  }

  function GrantOf(r: Request, until: int, pc: Pc): Grant {
    Grant(0, DISPATCH, r.key, "worker-whatsapp", until, pc)
  }

  // Where the first rival's handler starts, and where the second's does
  function FirstStarts(r: Request): System {
    System(LeasedUntil(r, LEASE), [GrantOf(r, LEASE, Start)], map[])
  }

  function SecondStarts(r: Request): System {
    System(LeasedUntil(r, 2 * LEASE), [GrantOf(r, LEASE, Ready), GrantOf(r, 2 * LEASE, Start)], map[r.key := RecordPending])
  }

  lemma FirstRivalStarts(r: Request)
    requires r.jobType == DISPATCH && Storable(r)
    ensures Run(RivalsRun(r), 2) && After(RivalsRun(r), 2) == FirstStarts(r)
  {
    var es := RivalsRun(r);
    assert Run(es, 0) && Run(es, 1);
    assert After(es, 1).q.jobs == [NewJob(0, r, 5)];
    assert Run(es, 2);
  }

  lemma SecondRivalStarts(r: Request)
    requires r.jobType == DISPATCH && Storable(r)
    ensures Run(RivalsRun(r), 4) && After(RivalsRun(r), 4) == SecondStarts(r)
  {
    FirstRivalStarts(r);
    var es := RivalsRun(r);
    assert Run(es, 3) && After(es, 3) == System(LeasedUntil(r, LEASE), [GrantOf(r, LEASE, Ready)], map[r.key := RecordPending]);
    assert Run(es, 4);
  }

  lemma OneRivalDelivers(r: Request)
    requires r.jobType == DISPATCH && Storable(r)
    ensures Run(RivalsRun(r), 7) && Sent(After(RivalsRun(r), 7), r.key)
    ensures
      |After(RivalsRun(r), 7).grants| == 2
      && After(RivalsRun(r), 7).grants[0] == GrantOf(r, LEASE, Ready)
  {
    hide Step;
    SecondRivalStarts(r);
    var es := RivalsRun(r);
    WorkerStepEffect(After(es, 4), es[4]);
    assert Run(es, 5);
    WorkerStepEffect(After(es, 5), es[5]);
    assert Run(es, 6);
    WorkerStepEffect(After(es, 6), es[6]);
    assert Run(es, 7);
  }

  lemma LateRivalUndoesSent(r: Request)
    requires r.jobType == DISPATCH && Storable(r)
    ensures Run(RivalsRun(r), 7) && Run(RivalsRun(r), 9) && !TimelyRun(RivalsRun(r), 9)
    ensures Sent(After(RivalsRun(r), 7), r.key) && !Sent(After(RivalsRun(r), 9), r.key)
  {
    hide Step;
    OneRivalDelivers(r);
    var es := RivalsRun(r);
    WorkerStepEffect(After(es, 7), es[7]);
    assert Run(es, 8);
    WorkerStepEffect(After(es, 8), es[8]);
    assert Run(es, 9);
    assert !Timely(After(es, 7), es[7]);
    assert !TimelyRun(es, 8);
  }

  // A provider that delivers, and one that answers with an error
  const DELIVERING := Dispatch.World(true, true, true, true, false, true, true, true, true)
  const REFUSING := Dispatch.World(true, true, true, false, false, true, true, true, true)

  lemma DeliveringSteps(s: System, t: nat, payload: map<string, string>, at: int)
    requires t < |s.grants| && !Sent(s, s.grants[t].key) && Dispatch.Acceptable(payload)
    ensures |Dispatch.HandlerSteps(s, t, payload, DELIVERING, at)| == 4
    ensures Dispatch.HandlerSteps(s, t, payload, DELIVERING, at)[..3]
         == [UpsertPending(at, t, true, true), Send(at, t, true, false), MarkSent(at, t, true, true)]
  {
    hide Dispatch.Acceptable, Dispatch.NamesMediaFile, Dispatch.ReadString;
  }

  lemma UndeliveredSteps(s: System, t: nat, payload: map<string, string>, w: Dispatch.World, at: int)
    requires t < |s.grants| && !Sent(s, s.grants[t].key) && Dispatch.Acceptable(payload)
    requires w.studentIdValid && w.upsertAcknowledged && !w.delivered
    ensures Dispatch.HandlerSteps(s, t, payload, w, at)
         == [UpsertPending(at, t, true, true), Send(at, t, false, w.mediaMissing), MarkFailed(at, t, w.markFailedStored)]
  {
    hide Dispatch.Acceptable;
  }

  lemma UnreachableSteps(s: System, t: nat, payload: map<string, string>, at: int)
    requires t < |s.grants|
    ensures Dispatch.HandlerSteps(s, t, payload, UNREACHABLE, at) == [UpsertPending(at, t, false, false)]
  {
    hide Dispatch.Acceptable;
  }

  // The steps of each rival are those of the handler for the payload, the first rival's interrupted
  // between its look-up and Send.
  lemma RivalsHandleThePayload(r: Request)
    requires r.jobType == DISPATCH && Dispatch.Acceptable(r.payload)
    ensures RivalsRun(r)[4..7] == Dispatch.HandlerSteps(SecondStarts(r), 1, r.payload, DELIVERING, LEASE)[..3]
    ensures [RivalsRun(r)[2]] == Dispatch.HandlerSteps(FirstStarts(r), 0, r.payload, REFUSING, 0)[..1]
    ensures RivalsRun(r)[7..] == Dispatch.HandlerSteps(FirstStarts(r), 0, r.payload, REFUSING, LEASE)[1..]
  {
    hide Dispatch.Acceptable, Dispatch.HandlerSteps;
    DeliveringSteps(SecondStarts(r), 1, r.payload, LEASE);
    UndeliveredSteps(FirstStarts(r), 0, r.payload, REFUSING, 0);
    UndeliveredSteps(FirstStarts(r), 0, r.payload, REFUSING, LEASE);
  }

  // Without timeliness `sent` is not stable: a worker that outlives its lease fails to deliver and
  // turns the record its rival has marked sent back to failed.
  lemma StaleWorkerUndoesSent()
    ensures JobsService.Acceptable(PHOTO_REQUEST) && Dispatch.Acceptable(PHOTO_REQUEST.payload)
    ensures
      var es := RivalsRun(PHOTO_REQUEST);
      && Run(es, 7) && Run(es, 9) && !TimelyRun(es, 9)
      && Sent(After(es, 7), PHOTO_REQUEST.key) && !Sent(After(es, 9), PHOTO_REQUEST.key)
  {
    PhotoIsAcceptable();
    PhotoIsSendable();
    hide JobsService.Acceptable, Dispatch.Acceptable, Run, After, Step, TimelyRun;
    LateRivalUndoesSent(PHOTO_REQUEST);
  }

  // ---------- A dead-lettered job is queued again ----------

  // The first worker finds the media file missing after its lease has ended, and dead-letters the job;
  // the second, which has taken it over, cannot reach the database for its look-up and fails it
  function RevivingRun(r: Request): seq<Event> {
    [Enqueue(0, r, 5),
     LeaseNext(0, "worker-whatsapp", LEASE, {}, Some(0)),
     LeaseNext(LEASE, "worker-whatsapp", LEASE, {}, Some(0)),
     UpsertPending(LEASE, 0, true, true),
     Send(LEASE, 0, false, true),
     MarkFailed(LEASE, 0, true),
     Fail(LEASE, 0, true, "media object not found"),
     UpsertPending(LEASE, 1, false, false),
     Fail(LEASE, 1, true, "upsert dispatch pending")]
  }

  // Where both handlers start
  function BothLeased(r: Request): System {
    System(LeasedUntil(r, 2 * LEASE), [GrantOf(r, LEASE, Start), GrantOf(r, 2 * LEASE, Start)], map[])
  }

  lemma BothLease(r: Request)
    requires r.jobType == DISPATCH && Storable(r)
    ensures Run(RevivingRun(r), 3) && After(RevivingRun(r), 3) == BothLeased(r)
  {
    var es := RevivingRun(r);
    assert Run(es, 0) && Run(es, 1);
    assert After(es, 1).q.jobs == [NewJob(0, r, 5)];
    assert Run(es, 2);
    assert Run(es, 3);
  }

  lemma FirstFindsMediaMissing(r: Request)
    requires r.jobType == DISPATCH && Storable(r)
    ensures Run(RevivingRun(r), 6)
    ensures
      var s := After(RevivingRun(r), 6);
      && s.q == BothLeased(r).q
      && s.grants == [BothLeased(r).grants[0].(pc := Returned(Permanent)), BothLeased(r).grants[1]]
      && s.records == map[r.key := RecordFailed]
  {
    hide Step;
    BothLease(r);
    var es := RevivingRun(r);
    WorkerStepEffect(After(es, 3), es[3]);
    assert Run(es, 4);
    WorkerStepEffect(After(es, 4), es[4]);
    assert Run(es, 5);
    WorkerStepEffect(After(es, 5), es[5]);
    assert Run(es, 6);
  }

  lemma FailStep(s: System, e: Event)
    requires Legal(s, e) && e.Fail? && e.stored
    ensures
      var g := s.grants[e.t];
      Step(s, e).q == FailedOnce(s.q, e.at, g.job, g.worker, e.error, g.pc == Returned(Permanent))
  {
    hide FailedOnce;
  }

  // What the first Fail leaves of the job, and what the second does
  lemma DiesThenRetries(r: Request)
    ensures
      var dead := FailedOnce(LeasedUntil(r, 2 * LEASE), LEASE, 0, "worker-whatsapp", "media object not found", true);
      && Shows(dead, 0, DeadLetter)
      && Shows(FailedOnce(dead, LEASE, 0, "worker-whatsapp", "upsert dispatch pending", false), 0, Queued)
  {
    var q := LeasedUntil(r, 2 * LEASE);
    assert FailCommits(q, 0);
    var dead := FailedOnce(q, LEASE, 0, "worker-whatsapp", "media object not found", true);
    assert |dead.log| == 1 && dead.log[0].no == 1 && |dead.jobs| == 1 && dead.jobs[0].attempts == 1;
    assert FailCommits(dead, 0);
  }

  lemma LateFailRevives(r: Request)
    requires r.jobType == DISPATCH && Storable(r)
    ensures Run(RevivingRun(r), 7) && Run(RevivingRun(r), 9)
    ensures Shows(After(RevivingRun(r), 7).q, 0, DeadLetter) && Shows(After(RevivingRun(r), 9).q, 0, Queued)
  {
    hide Step, FailedOnce, LeasedUntil;
    FirstFindsMediaMissing(r);
    var es := RevivingRun(r);
    WorkerStepEffect(After(es, 6), es[6]);
    FailStep(After(es, 6), es[6]);
    assert Run(es, 7);
    WorkerStepEffect(After(es, 7), es[7]);
    assert Run(es, 8);
    FailStep(After(es, 8), es[8]);
    assert Run(es, 9);
    DiesThenRetries(r);
  }

  // A media file missing, and a database out of reach
  const MEDIA_MISSING := Dispatch.World(true, true, true, false, true, true, true, true, true)
  const UNREACHABLE := Dispatch.World(true, false, false, false, false, false, false, false, false)

  // Both act as the handler does for the payload.
  lemma RevivalHandlesThePayload(r: Request)
    requires r.jobType == DISPATCH && Dispatch.Acceptable(r.payload)
    ensures RevivingRun(r)[3..6] == Dispatch.HandlerSteps(BothLeased(r), 0, r.payload, MEDIA_MISSING, LEASE)
    ensures [RevivingRun(r)[7]] == Dispatch.HandlerSteps(BothLeased(r), 1, r.payload, UNREACHABLE, LEASE)
  {
    hide Dispatch.Acceptable, Dispatch.HandlerSteps;
    UndeliveredSteps(BothLeased(r), 0, r.payload, MEDIA_MISSING, LEASE);
    UnreachableSteps(BothLeased(r), 1, r.payload, LEASE);
  }

  // A worker whose lease ran out dead-letters the job permanently; the worker that took the job over
  // then reports a transient error and the dead job is queued again.
  lemma StaleFailRevivesDeadLetter()
    ensures JobsService.Acceptable(PHOTO_REQUEST) && Dispatch.Acceptable(PHOTO_REQUEST.payload)
    ensures Dispatch.NamesMediaFile(Dispatch.ReadString(PHOTO_REQUEST.payload, "object_key"))
    ensures
      var es := RevivingRun(PHOTO_REQUEST);
      && Run(es, 7) && Run(es, 9)
      && Shows(After(es, 7).q, 0, DeadLetter) && Shows(After(es, 9).q, 0, Queued)
  {
    PhotoIsAcceptable();
    PhotoIsSendable();
    assert PHOTO_REQUEST.jobType == DISPATCH && Storable(PHOTO_REQUEST);
    hide *;
    LateFailRevives(PHOTO_REQUEST);
  }
}
