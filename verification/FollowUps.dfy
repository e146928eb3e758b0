/**
 The fan-out after an ingest: four follow-up jobs per student and day, enqueued one after the other
 by a handler that may be cut off and retried. Days are counted from 1970-01-01, a Thursday.
 */
module FollowUps {
  import opened Wrappers
  import opened Text
  import opened JobQueue
  import opened Validate
  import opened JobsService
  import opened JobsRepository

  // ---------- Weeks ----------

  // time.Weekday: Sunday is 0
  function Weekday(day: int): int {
    (day + 4) % 7
  }

  function WeekBounds(base: int): (int, int) {
    var weekday := if Weekday(base) == 0 then 7 else Weekday(base);
    var start := base - (weekday - 1);
    (start, start + 6)
  }

  // A week runs from a Monday to the Sunday after it, contains the day it was computed from, and two
  // days have the same bounds exactly when some such span contains both.
  lemma WeekBoundsAreTheCalendarWeek(a: int, b: int)
    ensures Weekday(WeekBounds(a).0) == 1 && Weekday(WeekBounds(a).1) == 0
    ensures WeekBounds(a).0 <= a <= WeekBounds(a).1 == WeekBounds(a).0 + 6
    ensures WeekBounds(a) == WeekBounds(b) <==>
            exists monday :: Weekday(monday) == 1 && monday <= a <= monday + 6 && monday <= b <= monday + 6
    ensures WeekBounds(a) != WeekBounds(b) ==> WeekBounds(a).0 != WeekBounds(b).0
  {
    var monday := WeekBounds(a).0;
    if WeekBounds(a) == WeekBounds(b) {
      assert Weekday(monday) == 1 && monday <= a <= monday + 6 && monday <= b <= monday + 6;
    }
  }

  // ---------- The four requests ----------

  // Days whose week starts within the years 0000 to 9999, all that a YYYY-MM-DD payload can name
  // except the first two days of the year 0000
  predicate InRange(day: int) {
    -719526 <= day <= 2932896
  }

  // A rendering of days as YYYY-MM-DD
  ghost predicate IsDateFormat(format: int -> string) {
    && (forall a, b :: InRange(a) && InRange(b) && format(a) == format(b) ==> a == b)
    && (forall day :: InRange(day) ==> |format(day)| == 10 && forall c :: c in format(day) ==> KeyChar(c))
  }

  predicate IsStudentId(s: string) {
    |s| == 36 && forall c :: c in s ==> KeyChar(c)
  }

  const DAILY := "recompute_daily_stats"
  const WEEKLY := "recompute_weekly_stats"
  const PARENT_DIGEST := "generate_parent_digest"
  const STALE := "stale_data_detection"

  function Key(prefix: string, student: string, date: string): string {
    prefix + student + ":" + date
  }

  function FollowUpRequests(student: string, day: int, format: int -> string): (rs: seq<Request>)
    ensures |rs| == 4
  {
    var (start, end) := WeekBounds(day);
    [Request(DAILY, Key("daily:", student, format(day)), map["student_id" := student, "date" := format(day)], 40),
     Request(WEEKLY, Key("weekly:", student, format(start)),
             map["student_id" := student, "week_start" := format(start), "week_end" := format(end),
                 "source_date" := format(day)], 45),
     Request(PARENT_DIGEST, Key("parentdigest:", student, format(day)),
             map["student_id" := student, "date" := format(day)], 30),
     Request(STALE, Key("stale:", student, format(day)), map["student_id" := student, "max_age_hours" := "72"], 60)]
  }

  // The week a weekly follow-up names runs from the Monday on or before the day to the Sunday after it.
  lemma WeeklyFollowUpNamesTheWeek(student: string, day: int, format: int -> string, monday: int)
    requires Weekday(monday) == 1 && monday <= day <= monday + 6
    ensures
      var r := FollowUpRequests(student, day, format)[1];
      && r.jobType == "recompute_weekly_stats" && r.priority == 45 && r.key == "weekly:" + student + ":" + format(monday)
      && r.payload == map["student_id" := student, "week_start" := format(monday), "week_end" := format(monday + 6),
                          "source_date" := format(day)]
  {
    assert WeekBounds(day) == (monday, monday + 6);
  }

  predicate KeyChars(s: string) {
    forall c :: c in s ==> KeyChar(c)
  }

  lemma KeyCharsConcat(a: string, b: string)
    requires KeyChars(a) && KeyChars(b)
    ensures KeyChars(a + b)
  {
  }

  lemma KeyCharsValid(key: string)
    requires KeyChars(key) && 8 <= |key| <= 128
    ensures ValidIdempotencyKey(key)
  {
    KeyCharIsNoSpace(key[0]);
    KeyCharIsNoSpace(key[|key| - 1]);
    hide KeyChar, IsSpace, Trim;
    TrimFixesExactlyUnpadded(key);
  }

  lemma KeyCharIsNoSpace(c: char)
    ensures KeyChar(c) ==> !IsSpace(c)
  {
  }

  lemma KeyIsValid(prefix: string, student: string, date: string)
    requires IsStudentId(student) && |date| == 10 && |prefix| <= 16 && KeyChars(prefix) && KeyChars(date)
    ensures ValidIdempotencyKey(Key(prefix, student, date))
  {
    hide KeyChar, ValidIdempotencyKey;
    KeyCharsConcat(prefix, student);
    assert KeyChars(":") by {
      OneKeyChar();
    }
    KeyCharsConcat(prefix + student, ":");
    KeyCharsConcat(prefix + student + ":", date);
    KeyCharsValid(Key(prefix, student, date));
  }

  lemma OneKeyChar()
    ensures KeyChar(':')
  {
  }

  // The jobs service accepts each follow-up as it is.
  lemma FollowUpsAreAcceptable(student: string, day: int, format: int -> string)
    requires IsStudentId(student) && IsDateFormat(format) && InRange(day)
    ensures forall r :: r in FollowUpRequests(student, day, format) ==> Acceptable(r) && WithDefaultPriority(r) == r
  {
    hide ValidIdempotencyKey, Key, IsStudentId;
    assert InRange(WeekBounds(day).0);
    KeyIsValid("daily:", student, format(day));
    KeyIsValid("weekly:", student, format(WeekBounds(day).0));
    KeyIsValid("parentdigest:", student, format(day));
    KeyIsValid("stale:", student, format(day));
  }

  // ---------- Executions ----------

  function SubmittedAll(q: Queue, now: int, rs: seq<Request>): Queue
    decreases |rs|
  {
    if rs == [] then q else SubmittedAll(Submitted(q, now, rs[0]), now, rs[1..])
  }

  // One run of the handler, cut off after `reached` of its four enqueues
  datatype Execution = Execution(at: int, day: int, reached: nat)

  function RequestsOf(student: string, x: Execution, format: int -> string): seq<Request> {
    FollowUpRequests(student, x.day, format)[..if x.reached < 4 then x.reached else 4]
  }

  function Executed(q: Queue, student: string, xs: seq<Execution>, format: int -> string): Queue
    decreases |xs|
  {
    if xs == [] then q
    else Executed(SubmittedAll(q, xs[0].at, RequestsOf(student, xs[0], format)), student, xs[1..], format)
  }

  predicate Asked(rs: seq<Request>, jobType: string, key: string) {
    exists r :: r in rs && r.jobType == jobType && r.key == key
  }

  // The row is what some request of the list, sent at the given moment, creates.
  predicate CreatedBy(j: Job, now: int, rs: seq<Request>) {
    exists r :: r in rs && j == NewJob(now, r, DEFAULT_MAX_ATTEMPTS)
  }

  predicate Plain(r: Request) {
    Acceptable(r) && WithDefaultPriority(r) == r
  }

  lemma SubmittingAppends(q: Queue, now: int, r: Request)
    requires Inv(q) && Plain(r)
    ensures Inv(Submitted(q, now, r)) && Submitted(q, now, r).log == q.log && q.jobs <= Submitted(q, now, r).jobs
    ensures forall i :: |q.jobs| <= i < |Submitted(q, now, r).jobs| ==>
              Submitted(q, now, r).jobs[i] == NewJob(now, r, DEFAULT_MAX_ATTEMPTS)
  {
    EnqueueKeepsInv(q, now, r, DEFAULT_MAX_ATTEMPTS);
  }

  // Rows are appended, each of them for one of the requests.
  lemma {:induction false} SubmittingAllAppends(q: Queue, now: int, rs: seq<Request>)
    requires Inv(q) && forall r :: r in rs ==> Plain(r)
    ensures Inv(SubmittedAll(q, now, rs)) && SubmittedAll(q, now, rs).log == q.log
    ensures q.jobs <= SubmittedAll(q, now, rs).jobs
    ensures forall i :: |q.jobs| <= i < |SubmittedAll(q, now, rs).jobs| ==> CreatedBy(SubmittedAll(q, now, rs).jobs[i], now, rs)
    decreases |rs|
  {
    if rs != [] {
      var q1, q' := Submitted(q, now, rs[0]), SubmittedAll(q, now, rs);
      SubmittingAppends(q, now, rs[0]);
      hide Inv, Plain, Submitted, NewJob;
      SubmittingAllAppends(q1, now, rs[1..]);
      forall i | |q.jobs| <= i < |q'.jobs|
        ensures CreatedBy(q'.jobs[i], now, rs)
      {
        if i < |q1.jobs| {
          assert q'.jobs[i] == q1.jobs[i] == NewJob(now, rs[0], DEFAULT_MAX_ATTEMPTS);
        } else {
          assert CreatedBy(q'.jobs[i], now, rs[1..]);
          var r :| r in rs[1..] && q'.jobs[i] == NewJob(now, r, DEFAULT_MAX_ATTEMPTS);
          assert r in rs;
        }
      }
    }
  }

  lemma {:induction false} SubmittingAllCovers(q: Queue, now: int, rs: seq<Request>, jobType: string, key: string)
    requires forall r :: r in rs ==> Plain(r)
    ensures Has(SubmittedAll(q, now, rs), jobType, key) <==> Has(q, jobType, key) || Asked(rs, jobType, key)
    decreases |rs|
  {
    if rs != [] {
      var q1 := Submitted(q, now, rs[0]);
      SubmittingAllCovers(q1, now, rs[1..], jobType, key);
      assert Plain(rs[0]);
      assert rs == [rs[0]] + rs[1..];
      SubmittingCovers(q, now, rs[0], jobType, key);
      assert Asked(rs, jobType, key) <==> (rs[0].jobType == jobType && rs[0].key == key) || Asked(rs[1..], jobType, key);
    }
  }

  lemma SubmittingCovers(q: Queue, now: int, r: Request, jobType: string, key: string)
    requires Plain(r)
    ensures Has(Submitted(q, now, r), jobType, key) <==> Has(q, jobType, key) || (r.jobType == jobType && r.key == key)
  {
    var q' := Submitted(q, now, r);
    if !Has(q, r.jobType, r.key) {
      assert q'.jobs[|q.jobs|] in q'.jobs;
      if Has(q, jobType, key) {
        var j :| j in q.jobs && IsRow(j, jobType, key);
        assert j in q'.jobs;
      }
    }
  }

  // Some execution got as far as asking for the job.
  predicate AskedBy(student: string, xs: seq<Execution>, format: int -> string, jobType: string, key: string) {
    exists x :: x in xs && Asked(RequestsOf(student, x, format), jobType, key)
  }

  // The row is a follow-up that one of the executions asked for.
  predicate FollowUpRow(j: Job, student: string, xs: seq<Execution>, format: int -> string) {
    exists x :: x in xs && CreatedBy(j, x.at, RequestsOf(student, x, format))
  }

  lemma RequestsArePlain(student: string, x: Execution, format: int -> string)
    requires IsStudentId(student) && IsDateFormat(format) && InRange(x.day)
    ensures forall r :: r in RequestsOf(student, x, format) ==> Plain(r)
  {
    FollowUpsAreAcceptable(student, x.day, format);
  }

  // Any executions, complete or cut off, only append rows, and only follow-ups they asked for.
  lemma {:induction false} ExecutionsAppend(q: Queue, student: string, xs: seq<Execution>, format: int -> string)
    requires Inv(q) && IsStudentId(student) && IsDateFormat(format) && forall x :: x in xs ==> InRange(x.day)
    ensures Inv(Executed(q, student, xs, format)) && Executed(q, student, xs, format).log == q.log
    ensures q.jobs <= Executed(q, student, xs, format).jobs
    ensures forall i :: |q.jobs| <= i < |Executed(q, student, xs, format).jobs| ==>
              FollowUpRow(Executed(q, student, xs, format).jobs[i], student, xs, format)
    decreases |xs|
  {
    if xs != [] {
      hide Inv, IsStudentId, IsDateFormat, RequestsOf, CreatedBy, Plain;
      var x, q' := xs[0], Executed(q, student, xs, format);
      var q1 := SubmittedAll(q, x.at, RequestsOf(student, x, format));
      RequestsArePlain(student, x, format);
      SubmittingAllAppends(q, x.at, RequestsOf(student, x, format));
      ExecutionsAppend(q1, student, xs[1..], format);
      forall i | |q.jobs| <= i < |q'.jobs|
        ensures FollowUpRow(q'.jobs[i], student, xs, format)
      {
        if i < |q1.jobs| {
          assert q'.jobs[i] == q1.jobs[i];
        } else {
          var y :| y in xs[1..] && CreatedBy(q'.jobs[i], y.at, RequestsOf(student, y, format));
          assert y in xs;
        }
      }
    }
  }

  // Afterwards the queue has exactly the jobs it had and those asked for.
  lemma {:induction false} ExecutionsCover(
      q: Queue, student: string, xs: seq<Execution>, format: int -> string, jobType: string, key: string)
    requires IsStudentId(student) && IsDateFormat(format) && forall x :: x in xs ==> InRange(x.day)
    ensures Has(Executed(q, student, xs, format), jobType, key)
        <==> Has(q, jobType, key) || AskedBy(student, xs, format, jobType, key)
    decreases |xs|
  {
    if xs != [] {
      hide IsStudentId, IsDateFormat, RequestsOf, Asked, Plain, Has;
      var x := xs[0];
      RequestsArePlain(student, x, format);
      SubmittingAllCovers(q, x.at, RequestsOf(student, x, format), jobType, key);
      ExecutionsCover(SubmittedAll(q, x.at, RequestsOf(student, x, format)), student, xs[1..], format, jobType, key);
      assert xs == [x] + xs[1..];
      assert AskedBy(student, xs, format, jobType, key)
        <==> Asked(RequestsOf(student, x, format), jobType, key) || AskedBy(student, xs[1..], format, jobType, key);
    }
  }

  // The row of the table that holds a job
  predicate IsOnlyRow(q: Queue, i: nat, jobType: string, key: string) {
    i < |q.jobs| && forall k: nat :: k < |q.jobs| ==> (IsRow(q.jobs[k], jobType, key) <==> k == i)
  }

  lemma HasExactlyOneRow(q: Queue, jobType: string, key: string)
    requires Inv(q) && Has(q, jobType, key)
    ensures exists i: nat :: IsOnlyRow(q, i, jobType, key)
  {
    var j :| j in q.jobs && IsRow(j, jobType, key);
    var i :| 0 <= i < |q.jobs| && q.jobs[i] == j;
    assert IsOnlyRow(q, i, jobType, key);
  }

  lemma FourDifferentTypes(student: string, day: int, format: int -> string)
    ensures
      var four := FollowUpRequests(student, day, format);
      forall i, k :: 0 <= i < k < 4 ==> four[i].jobType != four[k].jobType
  {
    assert DAILY[10] != WEEKLY[10] && DAILY[0] != PARENT_DIGEST[0] && DAILY[0] != STALE[0];
  }

  lemma CompleteExecutionAsks(student: string, xs: seq<Execution>, format: int -> string, complete: Execution, r: Request)
    requires complete in xs && complete.reached >= 4 && r in FollowUpRequests(student, complete.day, format)
    ensures AskedBy(student, xs, format, r.jobType, r.key)
  {
    assert RequestsOf(student, complete, format) == FollowUpRequests(student, complete.day, format);
    assert Asked(RequestsOf(student, complete, format), r.jobType, r.key);
  }

  lemma FollowUpRowIsAsked(j: Job, student: string, day: int, xs: seq<Execution>, format: int -> string)
    requires FollowUpRow(j, student, xs, format) && forall x :: x in xs ==> x.day == day
    ensures Asked(FollowUpRequests(student, day, format), j.jobType, j.key)
  {
    var x :| x in xs && CreatedBy(j, x.at, RequestsOf(student, x, format));
    var r :| r in RequestsOf(student, x, format) && j == NewJob(x.at, r, DEFAULT_MAX_ATTEMPTS);
    assert r in FollowUpRequests(student, day, format);
  }

  // Retry safety: any number of executions for one day, one of them complete, leave each of that
  // day's four jobs in exactly one row, append nothing else, and keep every row that was there.
  lemma RetriedFanOutLeavesFourJobs(
      q: Queue, student: string, day: int, xs: seq<Execution>, format: int -> string, complete: Execution)
    requires Inv(q) && IsStudentId(student) && IsDateFormat(format) && InRange(day)
    requires forall x :: x in xs ==> x.day == day
    requires complete in xs && complete.reached >= 4
    ensures
      var q', four := Executed(q, student, xs, format), FollowUpRequests(student, day, format);
      && q.jobs <= q'.jobs && q'.log == q.log
      && (forall r :: r in four ==> exists i: nat :: IsOnlyRow(q', i, r.jobType, r.key))
      && (forall i :: |q.jobs| <= i < |q'.jobs| ==> Asked(four, q'.jobs[i].jobType, q'.jobs[i].key))
      && (forall i, k :: 0 <= i < k < 4 ==> four[i].jobType != four[k].jobType)
  {
    hide FollowUpRequests, IsStudentId, IsDateFormat, Inv, Asked, AskedBy, FollowUpRow, IsOnlyRow, Executed;
    var q', four := Executed(q, student, xs, format), FollowUpRequests(student, day, format);
    FourDifferentTypes(student, day, format);
    ExecutionsAppend(q, student, xs, format);
    forall r | r in four
      ensures exists i: nat :: IsOnlyRow(q', i, r.jobType, r.key)
    {
      CompleteExecutionAsks(student, xs, format, complete, r);
      ExecutionsCover(q, student, xs, format, r.jobType, r.key);
      HasExactlyOneRow(q', r.jobType, r.key);
    }
    forall i | |q.jobs| <= i < |q'.jobs|
      ensures Asked(four, q'.jobs[i].jobType, q'.jobs[i].key)
    {
      FollowUpRowIsAsked(q'.jobs[i], student, day, xs, format);
    }
  }

  // ---------- One weekly job per week ----------

  function WeeklyKey(student: string, day: int, format: int -> string): string {
    Key("weekly:", student, format(WeekBounds(day).0))
  }

  lemma WeeklyKeysNameWeeks(student: string, a: int, b: int, format: int -> string)
    requires IsDateFormat(format) && InRange(a) && InRange(b)
    ensures WeeklyKey(student, a, format) == WeeklyKey(student, b, format) <==> WeekBounds(a) == WeekBounds(b)
  {
    var prefix := "weekly:" + student + ":";
    assert InRange(WeekBounds(a).0) && InRange(WeekBounds(b).0);
    assert WeeklyKey(student, a, format)[|prefix|..] == format(WeekBounds(a).0);
    assert WeeklyKey(student, b, format)[|prefix|..] == format(WeekBounds(b).0);
  }

  lemma AskedWeekly(student: string, x: Execution, format: int -> string, key: string)
    ensures Asked(RequestsOf(student, x, format), WEEKLY, key) <==> x.reached >= 2 && key == WeeklyKey(student, x.day, format)
  {
    var rs := FollowUpRequests(student, x.day, format);
    assert DAILY[10] != WEEKLY[10] && WEEKLY[0] != PARENT_DIGEST[0] && WEEKLY[0] != STALE[0];
    if x.reached >= 2 {
      assert RequestsOf(student, x, format)[1] == rs[1];
    }
  }

  // Starting from no jobs, executions over any days leave, for each calendar week of an execution
  // that got to its second request, exactly one weekly job, and no weekly job for any other week.
  lemma OneWeeklyJobPerWeek(student: string, xs: seq<Execution>, format: int -> string, day: int)
    requires IsStudentId(student) && IsDateFormat(format) && InRange(day) && forall x :: x in xs ==> InRange(x.day)
    ensures
      var q := Executed(EMPTY, student, xs, format);
      && (Has(q, WEEKLY, WeeklyKey(student, day, format))
          <==> exists x :: x in xs && x.reached >= 2 && WeekBounds(x.day) == WeekBounds(day))
      && (Has(q, WEEKLY, WeeklyKey(student, day, format)) ==>
            exists i: nat :: IsOnlyRow(q, i, WEEKLY, WeeklyKey(student, day, format)))
      && (forall j :: j in q.jobs && j.jobType == WEEKLY ==> exists x :: x in xs && j.key == WeeklyKey(student, x.day, format))
  {
    hide IsStudentId, IsDateFormat, RequestsOf, WeeklyKey, WeekBounds, InRange, Asked;
    var q := Executed(EMPTY, student, xs, format);
    ExecutionsAppend(EMPTY, student, xs, format);
    ExecutionsCover(EMPTY, student, xs, format, WEEKLY, WeeklyKey(student, day, format));
    if Has(q, WEEKLY, WeeklyKey(student, day, format)) {
      HasExactlyOneRow(q, WEEKLY, WeeklyKey(student, day, format));
    }
    forall x | x in xs
      ensures Asked(RequestsOf(student, x, format), WEEKLY, WeeklyKey(student, day, format))
          <==> x.reached >= 2 && WeekBounds(x.day) == WeekBounds(day)
    {
      AskedWeekly(student, x, format, WeeklyKey(student, day, format));
      WeeklyKeysNameWeeks(student, x.day, day, format);
    }
    forall j | j in q.jobs && j.jobType == WEEKLY
      ensures exists x :: x in xs && j.key == WeeklyKey(student, x.day, format)
    {
      ExecutionsCover(EMPTY, student, xs, format, WEEKLY, j.key);
      var x :| x in xs && Asked(RequestsOf(student, x, format), WEEKLY, j.key);
      AskedWeekly(student, x, format, j.key);
    }
  }

  // ---------- The handler ----------

  // IngestPostProcessing for an explicit date; only the first `reachable` enqueues get through.
  method IngestPostProcessing(jobs: Service, now: int, student: string, day: int, format: int -> string, reachable: nat)
    returns (ok: bool)
    requires IsStudentId(student) && IsDateFormat(format) && InRange(day)
    modifies jobs.repo
    ensures ok <==> reachable >= 4
    ensures jobs.repo.Table() == Executed(old(jobs.repo.Table()), student, [Execution(now, day, reachable)], format)
  {
    hide Acceptable, IsStudentId, IsDateFormat, Submitted;
    var (weekStart, weekEnd) := WeekBounds(day);
    var date := format(day);
    var toEnqueue := [
      Request("recompute_daily_stats", "daily:" + student + ":" + date, map["student_id" := student, "date" := date], 40),
      Request("recompute_weekly_stats", "weekly:" + student + ":" + format(weekStart),
              map["student_id" := student, "week_start" := format(weekStart), "week_end" := format(weekEnd),
                  "source_date" := date], 45),
      Request("generate_parent_digest", "parentdigest:" + student + ":" + date,
              map["student_id" := student, "date" := date], 30),
      Request("stale_data_detection", "stale:" + student + ":" + date,
              map["student_id" := student, "max_age_hours" := "72"], 60)];
    assert toEnqueue == FollowUpRequests(student, day, format);
    hide FollowUpRequests, Key;
    FollowUpsAreAcceptable(student, day, format);
    ghost var sent := RequestsOf(student, Execution(now, day, reachable), format);
    assert Executed(jobs.repo.Table(), student, [Execution(now, day, reachable)], format)
        == SubmittedAll(jobs.repo.Table(), now, sent);
    var i := 0;
    while i < |toEnqueue|
      invariant 0 <= i <= |sent| <= 4
      invariant SubmittedAll(jobs.repo.Table(), now, sent[i..]) == SubmittedAll(old(jobs.repo.Table()), now, sent)
    {
      if i >= reachable {
        return false;
      }
      assert sent[i..][1..] == sent[i + 1..];
      var reply := jobs.Enqueue(now, toEnqueue[i]);
      i := i + 1;
    }
    ok := true;
  }
}
