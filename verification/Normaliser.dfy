/**
 The v1 bundle normaliser: the canonical form whose checksum decides whether two deliveries under one
 idempotency key are the same.
 */
module Normaliser {
  import opened Wrappers
  import opened Text
  import opened Lists
  import opened StableSort
  import opened Validate
  import Grades
  import Lessons
  import Attendance

  datatype Profile = Profile(firstName: string, lastName: string, gradeLevel: int, classLabel: string, schoolName: string)

  // An instant and the zone offset it is written in
  datatype Timestamp = Timestamp(instant: int, offset: int)

  // time.Time.IsZero: year 1, counted from the Unix epoch in seconds
  const ZERO_INSTANT := -62135596800

  datatype Bundle = Bundle(
    source: string, sourceAccount: string, idempotencyKey: string, syncedAt: Timestamp,
    sourceIds: map<string, string>, profile: Profile, lessons: seq<Lessons.Lesson>, attendance: seq<Attendance.Event>)

  function NormalTime(t: Timestamp): Timestamp {
    if t.instant == ZERO_INSTANT then t else t.(offset := 0)
  }

  // ---------- Source ids ----------

  predicate Kept(ids: map<string, string>, x: string) {
    x in ids && !Blank(x) && !Blank(ids[x])
  }

  // A map that the loop over the source ids can produce. The iteration order is unspecified: where two
  // keys have one normal form, either value may stay.
  ghost predicate NormalIds(ids: map<string, string>, out: map<string, string>) {
    && (forall k :: k in out ==> exists x :: Kept(ids, x) && Fold(x) == k && out[k] == Trim(ids[x]))
    && (forall x :: Kept(ids, x) ==> Fold(x) in out)
  }

  method NormalizeIds(ids: map<string, string>) returns (out: map<string, string>)
    ensures NormalIds(ids, out)
  {
    hide Fold, Trim;
    out := map[];
    var remaining := ids.Keys;
    while remaining != {}
      invariant remaining <= ids.Keys
      invariant forall k :: k in out ==> exists x :: Kept(ids, x) && Fold(x) == k && out[k] == Trim(ids[x])
      invariant forall x :: Kept(ids, x) && x !in remaining ==> Fold(x) in out
      decreases |remaining|
    {
      var key :| key in remaining;
      remaining := remaining - {key};
      if Trim(key) != "" && Trim(ids[key]) != "" {
        out := out[Fold(key) := Trim(ids[key])];
      }
    }
  }

  // Source ids already in normal form come out unchanged, in any order.
  lemma NormalIdsAreFixed(ids: map<string, string>, out: map<string, string>, again: map<string, string>)
    requires NormalIds(ids, out) && NormalIds(out, again)
    ensures again == out
  {
    hide *;
    forall k | k in out
      ensures Kept(out, k) && Fold(k) == k && Trim(out[k]) == out[k]
    {
      NormalIdIsFixed(ids, out, k);
    }
    FixedIdsStay(out, again);
  }

  lemma NormalIdIsFixed(ids: map<string, string>, out: map<string, string>, k: string)
    requires NormalIds(ids, out) && k in out
    ensures Kept(out, k) && Fold(k) == k && Trim(out[k]) == out[k]
  {
    hide Trim, Fold, Unpadded;
    var x :| Kept(ids, x) && Fold(x) == k && out[k] == Trim(ids[x]);
    FoldIsIdempotent(x);
    TrimFixesExactlyUnpadded(Trim(ids[x]));
    FoldKeepsNonblank(x);
  }

  lemma FixedIdsStay(out: map<string, string>, again: map<string, string>)
    requires NormalIds(out, again)
    requires forall k :: k in out ==> Kept(out, k) && Fold(k) == k && Trim(out[k]) == out[k]
    ensures again == out
  {
    hide Trim, Fold, Blank;
    assert forall k :: k in again ==> k in out && again[k] == out[k];
    assert forall k :: k in out ==> k in again;
  }

  lemma FoldKeepsNonblank(s: string)
    ensures Blank(Fold(s)) <==> Blank(s)
  {
    FoldIsIdempotent(s);
    hide Trim;
  }

  // ---------- The normal form ----------

  function NormalLessons(items: seq<Lessons.Lesson>, digest: string -> string): seq<Lessons.Lesson> {
    Sort(Lessons.Deduplicated(EachLesson(items, digest)), Lessons.Before)
  }

  function EachLesson(items: seq<Lessons.Lesson>, digest: string -> string): seq<Lessons.Lesson> {
    Mapped((l: Lessons.Lesson) => Lessons.NormalLesson(l, digest), items)
  }

  function NormalAttendance(items: seq<Attendance.Event>): seq<Attendance.Event> {
    Sort(Attendance.Deduplicated(Mapped(Attendance.NormalEvent, items)), Attendance.Before)
  }

  function WithIds(b: Bundle, ids: map<string, string>, digest: string -> string): Bundle {
    Bundle(
      Fold(b.source), Trim(b.sourceAccount), Trim(b.idempotencyKey), NormalTime(b.syncedAt), ids, b.profile,
      NormalLessons(b.lessons, digest), NormalAttendance(b.attendance))
  }

  // n is a possible result of normalising b.
  ghost predicate Normalises(b: Bundle, n: Bundle, digest: string -> string) {
    NormalIds(b.sourceIds, n.sourceIds) && n == WithIds(b, n.sourceIds, digest)
  }

  // normalizeBundle: the elements of the caller's slices are rewritten in place; deduplication and the
  // sort then work on slices of their own.
  method NormalizeBundle(b: Bundle, lessons: array<Lessons.Lesson>, attendance: array<Attendance.Event>, digest: string -> string)
    returns (n: Bundle)
    requires b.lessons == lessons[..] && b.attendance == attendance[..]
    modifies lessons, attendance
    ensures Normalises(b, n, digest)
    ensures lessons[..] == EachLesson(old(lessons[..]), digest)
    ensures attendance[..] == Mapped(Attendance.NormalEvent, old(attendance[..]))
  {
    var ids := NormalizeIds(b.sourceIds);
    NormalizeEachLesson(lessons, digest);
    NormalizeEachEvent(attendance);
    hide NormalIds;
    var syncedAt := b.syncedAt;
    if syncedAt.instant != ZERO_INSTANT {
      syncedAt := syncedAt.(offset := 0);
    }
    var uniqueLessons := Lessons.DeduplicateLessons(lessons[..]);
    var uniqueEvents := Attendance.DeduplicateAttendance(attendance[..]);
    n := Bundle(
      Lower(Trim(b.source)), Trim(b.sourceAccount), Trim(b.idempotencyKey), syncedAt, ids, b.profile,
      Sort(uniqueLessons, Lessons.Before), Sort(uniqueEvents, Attendance.Before));
  }

  method NormalizeEachLesson(lessons: array<Lessons.Lesson>, digest: string -> string)
    modifies lessons
    ensures lessons[..] == EachLesson(old(lessons[..]), digest)
  {
    hide Lessons.NormalLesson;
    for i := 0 to lessons.Length
      invariant forall k :: 0 <= k < i ==> lessons[k] == Lessons.NormalLesson(old(lessons[k]), digest)
      invariant forall k :: i <= k < lessons.Length ==> lessons[k] == old(lessons[k])
    {
      lessons[i] := NormalizeLesson(lessons[i], digest);
    }
  }

  method NormalizeLesson(l: Lessons.Lesson, digest: string -> string) returns (lesson: Lessons.Lesson)
    ensures lesson == Lessons.NormalLesson(l, digest)
  {
    hide Trim, Grades.Deduplicated, Lower, Lessons.Number;
    lesson := l.(sourceLessonKey := Trim(l.sourceLessonKey));
    if lesson.sourceLessonKey == "" {
      var subject := Lower(Trim(lesson.subjectName));
      lesson := lesson.(sourceLessonKey := digest(l.date + ":" + Lessons.Number(l.lessonNumber) + ":" + subject));
    }
    lesson := lesson.(subjectName := Trim(lesson.subjectName), lessonPlace := Trim(lesson.lessonPlace));
    lesson := lesson.(topicTitle := Trim(lesson.topicTitle));
    lesson := lesson.(homework := lesson.homework.(description := Trim(lesson.homework.description)));
    lesson := lesson.(startTime := Trim(lesson.startTime), endTime := Trim(lesson.endTime));
    var grades := l.grades;
    for j := 0 to |grades|
      invariant |grades| == |l.grades|
      invariant forall k :: 0 <= k < j ==> grades[k] == Grades.NormalGrade(l.grades[k])
      invariant forall k :: j <= k < |grades| ==> grades[k] == l.grades[k]
    {
      var gradeType := Lower(Trim(grades[j].gradeType));
      if gradeType != "regular" && gradeType != "absence" && gradeType != "behavior" {
        gradeType := "regular";
      }
      var grade := grades[j].(sourceGradeKey := Trim(grades[j].sourceGradeKey), value := Trim(grades[j].value));
      grade := grade.(mood := Trim(grade.mood), gradeType := gradeType);
      grades := grades[j := grade];
    }
    assert grades == Grades.NormalGrades(l.grades);
    grades := Grades.DeduplicateGrades(grades);
    lesson := lesson.(grades := grades);
  }

  method NormalizeEachEvent(attendance: array<Attendance.Event>)
    modifies attendance
    ensures attendance[..] == Mapped(Attendance.NormalEvent, old(attendance[..]))
  {
    hide Trim, Lower;
    for i := 0 to attendance.Length
      invariant forall k :: 0 <= k < i ==> attendance[k] == Attendance.NormalEvent(old(attendance[k]))
      invariant forall k :: i <= k < attendance.Length ==> attendance[k] == old(attendance[k])
    {
      var event := attendance[i];
      event := event.(sourceEventKey := Trim(event.sourceEventKey), date := Trim(event.date));
      event := event.(code := Lower(Trim(event.code)), reason := Trim(event.reason));
      attendance[i] := event;
    }
  }
}
