/** What makes a normalised v1 bundle acceptable, as the checks run over it. */
module Validation {
  import opened Wrappers
  import opened Text
  import opened Validate
  import opened Normaliser
  import opened NormalForm
  import opened StableSort
  import Lessons
  import Attendance

  datatype Fault =
    | InvalidSource | InvalidIdempotencyKey | EmptyBundle | InvalidLessonKey | DuplicateLessonKey | InvalidLessonDate
    | InvalidLessonNumber | InvalidStartTime | InvalidEndTime | InvalidAttendanceDate | InvalidAttendanceCode

  // Which texts time.Parse accepts as a day and as a time of day
  datatype Formats = Formats(isDay: string -> bool, isClock: string -> bool)

  predicate ClockOrEmpty(f: Formats, s: string) {
    s == "" || f.isClock(s)
  }

  predicate KnownCode(code: string) {
    code in {"present", "absent", "late", "excused"}
  }

  predicate AcceptableLesson(f: Formats, l: Lessons.Lesson) {
    && !Blank(l.sourceLessonKey) && f.isDay(l.date) && l.lessonNumber >= 0
    && ClockOrEmpty(f, l.startTime) && ClockOrEmpty(f, l.endTime)
  }

  predicate AcceptableEvent(f: Formats, e: Attendance.Event) {
    f.isDay(e.date) && KnownCode(e.code)
  }

  predicate DistinctLessonKeys(items: seq<Lessons.Lesson>) {
    forall i: nat, j: nat :: i < j < |items| ==> items[i].sourceLessonKey != items[j].sourceLessonKey
  }

  predicate ValidHeader(b: Bundle) {
    ValidSource(b.source) && ValidIdempotencyKey(b.idempotencyKey) && (b.lessons != [] || b.attendance != [])
  }

  predicate AcceptableLessons(f: Formats, items: seq<Lessons.Lesson>) {
    DistinctLessonKeys(items) && forall i: nat :: i < |items| ==> AcceptableLesson(f, items[i])
  }

  predicate AcceptableEvents(f: Formats, items: seq<Attendance.Event>) {
    forall i: nat :: i < |items| ==> AcceptableEvent(f, items[i])
  }

  predicate Acceptable(f: Formats, b: Bundle) {
    ValidHeader(b) && AcceptableLessons(f, b.lessons) && AcceptableEvents(f, b.attendance)
  }

  // The lesson has the fault, after lessons without any.
  predicate LessonHasFault(f: Formats, earlier: seq<Lessons.Lesson>, l: Lessons.Lesson, fault: Fault) {
    match fault
    case InvalidLessonKey => Blank(l.sourceLessonKey)
    case DuplicateLessonKey => !Blank(l.sourceLessonKey) && exists e :: e in earlier && e.sourceLessonKey == l.sourceLessonKey
    case InvalidLessonDate => !f.isDay(l.date)
    case InvalidLessonNumber => f.isDay(l.date) && l.lessonNumber < 0
    case InvalidStartTime => f.isDay(l.date) && l.lessonNumber >= 0 && !ClockOrEmpty(f, l.startTime)
    case InvalidEndTime =>
      f.isDay(l.date) && l.lessonNumber >= 0 && ClockOrEmpty(f, l.startTime) && !ClockOrEmpty(f, l.endTime)
    case _ => false
  }

  predicate EventHasFault(f: Formats, e: Attendance.Event, fault: Fault) {
    (fault == InvalidAttendanceDate && !f.isDay(e.date))
    || (fault == InvalidAttendanceCode && f.isDay(e.date) && !KnownCode(e.code))
  }

  // The fault is the first one: nothing checked earlier is wrong.
  ghost predicate FirstFault(f: Formats, b: Bundle, fault: Fault) {
    match fault
    case InvalidSource => !ValidSource(b.source)
    case InvalidIdempotencyKey => ValidSource(b.source) && !ValidIdempotencyKey(b.idempotencyKey)
    case EmptyBundle =>
      ValidSource(b.source) && ValidIdempotencyKey(b.idempotencyKey) && b.lessons == [] && b.attendance == []
    case _ =>
      ValidHeader(b) && (FirstLessonFault(f, b.lessons, fault) || FirstEventFault(f, b, fault))
  }

  ghost predicate FirstLessonFault(f: Formats, items: seq<Lessons.Lesson>, fault: Fault) {
    exists i: nat :: i < |items| && AcceptableLessons(f, items[..i]) && LessonHasFault(f, items[..i], items[i], fault)
  }

  ghost predicate FirstEventFault(f: Formats, b: Bundle, fault: Fault) {
    && AcceptableLessons(f, b.lessons)
    && exists i: nat :: i < |b.attendance| && AcceptableEvents(f, b.attendance[..i]) && EventHasFault(f, b.attendance[i], fault)
  }

  // validateBundle
  method ValidateBundle(f: Formats, b: Bundle) returns (fault: Option<Fault>)
    ensures fault.None? <==> Acceptable(f, b)
    ensures fault.Some? ==> FirstFault(f, b, fault.value)
  {
    hide Trim, Lower, ValidIdempotencyKey, ClockOrEmpty;
    var source := Lower(Trim(b.source));
    if source != "kundelik" && source != "dnevnikru" && source != "edupage" {
      return Some(InvalidSource);
    }
    var matches := MatchesKeyPattern(b.idempotencyKey);
    if !matches {
      return Some(InvalidIdempotencyKey);
    }
    if |b.lessons| == 0 && |b.attendance| == 0 {
      return Some(EmptyBundle);
    }
    fault := ValidateLessons(f, b.lessons);
    if fault.Some? {
      return;
    }
    hide AcceptableLessons, FirstLessonFault;
    for i := 0 to |b.attendance|
      invariant AcceptableEvents(f, b.attendance[..i])
      invariant fault.None?
    {
      if !f.isDay(b.attendance[i].date) {
        assert EventHasFault(f, b.attendance[i], InvalidAttendanceDate);
        return Some(InvalidAttendanceDate);
      }
      var code := b.attendance[i].code;
      if code != "present" && code != "absent" && code != "late" && code != "excused" {
        assert EventHasFault(f, b.attendance[i], InvalidAttendanceCode);
        return Some(InvalidAttendanceCode);
      }
    }
    assert b.attendance[..|b.attendance|] == b.attendance;
  }

  method ValidateLessons(f: Formats, items: seq<Lessons.Lesson>) returns (fault: Option<Fault>)
    ensures fault.None? <==> AcceptableLessons(f, items)
    ensures fault.Some? ==> FirstLessonFault(f, items, fault.value)
  {
    hide Blank, AcceptableLessons;
    assert AcceptableLessons(f, items[..0]) by {
      NoLessons(f, items[..0]);
    }
    var seen: set<string> := {};
    for i := 0 to |items|
      invariant forall k: nat :: k < i ==> items[k].sourceLessonKey in seen
      invariant forall key :: key in seen ==> exists k: nat :: k < i && items[k].sourceLessonKey == key
      invariant AcceptableLessons(f, items[..i])
    {
      var l := items[i];
      fault := None;
      if Blank(l.sourceLessonKey) {
        fault := Some(InvalidLessonKey);
      } else if l.sourceLessonKey in seen {
        var k: nat :| k < i && items[k].sourceLessonKey == l.sourceLessonKey;
        assert items[..i][k] in items[..i];
        fault := Some(DuplicateLessonKey);
      } else if !f.isDay(l.date) {
        fault := Some(InvalidLessonDate);
      } else if l.lessonNumber < 0 {
        fault := Some(InvalidLessonNumber);
      } else if l.startTime != "" && !f.isClock(l.startTime) {
        fault := Some(InvalidStartTime);
      } else if l.endTime != "" && !f.isClock(l.endTime) {
        fault := Some(InvalidEndTime);
      }
      if fault.Some? {
        assert LessonHasFault(f, items[..i], l, fault.value);
        FaultyIsUnacceptable(f, items, i, fault.value);
        return;
      }
      seen := seen + {l.sourceLessonKey};
      OneMoreLesson(f, items, i);
    }
    assert items[..|items|] == items;
    fault := None;
  }

  lemma FaultyIsUnacceptable(f: Formats, items: seq<Lessons.Lesson>, i: nat, fault: Fault)
    requires i < |items| && LessonHasFault(f, items[..i], items[i], fault)
    ensures !AcceptableLessons(f, items)
  {
    hide Blank;
    if fault == DuplicateLessonKey {
      var e :| e in items[..i] && e.sourceLessonKey == items[i].sourceLessonKey;
      var k: nat :| k < i && items[..i][k] == e;
    } else {
      assert !AcceptableLesson(f, items[i]);
    }
  }

  lemma NoLessons(f: Formats, items: seq<Lessons.Lesson>)
    requires items == []
    ensures AcceptableLessons(f, items)
  {
  }

  lemma OneMoreLesson(f: Formats, items: seq<Lessons.Lesson>, i: nat)
    requires i < |items| && AcceptableLessons(f, items[..i]) && AcceptableLesson(f, items[i])
    requires forall k: nat :: k < i ==> items[k].sourceLessonKey != items[i].sourceLessonKey
    ensures AcceptableLessons(f, items[..i + 1])
  {
    hide AcceptableLesson;
    assert items[..i + 1] == items[..i] + [items[i]];
  }

  // Validation of a normalised bundle never stops at an empty or a repeated lesson key.
  lemma NormalBundlesHaveDistinctKeys(f: Formats, b: Bundle, n: Bundle, digest: string -> string, fault: Fault)
    requires Lessons.IsDigest(digest) && Normalises(b, n, digest) && FirstFault(f, n, fault)
    ensures fault != InvalidLessonKey && fault != DuplicateLessonKey
  {
    hide *;
    PartsOfNormal(b, n, digest);
    NormalLessonsAreNormal(b.lessons, digest);
    if fault == InvalidLessonKey || fault == DuplicateLessonKey {
      OnlyLessonsHaveKeys(f, n, fault);
      NormalLessonsHaveNoKeyFault(f, n.lessons, fault);
    }
  }

  lemma OnlyLessonsHaveKeys(f: Formats, b: Bundle, fault: Fault)
    requires FirstFault(f, b, fault) && (fault == InvalidLessonKey || fault == DuplicateLessonKey)
    ensures FirstLessonFault(f, b.lessons, fault)
  {
    hide FirstLessonFault, ValidHeader, AcceptableLessons, AcceptableEvents;
  }

  lemma NormalLessonsHaveNoKeyFault(f: Formats, items: seq<Lessons.Lesson>, fault: Fault)
    requires NormalLessonList(items) && FirstLessonFault(f, items, fault)
    ensures fault != InvalidLessonKey && fault != DuplicateLessonKey
  {
    hide AcceptableLessons, Lessons.All, Lessons.KeysDistinct, Sorted, Blank;
    var i: nat :| i < |items| && AcceptableLessons(f, items[..i]) && LessonHasFault(f, items[..i], items[i], fault);
    NormalKeysAreDistinct(items, i);
  }

  lemma NormalKeysAreDistinct(items: seq<Lessons.Lesson>, i: nat)
    requires i < |items| && Lessons.All(items, Lessons.Normal) && Lessons.KeysDistinct(items)
    ensures !Blank(items[i].sourceLessonKey)
    ensures forall e :: e in items[..i] ==> e.sourceLessonKey != items[i].sourceLessonKey
  {
    assert Lessons.Normal(items[i]);
    TrimFixesExactlyUnpadded(items[i].sourceLessonKey);
    hide Trim, Unpadded;
  }
}
