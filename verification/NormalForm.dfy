/** Laws of the v1 normal form: idempotence, independence of the input's order, and what validation sees of it. */
module NormalForm {
  import opened Wrappers
  import KeyedFold
  import opened Text
  import opened Lists
  import opened StableSort
  import opened Validate
  import opened Normaliser
  import Grades
  import Lessons
  import Attendance

  // ---------- Lists under a permutation ----------

  lemma InPermutation<T>(xs: seq<T>, ys: seq<T>, i: nat)
    requires multiset(xs) == multiset(ys) && i < |ys|
    ensures ys[i] in xs
  {
    assert ys[i] in multiset(xs);
  }

  lemma {:induction false} LessonKeysSurvive(xs: seq<Lessons.Lesson>, ys: seq<Lessons.Lesson>)
    requires multiset(xs) == multiset(ys) && Lessons.KeysDistinct(xs)
    ensures Lessons.KeysDistinct(ys)
  {
    forall i: nat, j: nat | i < j < |ys|
      ensures Trim(ys[i].sourceLessonKey) != Trim(ys[j].sourceLessonKey)
    {
      InPermutation(xs, ys, i);
      InPermutation(xs, ys, j);
      hide Trim;
      if ys[i] == ys[j] {
        TwiceInPermutation(xs, ys, i, j);
      }
    }
  }

  lemma CountedTwice<T>(ys: seq<T>, i: nat, j: nat)
    requires i < j < |ys| && ys[i] == ys[j]
    ensures multiset(ys)[ys[i]] >= 2
  {
    assert ys == ys[..j] + [ys[j]] + ys[j + 1..];
    assert ys[..j][i] == ys[i] && ys[i] in multiset(ys[..j]);
  }

  // An element repeated in one list is repeated in every permutation of it.
  lemma TwiceInPermutation<T>(xs: seq<T>, ys: seq<T>, i: nat, j: nat)
    requires multiset(xs) == multiset(ys) && i < j < |ys| && ys[i] == ys[j]
    ensures exists a: nat, b: nat :: a < b < |xs| && xs[a] == xs[b]
  {
    var x := ys[i];
    CountedTwice(ys, i, j);
    assert x in multiset(xs);
    var a: nat :| a < |xs| && xs[a] == x;
    assert xs == xs[..a] + [x] + xs[a + 1..];
    var others := xs[..a] + xs[a + 1..];
    assert multiset(xs) == multiset(others) + multiset{x};
    assert x in others;
    var k: nat :| k < |others| && others[k] == x;
    if k < a {
      assert xs[k] == xs[a];
    } else {
      assert xs[k + 1] == xs[a];
    }
  }

  lemma EventKeysSurvive(xs: seq<Attendance.Event>, ys: seq<Attendance.Event>)
    requires multiset(xs) == multiset(ys) && Attendance.KeysDistinct(xs)
    ensures Attendance.KeysDistinct(ys)
  {
    forall i: nat, j: nat | i < j < |ys|
      ensures Attendance.EventKey(ys[i]) != Attendance.EventKey(ys[j])
    {
      InPermutation(xs, ys, i);
      InPermutation(xs, ys, j);
      hide Attendance.EventKey;
      if ys[i] == ys[j] {
        TwiceInPermutation(xs, ys, i, j);
      }
    }
  }

  // ---------- Lessons ----------

  ghost predicate NormalLessonList(items: seq<Lessons.Lesson>) {
    && Lessons.All(items, Lessons.Normal)
    && Lessons.KeysDistinct(items)
    && Sorted(items, Lessons.Before)
  }

  lemma NormalLessonsAreNormal(items: seq<Lessons.Lesson>, digest: string -> string)
    requires Lessons.IsDigest(digest)
    ensures NormalLessonList(NormalLessons(items, digest))
  {
    var each := EachLesson(items, digest);
    var unique := Lessons.Deduplicated(each);
    assert Lessons.All(each, Lessons.Normal) by {
      hide Lessons.NormalLesson, Lessons.Normal;
      forall i: nat | i < |items|
        ensures Lessons.Normal(each[i])
      {
        Lessons.NormalLessonIsNormal(items[i], digest);
      }
    }
    hide *;
    Lessons.MergedStaysNormal();
    Lessons.DeduplicatedKeeps(each, Lessons.Normal);
    Lessons.FiledUnderOwnKey(each);
    SortedLessons(unique);
    SortKeepsLessons(unique, Lessons.Normal);
    assert NormalLessons(items, digest) == Sort(unique, Lessons.Before) by {
      SortIsTheNormalForm(items, digest);
    }
    IsNormalLessonList(NormalLessons(items, digest));
  }

  lemma IsNormalLessonList(items: seq<Lessons.Lesson>)
    requires Lessons.All(items, Lessons.Normal) && Lessons.KeysDistinct(items) && Sorted(items, Lessons.Before)
    ensures NormalLessonList(items)
  {
  }

  lemma SortIsTheNormalForm(items: seq<Lessons.Lesson>, digest: string -> string)
    ensures NormalLessons(items, digest) == Sort(Lessons.Deduplicated(EachLesson(items, digest)), Lessons.Before)
  {
  }

  lemma SortedLessons(items: seq<Lessons.Lesson>)
    requires Lessons.KeysDistinct(items)
    ensures Sorted(Sort(items, Lessons.Before), Lessons.Before)
    ensures Lessons.KeysDistinct(Sort(items, Lessons.Before))
  {
    hide Lessons.KeysDistinct, Sorted;
    Lessons.BeforeIsAnOrder();
    SortIsAStableSort(items, Lessons.Before);
    LessonKeysSurvive(items, Sort(items, Lessons.Before));
  }

  lemma SortKeepsLessons(items: seq<Lessons.Lesson>, ok: Lessons.Lesson -> bool)
    requires Lessons.All(items, ok)
    ensures Lessons.All(Sort(items, Lessons.Before), ok)
  {
    var out := Sort(items, Lessons.Before);
    forall i: nat | i < |out|
      ensures ok(out[i])
    {
      InPermutation(items, out, i);
    }
  }

  // Normalising normal lessons again only renormalises the grades of each.
  lemma NormalLessonsAgain(items: seq<Lessons.Lesson>, digest: string -> string)
    requires NormalLessonList(items)
    ensures NormalLessons(items, digest) == EachLesson(items, digest)
  {
    var each := EachLesson(items, digest);
    hide Lessons.NormalLesson, Lessons.Normal, Trim;
    forall i: nat | i < |items|
      ensures SamePlace(each[i], items[i])
    {
      assert Lessons.Normal(items[i]);
      Lessons.NormalLessonAgain(items[i], digest);
    }
    hide Lessons.All;
    assert Lessons.KeysDistinct(each);
    assert Sorted(each, Lessons.Before);
    Lessons.DistinctIsFixed(each);
    Lessons.BeforeIsAnOrder();
    SortFixesExactlySorted(each, Lessons.Before);
  }

  predicate SamePlace(a: Lessons.Lesson, b: Lessons.Lesson) {
    a.sourceLessonKey == b.sourceLessonKey && a.date == b.date && a.lessonNumber == b.lessonNumber
  }

  // No synthetic grade key of any lesson is another grade's own key.
  ghost predicate NoneShadowed(items: seq<Lessons.Lesson>) {
    forall i: nat :: i < |items| ==> !Lessons.Shadowed(items[i])
  }

  lemma LessonsFixedExactly(items: seq<Lessons.Lesson>, digest: string -> string)
    requires NormalLessonList(items)
    ensures NormalLessons(items, digest) == items <==> NoneShadowed(items)
  {
    NormalLessonsAgain(items, digest);
    hide NormalLessons, EachLesson;
    EachFixedExactly(items, digest);
  }

  lemma EachFixedExactly(items: seq<Lessons.Lesson>, digest: string -> string)
    requires Lessons.All(items, Lessons.Normal)
    ensures EachLesson(items, digest) == items <==> NoneShadowed(items)
  {
    var each := EachLesson(items, digest);
    hide Lessons.NormalLesson, Lessons.Normal, Lessons.Shadowed;
    forall i: nat | i < |items|
      ensures each[i] == items[i] <==> !Lessons.Shadowed(items[i])
    {
      Lessons.NormalLessonAgain(items[i], digest);
    }
    hide Lessons.All;
  }

  // ---------- Attendance ----------

  lemma NormalAttendanceIsFixed(items: seq<Attendance.Event>)
    ensures NormalAttendance(NormalAttendance(items)) == NormalAttendance(items)
  {
    var each := Mapped(Attendance.NormalEvent, items);
    var unique := Attendance.Deduplicated(each);
    var out := NormalAttendance(items);
    Attendance.DeduplicatedEvents(each);
    Attendance.BeforeIsAnOrder();
    SortIsAStableSort(unique, Attendance.Before);
    EventKeysSurvive(unique, out);
    hide Attendance.NormalEvent, Attendance.EventKey;
    forall i: nat | i < |out|
      ensures Attendance.NormalEvent(out[i]) == out[i]
    {
      InPermutation(unique, out, i);
      var k: nat :| k < |unique| && unique[k] == out[i];
      var j: nat :| j < |each| && each[j] == out[i];
      Attendance.NormalEventIsIdempotent(items[j]);
    }
    assert Mapped(Attendance.NormalEvent, out) == out;
    Attendance.DistinctIsFixed(out);
    SortFixesExactlySorted(out, Attendance.Before);
  }

  // ---------- Order and keyless lessons ----------

  // Normal lessons are ordered by date, then by number, then by key, and no two have the same key.
  lemma NormalLessonsAreOrdered(items: seq<Lessons.Lesson>, digest: string -> string, i: nat, j: nat)
    requires Lessons.IsDigest(digest) && i < j < |NormalLessons(items, digest)|
    ensures
      var a, b := NormalLessons(items, digest)[i], NormalLessons(items, digest)[j];
      || Less(a.date, b.date)
      || (a.date == b.date && a.lessonNumber < b.lessonNumber)
      || (a.date == b.date && a.lessonNumber == b.lessonNumber && Less(a.sourceLessonKey, b.sourceLessonKey))
  {
    NormalLessonsAreNormal(items, digest);
    hide NormalLessons, Lessons.IsDigest, Less;
    var out := NormalLessons(items, digest);
    var a, b := out[i], out[j];
    assert !Lessons.Before(b, a) && Trim(a.sourceLessonKey) != Trim(b.sourceLessonKey);
    hide Trim, Lessons.All, Lessons.KeysDistinct, Sorted;
    LessIsStrictTotalOrder(a.date, b.date, b.date);
    LessIsStrictTotalOrder(a.sourceLessonKey, b.sourceLessonKey, b.sourceLessonKey);
  }

  // Normal attendance is ordered by date, then by code, then by key.
  lemma NormalAttendanceIsOrdered(items: seq<Attendance.Event>, i: nat, j: nat)
    requires i < j < |NormalAttendance(items)|
    ensures
      var a, b := NormalAttendance(items)[i], NormalAttendance(items)[j];
      || Less(a.date, b.date)
      || (a.date == b.date && Less(a.code, b.code))
      || (a.date == b.date && a.code == b.code && (Less(a.sourceEventKey, b.sourceEventKey) || a.sourceEventKey == b.sourceEventKey))
  {
    var unique := Attendance.Deduplicated(Mapped(Attendance.NormalEvent, items));
    Attendance.BeforeIsAnOrder();
    SortIsAStableSort(unique, Attendance.Before);
    hide Less, Sort, Attendance.Deduplicated, StrictWeakOrder;
    var out := NormalAttendance(items);
    var a, b := out[i], out[j];
    assert !Attendance.Before(b, a);
    hide NormalAttendance;
    LessIsStrictTotalOrder(a.date, b.date, b.date);
    LessIsStrictTotalOrder(a.code, b.code, b.code);
    LessIsStrictTotalOrder(a.sourceEventKey, b.sourceEventKey, b.sourceEventKey);
  }

  // Lessons without keys that differ pairwise in date, number or subject all come out as lessons of their own.
  lemma KeylessLessonsAreKept(items: seq<Lessons.Lesson>, digest: string -> string)
    requires Lessons.IsDigest(digest) && Lessons.InjectiveDigest(digest)
    requires forall i: nat :: i < |items| ==> Blank(items[i].sourceLessonKey) && Without(':', items[i].date)
    requires forall i: nat, j: nat :: i < j < |items| ==>
               || items[i].date != items[j].date || items[i].lessonNumber != items[j].lessonNumber
               || Lower(Trim(items[i].subjectName)) != Lower(Trim(items[j].subjectName))
    ensures |NormalLessons(items, digest)| == |items|
  {
    var each := EachLesson(items, digest);
    hide Trim, Lower, Blank, Without, Lessons.NormalLesson, Lessons.Deduplicated, Sort;
    forall i: nat, j: nat | i < j < |items|
      ensures Trim(each[i].sourceLessonKey) != Trim(each[j].sourceLessonKey)
    {
      Lessons.KeylessLessonsAreToldApart(items[i], items[j], digest);
      KeyIsTrimmed(items[i], digest);
      KeyIsTrimmed(items[j], digest);
    }
    Lessons.DistinctIsFixed(each);
    SortKeepsLength(each);
  }

  lemma KeyIsTrimmed(l: Lessons.Lesson, digest: string -> string)
    requires Lessons.IsDigest(digest)
    ensures Trim(Lessons.NormalLesson(l, digest).sourceLessonKey) == Lessons.NormalLesson(l, digest).sourceLessonKey
  {
    Lessons.NormalLessonIsNormal(l, digest);
    hide Lessons.NormalLesson, Lessons.IsDigest;
    assert Unpadded(Lessons.NormalLesson(l, digest).sourceLessonKey);
    TrimFixesExactlyUnpadded(Lessons.NormalLesson(l, digest).sourceLessonKey);
  }

  lemma SortKeepsLength(items: seq<Lessons.Lesson>)
    ensures |Sort(items, Lessons.Before)| == |items|
  {
    var out := Sort(items, Lessons.Before);
    assert |out| == |multiset(out)| == |multiset(items)|;
  }

  // ---------- Idempotence ----------

  // Normalising a normalised bundle again changes nothing, whatever the iteration order, exactly when no
  // synthetic grade key of it is another grade's own key.
  lemma IdempotentExactlyWithoutShadow(b: Bundle, n: Bundle, again: Bundle, digest: string -> string)
    requires Lessons.IsDigest(digest) && Normalises(b, n, digest) && Normalises(n, again, digest)
    ensures again == n <==> NoneShadowed(n.lessons)
  {
    hide *;
    PartsOfNormal(b, n, digest);
    PartsOfNormal(n, again, digest);
    NormalIdsAreFixed(b.sourceIds, n.sourceIds, again.sourceIds);
    NormalLessonsAreNormal(b.lessons, digest);
    LessonsFixedExactly(n.lessons, digest);
    NormalAttendanceIsFixed(b.attendance);
    HeaderIsFixed(b, n, again, digest);
  }

  lemma PartsOfNormal(b: Bundle, n: Bundle, digest: string -> string)
    requires Normalises(b, n, digest)
    ensures NormalIds(b.sourceIds, n.sourceIds)
    ensures n.lessons == NormalLessons(b.lessons, digest) && n.attendance == NormalAttendance(b.attendance)
  {
    hide NormalIds, NormalLessons, NormalAttendance, Trim, Fold;
  }

  lemma HeaderIsFixed(b: Bundle, n: Bundle, again: Bundle, digest: string -> string)
    requires Normalises(b, n, digest) && Normalises(n, again, digest)
    ensures again == n.(sourceIds := again.sourceIds, lessons := again.lessons, attendance := again.attendance)
  {
    FoldIsIdempotent(b.source);
    TrimFixesExactlyUnpadded(Trim(b.sourceAccount));
    TrimFixesExactlyUnpadded(Trim(b.idempotencyKey));
    hide Trim, Unpadded, Fold, NormalIds, NormalLessons, NormalAttendance;
  }

  // The lessons delivered under a key, each normalised, merged in the order of the bundle
  function DeliveredAs(items: seq<Lessons.Lesson>, key: string, digest: string -> string): Option<Lessons.Lesson> {
    KeyedFold.AllMerged(Lessons.Keyed(EachLesson(items, digest)), key, Lessons.Merged)
  }

  // No merged lesson of the bundle as delivered has a synthetic grade key that is another grade's own.
  ghost predicate DeliveredUnshadowed(items: seq<Lessons.Lesson>, digest: string -> string) {
    forall key :: DeliveredAs(items, key, digest).Some? ==> !Lessons.Shadowed(DeliveredAs(items, key, digest).value)
  }

  lemma SortedAreDelivered(items: seq<Lessons.Lesson>, digest: string -> string, i: nat)
    requires i < |NormalLessons(items, digest)|
    ensures
      var l := NormalLessons(items, digest)[i];
      DeliveredAs(items, Trim(l.sourceLessonKey), digest) == Some(l)
  {
    var unique := Lessons.Deduplicated(EachLesson(items, digest));
    SortIsTheNormalForm(items, digest);
    hide NormalLessons, EachLesson, Lessons.Deduplicated, KeyedFold.AllMerged, Trim, Sort;
    InPermutation(unique, NormalLessons(items, digest), i);
    var k: nat :| k < |unique| && unique[k] == NormalLessons(items, digest)[i];
    Lessons.DeduplicatedIsMerged(EachLesson(items, digest), k);
  }

  lemma DeliveredAreSorted(items: seq<Lessons.Lesson>, digest: string -> string, key: string)
    requires DeliveredAs(items, key, digest).Some?
    ensures DeliveredAs(items, key, digest).value in NormalLessons(items, digest)
  {
    var each := EachLesson(items, digest);
    var unique := Lessons.Deduplicated(each);
    var l := DeliveredAs(items, key, digest).value;
    SortIsTheNormalForm(items, digest);
    KeyedFold.PutAllMergesEachKey(Lessons.Keyed(each), key, Lessons.Merged);
    hide EachLesson, KeyedFold.PutAll, KeyedFold.AllMerged, Lessons.Merged, Sort;
    var out := KeyedFold.PutAll([], Lessons.Keyed(each), Lessons.Merged);
    var k: nat :| k < |out| && out[k] == KeyedFold.Entry(Some(key), l);
    assert unique[k] == l && l in unique;
    assert l in multiset(unique) && l in multiset(NormalLessons(items, digest));
  }

  lemma UnshadowedAsDelivered(items: seq<Lessons.Lesson>, digest: string -> string)
    ensures NoneShadowed(NormalLessons(items, digest)) <==> DeliveredUnshadowed(items, digest)
  {
    hide NormalLessons, DeliveredAs, Lessons.Shadowed;
    var out := NormalLessons(items, digest);
    if NoneShadowed(out) {
      forall key | DeliveredAs(items, key, digest).Some?
        ensures !Lessons.Shadowed(DeliveredAs(items, key, digest).value)
      {
        DeliveredAreSorted(items, digest, key);
      }
    }
    if DeliveredUnshadowed(items, digest) {
      forall i: nat | i < |out|
        ensures !Lessons.Shadowed(out[i])
      {
        SortedAreDelivered(items, digest, i);
      }
    }
  }

  // The same condition on the bundle as delivered: normalising it twice is normalising it once exactly
  // when none of its lessons, its deliveries merged in their order, has such a key.
  lemma IdempotentExactlyAsDelivered(b: Bundle, n: Bundle, again: Bundle, digest: string -> string)
    requires Lessons.IsDigest(digest) && Normalises(b, n, digest) && Normalises(n, again, digest)
    ensures again == n <==> DeliveredUnshadowed(b.lessons, digest)
  {
    hide *;
    IdempotentExactlyWithoutShadow(b, n, again, digest);
    PartsOfNormal(b, n, digest);
    UnshadowedAsDelivered(b.lessons, digest);
  }

  predicate Unreserved(l: Lessons.Lesson) {
    Grades.NoReservedKeys(l.grades)
  }

  // The bundles the normal form is meant for: none of their grade keys begins with "index:".
  lemma IdempotentWithoutReservedKeys(b: Bundle, n: Bundle, again: Bundle, digest: string -> string)
    requires Lessons.IsDigest(digest) && Normalises(b, n, digest) && Normalises(n, again, digest)
    requires Lessons.All(b.lessons, Unreserved)
    ensures again == n
  {
    hide *;
    IdempotentExactlyWithoutShadow(b, n, again, digest);
    PartsOfNormal(b, n, digest);
    UnreservedStays(b.lessons, digest);
    UnreservedIsUnshadowed(n.lessons);
  }

  lemma UnreservedIsUnshadowed(items: seq<Lessons.Lesson>)
    requires Lessons.All(items, Unreserved)
    ensures NoneShadowed(items)
  {
    hide Grades.Clash, Grades.NoReservedKeys;
    forall i: nat | i < |items|
      ensures !Lessons.Shadowed(items[i])
    {
      assert Unreserved(items[i]);
      Grades.NoReservedKeysNoClash(items[i].grades);
    }
  }

  lemma UnreservedStays(items: seq<Lessons.Lesson>, digest: string -> string)
    requires Lessons.All(items, Unreserved)
    ensures Lessons.All(NormalLessons(items, digest), Unreserved)
  {
    var each := EachLesson(items, digest);
    assert Lessons.All(each, Unreserved) by {
      hide Trim, Lessons.NormalLesson, Unreserved;
      forall i: nat | i < |items|
        ensures Unreserved(each[i])
      {
        assert Unreserved(items[i]);
        NormalLessonStaysUnreserved(items[i], digest);
      }
    }
    hide *;
    SortIsTheNormalForm(items, digest);
    MergedStaysUnreserved();
    Lessons.DeduplicatedKeeps(each, Unreserved);
    SortKeepsLessons(Lessons.Deduplicated(each), Unreserved);
  }

  lemma DeduplicatedStaysUnreserved(items: seq<Grades.Grade>)
    requires Grades.NoReservedKeys(items)
    ensures Grades.NoReservedKeys(Grades.Deduplicated(items))
  {
    Grades.DeduplicatedIsSettled(items);
    hide Trim, Grades.Deduplicated, Grades.Settled;
  }

  lemma NormalLessonStaysUnreserved(l: Lessons.Lesson, digest: string -> string)
    requires Unreserved(l)
    ensures Unreserved(Lessons.NormalLesson(l, digest))
  {
    var grades := Grades.NormalGrades(l.grades);
    hide Trim, Grades.Deduplicated, Grades.NormalGrade, Lessons.DefaultKey;
    forall i: nat | i < |grades|
      ensures Trim(grades[i].sourceGradeKey) == Trim(l.grades[i].sourceGradeKey)
    {
      Grades.NormalGradeIsIdempotent(l.grades[i]);
    }
    DeduplicatedStaysUnreserved(grades);
  }

  lemma MergedStaysUnreserved()
    ensures KeyedFold.Closed(Lessons.Merged, Unreserved)
  {
    hide Trim, Grades.Deduplicated, Lessons.Significant;
    forall a, b | Unreserved(a) && Unreserved(b)
      ensures Unreserved(Lessons.Merged(a, b))
    {
      if b.grades != [] {
        DeduplicatedStaysUnreserved(a.grades + b.grades);
      }
    }
    hide Lessons.Merged, Unreserved;
  }

  // A bundle with one lesson whose grades are a blank one, one without a key and one with a reserved key:
  // normalising it twice loses a grade.
  lemma ReservedKeyDefeatsNormalisation(b: Bundle, n: Bundle, again: Bundle, digest: string -> string)
    requires Normalises(b, n, digest) && Normalises(n, again, digest)
    requires |b.lessons| == 1
    requires b.lessons[0].grades ==
             [Grades.Grade("", "", "", "regular", false), Grades.Grade("", "5", "", "regular", false),
              Grades.Grade("index:0:regular:5", "4", "", "regular", false)]
    ensures |n.lessons| == 1 && |again.lessons| == 1
    ensures n.lessons[0].grades ==
            [Grades.Grade("", "5", "", "regular", false), Grades.Grade("index:0:regular:5", "4", "", "regular", false)]
    ensures again.lessons[0].grades == [Grades.Grade("index:0:regular:5", "4", "", "regular", false)]
  {
    hide *;
    PartsOfNormal(b, n, digest);
    PartsOfNormal(n, again, digest);
    SingleLesson(b.lessons, digest);
    SingleLesson(n.lessons, digest);
    Grades.ReservedKeyDefeatsIdempotence();
    assert forall i :: 0 <= i < 3 ==>
      Unpadded(b.lessons[0].grades[i].sourceGradeKey) && Unpadded(b.lessons[0].grades[i].value) by {
      ConcreteIsUnpadded();
    }
    PlainGradesAreNormal(b.lessons[0].grades);
    assert Grades.NormalGrades(b.lessons[0].grades) == b.lessons[0].grades;
    assert n.lessons[0].grades == [b.lessons[0].grades[1], b.lessons[0].grades[2]];
    assert Grades.NormalGrades(n.lessons[0].grades) == n.lessons[0].grades;
  }

  lemma ConcreteIsUnpadded()
    ensures Unpadded("") && Unpadded("4") && Unpadded("5") && Unpadded("index:0:regular:5")
  {
  }

  lemma PlainGradesAreNormal(items: seq<Grades.Grade>)
    requires forall i: nat :: i < |items| ==>
               && Unpadded(items[i].sourceGradeKey) && Unpadded(items[i].value)
               && items[i].mood == "" && items[i].gradeType == "regular"
    ensures forall i: nat :: i < |items| ==> Grades.NormalGrade(items[i]) == items[i]
  {
    TrimFixesExactlyUnpadded("");
    Grades.RegularIsNormal();
    hide Trim, Lower;
    forall i: nat | i < |items|
      ensures Grades.NormalGrade(items[i]) == items[i]
    {
      TrimFixesExactlyUnpadded(items[i].sourceGradeKey);
      TrimFixesExactlyUnpadded(items[i].value);
    }
  }

  lemma SingleLesson(items: seq<Lessons.Lesson>, digest: string -> string)
    requires |items| == 1
    ensures |NormalLessons(items, digest)| == 1
    ensures NormalLessons(items, digest)[0].grades == Grades.Deduplicated(Grades.NormalGrades(items[0].grades))
  {
    var each := EachLesson(items, digest);
    assert each[0].grades == Grades.Deduplicated(Grades.NormalGrades(items[0].grades));
    hide Lessons.NormalLesson, Lessons.Before, Lessons.Deduplicated, Sort;
    Lessons.DistinctIsFixed(each);
    SortOfOne(each);
  }

  lemma SortOfOne(items: seq<Lessons.Lesson>)
    requires |items| == 1
    ensures Sort(items, Lessons.Before) == items
  {
    hide Lessons.Before;
    assert Sort(items[1..], Lessons.Before) == [];
  }

  // ---------- The order of the source ids ----------

  // Source ids whose keys have one normal form have one normal value.
  ghost predicate Consistent(ids: map<string, string>) {
    forall x, y :: Kept(ids, x) && Kept(ids, y) && Fold(x) == Fold(y) ==> Trim(ids[x]) == Trim(ids[y])
  }

  ghost predicate HasNormalKey(ids: map<string, string>, k: string) {
    exists x :: Kept(ids, x) && Fold(x) == k
  }

  ghost function Picked(ids: map<string, string>, k: string): (x: string)
    requires HasNormalKey(ids, k)
    ensures Kept(ids, x) && Fold(x) == k
  {
    var x :| Kept(ids, x) && Fold(x) == k;
    x
  }

  ghost function NormalKeys(ids: map<string, string>): (keys: set<string>)
    ensures forall k :: k in keys <==> HasNormalKey(ids, k)
  {
    hide Fold, Trim, Blank;
    set x | x in ids && Kept(ids, x) :: Fold(x)
  }

  // Normal ids in which the value of x wins
  ghost function Preferring(ids: map<string, string>, x: string): map<string, string>
    requires Kept(ids, x)
  {
    map k | k in NormalKeys(ids) :: if k == Fold(x) then Trim(ids[x]) else Trim(ids[Picked(ids, k)])
  }

  lemma PreferringIsNormal(ids: map<string, string>, x: string)
    requires Kept(ids, x)
    ensures NormalIds(ids, Preferring(ids, x)) && Fold(x) in Preferring(ids, x)
    ensures Preferring(ids, x)[Fold(x)] == Trim(ids[x])
  {
    hide Fold, Trim, Blank, NormalKeys;
    assert HasNormalKey(ids, Fold(x));
  }

  // The normal form of a bundle does not depend on the iteration order exactly when its source ids are
  // consistent.
  lemma OneNormalFormExactly(b: Bundle, digest: string -> string)
    ensures Consistent(b.sourceIds) <==>
            forall n, m :: Normalises(b, n, digest) && Normalises(b, m, digest) ==> n == m
  {
    if Consistent(b.sourceIds) {
      forall n, m | Normalises(b, n, digest) && Normalises(b, m, digest)
        ensures n == m
      {
        ConsistentIdsAgree(b.sourceIds, n.sourceIds, m.sourceIds);
      }
    } else {
      TwoNormalForms(b, digest);
    }
    hide *;
  }

  // Two source ids that differ in case only and have different values are an example.
  lemma CaseOnlyIdsAreInconsistent(b: Bundle, digest: string -> string)
    requires b.sourceIds == map["a" := "1", "A" := "2"]
    ensures !Consistent(b.sourceIds)
    ensures exists n, m :: Normalises(b, n, digest) && Normalises(b, m, digest) && n != m
  {
    assert Lower("a") == "a" && Lower("A") == "a";
    assert !Consistent(b.sourceIds) by {
      ShortTexts();
      hide Trim, Lower;
      assert Kept(b.sourceIds, "a") && Kept(b.sourceIds, "A") && Fold("a") == Fold("A");
      assert Trim(b.sourceIds["a"]) == "1" && Trim(b.sourceIds["A"]) == "2";
    }
    hide *;
    TwoNormalForms(b, digest);
  }

  lemma ShortTexts()
    ensures Trim("a") == "a" && Trim("A") == "A" && Trim("1") == "1" && Trim("2") == "2"
  {
    hide Trim;
    TrimFixesExactlyUnpadded("a");
    TrimFixesExactlyUnpadded("A");
    TrimFixesExactlyUnpadded("1");
    TrimFixesExactlyUnpadded("2");
  }

  lemma ConsistentIdsAgree(ids: map<string, string>, out: map<string, string>, other: map<string, string>)
    requires Consistent(ids) && NormalIds(ids, out) && NormalIds(ids, other)
    ensures out == other
  {
    hide Fold, Trim, Kept;
    assert forall k :: k in out ==> k in other && other[k] == out[k];
    assert forall k :: k in other ==> k in out;
  }

  lemma TwoNormalForms(b: Bundle, digest: string -> string)
    requires !Consistent(b.sourceIds)
    ensures exists n, m :: Normalises(b, n, digest) && Normalises(b, m, digest) && n != m
  {
    hide Fold, Trim, NormalLessons, NormalAttendance, NormalIds, Preferring;
    var ids := b.sourceIds;
    var x, y :| Kept(ids, x) && Kept(ids, y) && Fold(x) == Fold(y) && Trim(ids[x]) != Trim(ids[y]);
    PreferringIsNormal(ids, x);
    PreferringIsNormal(ids, y);
    var n, m := WithIds(b, Preferring(ids, x), digest), WithIds(b, Preferring(ids, y), digest);
    assert Normalises(b, n, digest) && Normalises(b, m, digest);
    assert n.sourceIds[Fold(x)] != m.sourceIds[Fold(x)];
  }

  // ---------- The order of the input ----------

  // Reordered lessons with distinct keys, and reordered attendance with distinct keys of its own, have
  // the same normal form, and so the same checksum.
  lemma OrderDoesNotMatter(b: Bundle, c: Bundle, n: Bundle, digest: string -> string)
    requires Normalises(b, n, digest)
    requires c == b.(lessons := c.lessons, attendance := c.attendance)
    requires multiset(c.lessons) == multiset(b.lessons) && multiset(c.attendance) == multiset(b.attendance)
    requires Lessons.KeysDistinct(EachLesson(b.lessons, digest)) && DistinctOwnKeys(b.attendance)
    ensures Normalises(c, n, digest)
  {
    hide *;
    LessonOrderDoesNotMatter(b.lessons, c.lessons, digest);
    AttendanceOrderDoesNotMatter(b.attendance, c.attendance);
    SameNormalForm(b, c, n, digest);
  }

  lemma SameNormalForm(b: Bundle, c: Bundle, n: Bundle, digest: string -> string)
    requires Normalises(b, n, digest) && c == b.(lessons := c.lessons, attendance := c.attendance)
    requires NormalLessons(c.lessons, digest) == NormalLessons(b.lessons, digest)
    requires NormalAttendance(c.attendance) == NormalAttendance(b.attendance)
    ensures Normalises(c, n, digest)
  {
    hide Trim, Fold, NormalIds, NormalLessons, NormalAttendance;
  }

  lemma LessonOrderDoesNotMatter(xs: seq<Lessons.Lesson>, ys: seq<Lessons.Lesson>, digest: string -> string)
    requires multiset(xs) == multiset(ys) && Lessons.KeysDistinct(EachLesson(xs, digest))
    ensures NormalLessons(xs, digest) == NormalLessons(ys, digest)
  {
    var ex, ey := EachLesson(xs, digest), EachLesson(ys, digest);
    MappedPermutes((l: Lessons.Lesson) => Lessons.NormalLesson(l, digest), xs, ys);
    hide Lessons.NormalLesson, Lessons.KeysDistinct;
    LessonKeysSurvive(ex, ey);
    Lessons.DistinctIsFixed(ex);
    Lessons.DistinctIsFixed(ey);
    Lessons.BeforeIsAnOrder();
    Lessons.DistinctKeysNeverTie(ex);
    SortForgetsOrder(ex, ey, Lessons.Before);
  }

  // Every event has a key of its own, and no two have the same.
  predicate DistinctOwnKeys(items: seq<Attendance.Event>) {
    && (forall i: nat :: i < |items| ==> !Blank(items[i].sourceEventKey))
    && (forall i: nat, j: nat :: i < j < |items| ==> Trim(items[i].sourceEventKey) != Trim(items[j].sourceEventKey))
  }

  lemma AttendanceOrderDoesNotMatter(xs: seq<Attendance.Event>, ys: seq<Attendance.Event>)
    requires multiset(xs) == multiset(ys) && DistinctOwnKeys(xs)
    ensures NormalAttendance(xs) == NormalAttendance(ys)
  {
    var ex, ey := Mapped(Attendance.NormalEvent, xs), Mapped(Attendance.NormalEvent, ys);
    MappedPermutes(Attendance.NormalEvent, xs, ys);
    OwnKeysStayDistinct(xs);
    hide Attendance.NormalEvent, Attendance.KeysDistinct;
    EventKeysSurvive(ex, ey);
    Attendance.DistinctIsFixed(ex);
    Attendance.DistinctIsFixed(ey);
    Attendance.BeforeIsAnOrder();
    SortForgetsOrder(ex, ey, Attendance.Before);
  }

  lemma OwnKeyIsTheEventKey(e: Attendance.Event)
    requires !Blank(e.sourceEventKey)
    ensures Attendance.NormalEvent(e).sourceEventKey == Trim(e.sourceEventKey)
    ensures Attendance.EventKey(Attendance.NormalEvent(e)) == Trim(e.sourceEventKey)
  {
    TrimFixesExactlyUnpadded(Trim(e.sourceEventKey));
    hide Trim, Unpadded, Fold, Lower;
  }

  lemma OwnKeysStayDistinct(xs: seq<Attendance.Event>)
    requires DistinctOwnKeys(xs)
    ensures Attendance.KeysDistinct(Mapped(Attendance.NormalEvent, xs))
    ensures NoTies(Mapped(Attendance.NormalEvent, xs), Attendance.Before)
  {
    var each := Mapped(Attendance.NormalEvent, xs);
    hide Trim, Attendance.NormalEvent, Attendance.EventKey, Tied;
    forall i: nat | i < |xs|
      ensures each[i].sourceEventKey == Trim(xs[i].sourceEventKey) == Attendance.EventKey(each[i])
    {
      OwnKeyIsTheEventKey(xs[i]);
    }
    hide Blank;
    assert Attendance.KeysDistinct(each);
    forall i: nat, j: nat | i < |each| && j < |each| && Tied(each[i], each[j], Attendance.Before)
      ensures each[i] == each[j]
    {
      Attendance.TiesShareTheKey(each[i], each[j]);
    }
  }
}
