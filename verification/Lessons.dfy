/** Lessons of a v1 bundle: merging two deliveries of one lesson, deduplication, normal form and order. */
module Lessons {
  import opened Wrappers
  import opened Text
  import opened KeyedFold
  import opened StableSort
  import Grades

  datatype Homework = Homework(sourceHomeworkKey: string, description: string, requiresPhoto: bool)

  datatype Lesson = Lesson(
    sourceLessonKey: string, date: string, lessonNumber: int, subjectName: string, lessonPlace: string,
    startTime: string, endTime: string, topicTitle: string, homework: Homework, grades: seq<Grades.Grade>)

  // ---------- Merging ----------

  function Later(base: string, incoming: string): string {
    if incoming != "" then incoming else base
  }

  predicate Significant(h: Homework) {
    !Blank(h.description) || h.requiresPhoto || h.sourceHomeworkKey != ""
  }

  // mergeLessons: what the later delivery states wins, what it leaves out stays
  function Merged(base: Lesson, incoming: Lesson): Lesson {
    Lesson(
      base.sourceLessonKey,
      Later(base.date, incoming.date),
      if incoming.lessonNumber >= 0 then incoming.lessonNumber else base.lessonNumber,
      Later(base.subjectName, incoming.subjectName),
      Later(base.lessonPlace, incoming.lessonPlace),
      Later(base.startTime, incoming.startTime),
      Later(base.endTime, incoming.endTime),
      Later(base.topicTitle, incoming.topicTitle),
      if Significant(incoming.homework) then incoming.homework else base.homework,
      Grades.Combined(base.grades, incoming.grades))
  }

  predicate Clean(l: Lesson) {
    Grades.Clean(l.grades)
  }

  lemma MergingIsAssociative(a: Lesson, b: Lesson, c: Lesson)
    requires Clean(a) && Clean(b) && Clean(c)
    ensures Merged(Merged(a, b), c) == Merged(a, Merged(b, c))
    ensures Clean(Merged(a, b))
  {
    hide Significant, Grades.Combined, Grades.Clean;
    Grades.CombinedIsAssociative(a.grades, b.grades, c.grades);
    Grades.CombinedIsFiling(a.grades, b.grades);
  }

  lemma MergingIsAssociativeOnClean()
    ensures Associative(Merged, Clean)
  {
    forall a, b, c | Clean(a) && Clean(b) && Clean(c)
      ensures Merged(Merged(a, b), c) == Merged(a, Merged(b, c))
    {
      MergingIsAssociative(a, b, c);
    }
    forall a, b | Clean(a) && Clean(b)
      ensures Clean(Merged(a, b))
    {
      MergingIsAssociative(a, b, b);
    }
    hide Merged, Clean;
  }

  // ---------- Deduplication ----------

  function Keyed(items: seq<Lesson>): (es: seq<Entry<Lesson>>)
    ensures |es| == |items|
    ensures forall i :: 0 <= i < |items| ==> es[i] == Entry(Some(Trim(items[i].sourceLessonKey)), items[i])
  {
    seq(|items|, i requires 0 <= i < |items| => Entry(Some(Trim(items[i].sourceLessonKey)), items[i]))
  }

  function Deduplicated(items: seq<Lesson>): seq<Lesson> {
    Values(PutAll([], Keyed(items), Merged))
  }

  predicate KeysDistinct(items: seq<Lesson>) {
    forall i: nat, j: nat :: i < j < |items| ==> Trim(items[i].sourceLessonKey) != Trim(items[j].sourceLessonKey)
  }

  // The later delivery's fields replace the earlier one's, each under its own condition.
  method MergeLessons(base: Lesson, incoming: Lesson) returns (merged: Lesson)
    ensures merged == Merged(base, incoming)
  {
    hide Trim, Grades.Deduplicated;
    merged := MergeTexts(base, incoming);
    if incoming.lessonNumber >= 0 {
      merged := merged.(lessonNumber := incoming.lessonNumber);
    }
    var homework := incoming.homework;
    if Trim(homework.description) != "" || homework.requiresPhoto || homework.sourceHomeworkKey != "" {
      merged := merged.(homework := homework);
    }
    if |incoming.grades| > 0 {
      var grades := Grades.DeduplicateGrades(base.grades + incoming.grades);
      merged := merged.(grades := grades);
    }
  }

  method MergeTexts(base: Lesson, incoming: Lesson) returns (merged: Lesson)
    ensures merged == base.(
              date := Later(base.date, incoming.date), lessonPlace := Later(base.lessonPlace, incoming.lessonPlace),
              subjectName := Later(base.subjectName, incoming.subjectName),
              startTime := Later(base.startTime, incoming.startTime), endTime := Later(base.endTime, incoming.endTime),
              topicTitle := Later(base.topicTitle, incoming.topicTitle))
  {
    var date, place, subject := base.date, base.lessonPlace, base.subjectName;
    if incoming.date != "" {
      date := incoming.date;
    }
    if incoming.lessonPlace != "" {
      place := incoming.lessonPlace;
    }
    if incoming.subjectName != "" {
      subject := incoming.subjectName;
    }
    var start, end, topic := base.startTime, base.endTime, base.topicTitle;
    if incoming.startTime != "" {
      start := incoming.startTime;
    }
    if incoming.endTime != "" {
      end := incoming.endTime;
    }
    if incoming.topicTitle != "" {
      topic := incoming.topicTitle;
    }
    merged := base.(date := date, lessonPlace := place, subjectName := subject, startTime := start, endTime := end, topicTitle := topic);
  }

  method DeduplicateLessons(items: seq<Lesson>) returns (out: seq<Lesson>)
    ensures out == Deduplicated(items)
  {
    hide Trim, Merged;
    if |items| <= 1 {
      DistinctIsFixed(items);
      return items;
    }
    var byKey: map<string, Lesson> := map[];
    var order: seq<string> := [];
    ghost var filed: seq<Entry<Lesson>> := [];
    assert filed == PutAll([], Keyed(items[..0]), Merged) by {
      assert items[..0] == [];
    }
    hide Put, PutAll, Represents, Distinct;
    EmptyTable<Lesson>();
    for index := 0 to |items|
      invariant filed == PutAll([], Keyed(items[..index]), Merged)
      invariant Distinct(filed) && Represents(byKey, order, filed)
    {
      var lesson := items[index];
      var key := Trim(lesson.sourceLessonKey);
      assert Keyed(items[..index + 1]) == Keyed(items[..index]) + [Entry(Some(key), lesson)];
      PutAllNext([], Keyed(items[..index]), Entry(Some(key), lesson), Merged);
      PutInMap(byKey, order, filed, key, lesson, Merged);
      filed := Put(filed, Entry(Some(key), lesson), Merged);
      if key !in byKey {
        byKey, order := byKey[key := lesson], order + [key];
      } else {
        var merged := MergeLessons(byKey[key], lesson);
        byKey := byKey[key := merged];
      }
    }
    assert items[..|items|] == items;
    out := Listed(byKey, order, filed);
  }

  lemma DistinctIsFixed(items: seq<Lesson>)
    requires KeysDistinct(items)
    ensures Deduplicated(items) == items
  {
    hide Trim, Merged;
    assert [] + Keyed(items) == Keyed(items);
    PutAllOfFresh([], Keyed(items), Merged);
  }

  // Every entry is filed under its own value's key.
  lemma {:induction false} FiledUnderOwnKey(items: seq<Lesson>)
    ensures Keyed(Deduplicated(items)) == PutAll([], Keyed(items), Merged)
    ensures KeysDistinct(Deduplicated(items))
  {
    PutAllKeepsDistinct([], Keyed(items), Merged);
    OwnKeysStay(Keyed(items));
    hide PutAll, Trim, Merged;
  }

  ghost predicate OwnKeys(es: seq<Entry<Lesson>>) {
    forall i: nat :: i < |es| ==> es[i].key == Some(Trim(es[i].value.sourceLessonKey))
  }

  lemma {:induction false} OwnKeysStay(es: seq<Entry<Lesson>>)
    requires OwnKeys(es)
    ensures OwnKeys(PutAll([], es, Merged))
  {
    hide Trim, Grades.Combined, Significant;
    if es != [] {
      OwnKeysStay(es[..|es| - 1]);
    }
  }

  ghost predicate All(items: seq<Lesson>, ok: Lesson -> bool) {
    forall i: nat :: i < |items| ==> ok(items[i])
  }

  lemma KeyedSplits(xs: seq<Lesson>, ys: seq<Lesson>)
    ensures Keyed(xs + ys) == Keyed(xs) + Keyed(ys)
  {
  }

  // Deduplication can be done piecewise where the grades of each lesson are clean.
  lemma DeduplicationIsPiecewise(xs: seq<Lesson>, ys: seq<Lesson>)
    requires All(xs, Clean) && All(ys, Clean)
    ensures Deduplicated(xs + ys) == Deduplicated(Deduplicated(xs) + Deduplicated(ys))
  {
    assert AllOk(Keyed(xs), Clean) && AllOk(Keyed(ys), Clean);
    MergingIsAssociativeOnClean();
    hide Merged, Clean, PutAll, Values, AllOk, Associative, KeysDistinct, Keyed;
    FiledUnderOwnKey(xs);
    FiledUnderOwnKey(ys);
    PutAllOfConcatenation(Keyed(xs), Keyed(ys), Merged, Clean);
    KeyedSplits(xs, ys);
    KeyedSplits(Deduplicated(xs), Deduplicated(ys));
  }

  // What holds of all lessons and survives merging holds of all deduplicated lessons.
  lemma DeduplicatedKeeps(items: seq<Lesson>, ok: Lesson -> bool)
    requires Closed(Merged, ok) && All(items, ok)
    ensures All(Deduplicated(items), ok)
  {
    hide Merged, PutAll;
    PutAllKeepsOk([], Keyed(items), Merged, ok);
  }

  // ---------- The last statement wins ----------

  // The last value that a lesson with the key states for a field, if any does
  function LastStated<T>(items: seq<Lesson>, key: string, field: Lesson -> T, states: T -> bool): Option<T> {
    if items == [] then None
    else
      var n := |items| - 1;
      if Trim(items[n].sourceLessonKey) == key && states(field(items[n])) then Some(field(items[n]))
      else LastStated(items[..n], key, field, states)
  }

  // The value is the last one stated or, if none was, states nothing itself.
  predicate Follows<T(==)>(value: T, items: seq<Lesson>, key: string, field: Lesson -> T, states: T -> bool) {
    var last := LastStated(items, key, field, states);
    if last.Some? then value == last.value else !states(value)
  }

  // Merging takes the field from the later lesson if that states it.
  ghost predicate TakesLater<T>(field: Lesson -> T, states: T -> bool) {
    forall a, b :: field(Merged(a, b)) == if states(field(b)) then field(b) else field(a)
  }

  lemma {:induction false} FieldFollows<T>(items: seq<Lesson>, key: string, field: Lesson -> T, states: T -> bool)
    requires TakesLater(field, states)
    ensures
      var merged := AllMerged(Keyed(items), key, Merged);
      if merged.None? then LastStated(items, key, field, states).None?
      else Follows(field(merged.value), items, key, field, states)
  {
    hide Merged, Trim;
    if items != [] {
      var n := |items| - 1;
      FieldFollows(items[..n], key, field, states);
      assert Keyed(items)[..n] == Keyed(items[..n]);
    }
  }

  lemma DeduplicatedFieldFollows<T>(items: seq<Lesson>, i: nat, field: Lesson -> T, states: T -> bool)
    requires i < |Deduplicated(items)| && TakesLater(field, states)
    ensures
      var l := Deduplicated(items)[i];
      Follows(field(l), items, Trim(l.sourceLessonKey), field, states)
  {
    var key := Trim(Deduplicated(items)[i].sourceLessonKey);
    FieldFollows(items, key, field, states);
    hide Follows, TakesLater, LastStated, Trim, Merged;
    DeduplicatedIsMerged(items, i);
  }

  lemma DeduplicatedIsMerged(items: seq<Lesson>, i: nat)
    requires i < |Deduplicated(items)|
    ensures
      var l := Deduplicated(items)[i];
      AllMerged(Keyed(items), Trim(l.sourceLessonKey), Merged) == Some(l)
  {
    hide Merged, Trim, PutAll, AllMerged;
    var key := Trim(Deduplicated(items)[i].sourceLessonKey);
    var out := PutAll([], Keyed(items), Merged);
    FiledUnderOwnKey(items);
    PutAllMergesEachKey(Keyed(items), key, Merged);
    assert out[i] == Keyed(Deduplicated(items))[i];
    var merged := AllMerged(Keyed(items), key, Merged);
    var k: nat :| k < |out| && out[k] == Entry(Some(key), merged.value);
    assert Keyed(Deduplicated(items))[k].key == Some(key);
  }

  predicate Nonempty(s: string) {
    s != ""
  }

  predicate Numbered(n: int) {
    n >= 0
  }

  // Each deduplicated lesson carries the last date, subject, place, times and topic that is not empty,
  // the last number that is not negative and the last significant homework stated for its key.
  lemma LastStatementWins(items: seq<Lesson>, i: nat)
    requires i < |Deduplicated(items)|
    ensures
      var l := Deduplicated(items)[i];
      var key := Trim(l.sourceLessonKey);
      && Follows(l.date, items, key, (x: Lesson) => x.date, Nonempty)
      && Follows(l.subjectName, items, key, (x: Lesson) => x.subjectName, Nonempty)
      && Follows(l.lessonPlace, items, key, (x: Lesson) => x.lessonPlace, Nonempty)
      && Follows(l.startTime, items, key, (x: Lesson) => x.startTime, Nonempty)
      && Follows(l.endTime, items, key, (x: Lesson) => x.endTime, Nonempty)
      && Follows(l.topicTitle, items, key, (x: Lesson) => x.topicTitle, Nonempty)
      && Follows(l.lessonNumber, items, key, (x: Lesson) => x.lessonNumber, Numbered)
      && Follows(l.homework, items, key, (x: Lesson) => x.homework, Significant)
  {
    hide Trim, Follows, Deduplicated, Significant, Grades.Combined;
    DeduplicatedFieldFollows(items, i, (x: Lesson) => x.date, Nonempty);
    DeduplicatedFieldFollows(items, i, (x: Lesson) => x.subjectName, Nonempty);
    DeduplicatedFieldFollows(items, i, (x: Lesson) => x.lessonPlace, Nonempty);
    DeduplicatedFieldFollows(items, i, (x: Lesson) => x.startTime, Nonempty);
    DeduplicatedFieldFollows(items, i, (x: Lesson) => x.endTime, Nonempty);
    DeduplicatedFieldFollows(items, i, (x: Lesson) => x.topicTitle, Nonempty);
    DeduplicatedFieldFollows(items, i, (x: Lesson) => x.lessonNumber, Numbered);
    DeduplicatedFieldFollows(items, i, (x: Lesson) => x.homework, Significant);
  }

  // ---------- No grade is lost ----------

  // The grades of all lessons with the key, in the order of delivery
  function AllGrades(items: seq<Lesson>, key: string): seq<Grades.Grade> {
    if items == [] then []
    else
      var n := |items| - 1;
      AllGrades(items[..n], key) + if Trim(items[n].sourceLessonKey) == key then items[n].grades else []
  }

  lemma {:induction false} MergedGradesAreFiled(items: seq<Lesson>, key: string)
    requires All(items, Clean)
    ensures Grades.NoneBlank(AllGrades(items, key)) && Grades.NoReservedKeys(AllGrades(items, key))
    ensures
      var merged := AllMerged(Keyed(items), key, Merged);
      && (merged.Some? ==>
            && Clean(merged.value)
            && Grades.Filed(merged.value.grades) == PutAll([], Grades.Filed(AllGrades(items, key)), Last))
      && (merged.None? ==> AllGrades(items, key) == [])
  {
    hide Trim, Grades.Own, Grades.Combined, Significant, PutAll, Grades.OwnKeysDistinct, Blank;
    if items != [] {
      var n := |items| - 1;
      MergedGradesAreFiled(items[..n], key);
      assert Keyed(items)[..n] == Keyed(items[..n]);
      assert Clean(items[n]);
      if Trim(items[n].sourceLessonKey) == key {
        var before := AllMerged(Keyed(items[..n]), key, Merged);
        var earlier := AllGrades(items[..n], key);
        GradesJoin(earlier, items[n].grades);
        Grades.FiledSplits(earlier, items[n].grades);
        PutAllSplits([], Grades.Filed(earlier), Grades.Filed(items[n].grades), Last);
        if before.Some? {
          Grades.CombinedIsFiling(before.value.grades, items[n].grades);
        } else {
          Grades.FiledTogether(items[n].grades, []);
          assert earlier + items[n].grades == items[n].grades && items[n].grades + [] == items[n].grades;
          Grades.CleanIsFiled(items[n].grades);
        }
      } else {
        assert AllGrades(items, key) == AllGrades(items[..n], key);
      }
    }
  }

  lemma GradesJoin(a: seq<Grades.Grade>, b: seq<Grades.Grade>)
    requires Grades.NoneBlank(a) && Grades.NoReservedKeys(a) && Grades.NoneBlank(b) && Grades.NoReservedKeys(b)
    ensures Grades.NoneBlank(a + b) && Grades.NoReservedKeys(a + b)
  {
    hide Trim, Blank;
  }

  // Where the grades of each delivery are clean, a deduplicated lesson has exactly the grades of all the
  // lessons with its key, deduplicated together.
  lemma GradesAreAllGathered(items: seq<Lesson>, i: nat)
    requires All(items, Clean) && i < |Deduplicated(items)|
    ensures
      var l := Deduplicated(items)[i];
      l.grades == Grades.Deduplicated(AllGrades(items, Trim(l.sourceLessonKey)))
  {
    var l := Deduplicated(items)[i];
    var all := AllGrades(items, Trim(l.sourceLessonKey));
    DeduplicatedIsMerged(items, i);
    MergedGradesAreFiled(items, Trim(l.sourceLessonKey));
    Grades.PositionsDoNotMatter(all);
    hide Trim, AllMerged, PutAll, Grades.Deduplicated, Deduplicated, Grades.Own;
    assert Values(Grades.Filed(l.grades)) == l.grades;
  }

  // ---------- Normal form ----------

  function Number(n: int): string {
    if n < 0 then "-" + Decimal(-n) else Decimal(n)
  }

  // defaultLessonKey; digest stands for the hexadecimal SHA-256 of its argument
  function DefaultKey(l: Lesson, digest: string -> string): string {
    digest(l.date + ":" + Number(l.lessonNumber) + ":" + Fold(l.subjectName))
  }

  lemma NumbersTellApart(m: int, n: int)
    ensures Number(m) == Number(n) <==> m == n
    ensures Without(':', Number(m)) && Without(':', Number(n))
  {
    NumberIsPlain(m);
    NumberIsPlain(n);
    DecimalIsInjective(if m >= 0 then m else -m, if n >= 0 then n else -n);
    hide Decimal, Without;
    if m < 0 && n < 0 && Number(m) == Number(n) {
      assert Number(m)[1..] == Decimal(-m) && Number(n)[1..] == Decimal(-n);
    }
  }

  lemma NumberIsPlain(n: int)
    ensures Without(':', Number(n)) && Number(n) != "" && (Number(n)[0] == '-' <==> n < 0)
  {
    DecimalIsPlain(if n >= 0 then n else -n, ':');
    DecimalIsPlain(if n >= 0 then n else -n, '-');
    hide Decimal;
  }

  ghost predicate InjectiveDigest(digest: string -> string) {
    forall s, t :: digest(s) == digest(t) ==> s == t
  }

  // Two lessons without keys come out of normalisation with one key exactly if they have the same date
  // and number and subjects that differ in case and padding at most.
  lemma KeylessLessonsAreToldApart(l: Lesson, m: Lesson, digest: string -> string)
    requires InjectiveDigest(digest) && Blank(l.sourceLessonKey) && Blank(m.sourceLessonKey)
    requires Without(':', l.date) && Without(':', m.date)
    ensures NormalLesson(l, digest).sourceLessonKey == NormalLesson(m, digest).sourceLessonKey <==>
            && l.date == m.date && l.lessonNumber == m.lessonNumber
            && Lower(Trim(l.subjectName)) == Lower(Trim(m.subjectName))
  {
    NumbersTellApart(l.lessonNumber, m.lessonNumber);
    hide Blank, Trim, Lower, Number, Without, Grades.Deduplicated;
    var s := (Number(l.lessonNumber) + ":") + Fold(l.subjectName);
    var t := (Number(m.lessonNumber) + ":") + Fold(m.subjectName);
    var a, b := l.date + ":" + Number(l.lessonNumber) + ":" + Fold(l.subjectName),
                m.date + ":" + Number(m.lessonNumber) + ":" + Fold(m.subjectName);
    assert a == (l.date + ":") + s && b == (m.date + ":") + t;
    assert NormalLesson(l, digest).sourceLessonKey == digest(a) && NormalLesson(m, digest).sourceLessonKey == digest(b);
    if digest(a) == digest(b) {
      DelimitedIsInjective(':', l.date, s, m.date, t);
      DelimitedIsInjective(':', Number(l.lessonNumber), Fold(l.subjectName), Number(m.lessonNumber), Fold(m.subjectName));
    }
  }

  ghost predicate IsDigest(digest: string -> string) {
    forall s :: digest(s) != "" && Unpadded(digest(s))
  }

  function NormalKey(l: Lesson, digest: string -> string): string {
    if Blank(l.sourceLessonKey) then DefaultKey(l, digest) else Trim(l.sourceLessonKey)
  }

  function NormalLesson(l: Lesson, digest: string -> string): Lesson {
    Lesson(
      NormalKey(l, digest), l.date, l.lessonNumber, Trim(l.subjectName), Trim(l.lessonPlace), Trim(l.startTime),
      Trim(l.endTime), Trim(l.topicTitle), l.homework.(description := Trim(l.homework.description)),
      Grades.Deduplicated(Grades.NormalGrades(l.grades)))
  }

  predicate Normal(l: Lesson) {
    && l.sourceLessonKey != "" && Unpadded(l.sourceLessonKey)
    && Unpadded(l.subjectName) && Unpadded(l.lessonPlace) && Unpadded(l.startTime) && Unpadded(l.endTime)
    && Unpadded(l.topicTitle) && Unpadded(l.homework.description)
    && Grades.NormalList(l.grades)
  }

  lemma NormalLessonIsNormal(l: Lesson, digest: string -> string)
    requires IsDigest(digest)
    ensures Normal(NormalLesson(l, digest))
  {
    hide Trim, Unpadded, Grades.NormalList, Grades.Deduplicated, Number, Fold;
    Grades.NormalisingGrades(l.grades);
  }

  lemma MergedStaysNormal()
    ensures Closed(Merged, Normal)
  {
    forall a, b | Normal(a) && Normal(b)
      ensures Normal(Merged(a, b))
    {
      Grades.CombinedStaysNormal(a.grades, b.grades);
      hide Unpadded, Grades.NormalList, Grades.Combined, Significant;
    }
    hide Merged, Normal;
  }

  // Some synthetic grade key of the lesson is another grade's own key.
  ghost predicate Shadowed(l: Lesson) {
    |l.grades| > 1 && Grades.Clash(l.grades)
  }

  lemma NormalLessonAgain(l: Lesson, digest: string -> string)
    requires Normal(l)
    ensures NormalLesson(l, digest) == l.(grades := Grades.Deduplicated(Grades.NormalGrades(l.grades)))
    ensures NormalLesson(l, digest) == l <==> !Shadowed(l)
  {
    hide *;
    OnlyGradesChange(l, digest);
    GradesChangeIfShadowed(l);
    var again := Grades.Deduplicated(Grades.NormalGrades(l.grades));
    assert l.(grades := again) == l <==> again == l.grades;
  }

  lemma OnlyGradesChange(l: Lesson, digest: string -> string)
    requires Normal(l)
    ensures NormalLesson(l, digest) == l.(grades := Grades.Deduplicated(Grades.NormalGrades(l.grades)))
  {
    TrimFixesExactlyUnpadded(l.sourceLessonKey);
    TrimFixesExactlyUnpadded(l.subjectName);
    TrimFixesExactlyUnpadded(l.lessonPlace);
    TrimFixesExactlyUnpadded(l.startTime);
    TrimFixesExactlyUnpadded(l.endTime);
    TrimFixesExactlyUnpadded(l.topicTitle);
    TrimFixesExactlyUnpadded(l.homework.description);
    hide Trim, Unpadded, Grades.NormalList, Grades.Deduplicated, DefaultKey;
  }

  lemma GradesChangeIfShadowed(l: Lesson)
    requires Normal(l)
    ensures Grades.Deduplicated(Grades.NormalGrades(l.grades)) == l.grades <==> !Shadowed(l)
  {
    Grades.NormalisingGradesAgain(l.grades);
    hide Unpadded, Grades.NormalList, Grades.Deduplicated, Grades.Clash;
  }

  // ---------- Order ----------

  // The order of sortLessons
  predicate Before(a: Lesson, b: Lesson) {
    if a.date != b.date then Less(a.date, b.date)
    else if a.lessonNumber != b.lessonNumber then a.lessonNumber < b.lessonNumber
    else Less(a.sourceLessonKey, b.sourceLessonKey)
  }

  lemma BeforeIsAnOrder()
    ensures StrictWeakOrder(Before)
  {
    hide Less;
    forall a, b | Before(a, b)
      ensures !Before(b, a)
    {
      LessIsStrictTotalOrder(a.date, b.date, b.date);
      LessIsStrictTotalOrder(a.sourceLessonKey, b.sourceLessonKey, b.sourceLessonKey);
    }
    forall a, b, c | !Before(a, b) && !Before(b, c)
      ensures !Before(a, c)
    {
      NotBeforeIsTransitive(a, b, c);
    }
  }

  lemma NotBeforeIsTransitive(a: Lesson, b: Lesson, c: Lesson)
    requires !Before(a, b) && !Before(b, c)
    ensures !Before(a, c)
  {
    hide Less;
    LessIsStrictTotalOrder(a.date, b.date, c.date);
    LessIsStrictTotalOrder(c.date, b.date, a.date);
    LessIsStrictTotalOrder(a.date, c.date, c.date);
    LessIsStrictTotalOrder(a.sourceLessonKey, b.sourceLessonKey, c.sourceLessonKey);
    LessIsStrictTotalOrder(c.sourceLessonKey, b.sourceLessonKey, a.sourceLessonKey);
    LessIsStrictTotalOrder(a.sourceLessonKey, c.sourceLessonKey, c.sourceLessonKey);
  }

  lemma TiesShareTheKey(a: Lesson, b: Lesson)
    requires Tied(a, b, Before)
    ensures a.sourceLessonKey == b.sourceLessonKey
  {
    hide Less;
    LessIsStrictTotalOrder(a.date, b.date, b.date);
    LessIsStrictTotalOrder(a.sourceLessonKey, b.sourceLessonKey, b.sourceLessonKey);
  }

  lemma DistinctKeysNeverTie(items: seq<Lesson>)
    requires KeysDistinct(items)
    ensures NoTies(items, Before)
  {
    hide Trim, Before;
    forall i: nat, j: nat | i < |items| && j < |items| && Tied(items[i], items[j], Before)
      ensures items[i] == items[j]
    {
      TiesShareTheKey(items[i], items[j]);
    }
  }
}
