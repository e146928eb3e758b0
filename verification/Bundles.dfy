/**
 A v2 bundle as the merge sees it: which lesson each result refers to and which evidence belongs to
 it. Lessons are reduced to the stable identity their source key has for a student.
 */
module Bundles {
  import opened Wrappers
  import opened Text
  import opened MergeStore
  import opened Aggregates
  import opened ResultRuns

  datatype BundleLesson = BundleLesson(sourceKey: string, providerLessonId: string)

  datatype EvidenceItem = EvidenceItem(resultRef: string, aggregateRef: string, evidence: Evidence)

  datatype Bundle = Bundle(
    provider: string, personId: string, lessons: seq<BundleLesson>, results: seq<Incoming>,
    aggregates: seq<IncomingAggregate>, evidence: seq<EvidenceItem>)

  // A row of the lessons table; its position is its id
  datatype LessonRow = LessonRow(student: string, sourceKey: string)

  // ---------- Lessons ----------

  // INSERT ... ON CONFLICT (student_id, source_lesson_key) DO UPDATE, as far as identity goes
  function UpsertLesson(table: seq<LessonRow>, student: string, l: BundleLesson): seq<LessonRow> {
    if LessonRow(student, l.sourceKey) in table then table else table + [LessonRow(student, l.sourceKey)]
  }

  function UpsertLessons(table: seq<LessonRow>, student: string, ls: seq<BundleLesson>): seq<LessonRow> {
    if ls == [] then table
    else UpsertLesson(UpsertLessons(table, student, ls[..|ls| - 1]), student, ls[|ls| - 1])
  }

  // The first row with the key; the table never has two
  function IdOf(table: seq<LessonRow>, row: LessonRow): nat {
    if table == [] || table[0] == row then 0 else 1 + IdOf(table[1..], row)
  }

  // lessonIDsByRef: later lessons of the bundle replace earlier ones
  function LessonRefs(table: seq<LessonRow>, student: string, ls: seq<BundleLesson>): map<string, nat> {
    if ls == [] then map[]
    else
      var l, refs := ls[|ls| - 1], LessonRefs(table, student, ls[..|ls| - 1]);
      var id := IdOf(table, LessonRow(student, l.sourceKey));
      var refs' := refs[l.sourceKey := id];
      if l.providerLessonId != "" then refs'[l.providerLessonId := id] else refs'
  }

  function Resolve(refs: map<string, nat>, ref: string): Option<nat> {
    if ref != "" && ref in refs then Some(refs[ref]) else None
  }

  lemma {:induction false} IdIsStable(table: seq<LessonRow>, more: seq<LessonRow>, row: LessonRow)
    requires row in table
    ensures IdOf(table + more, row) == IdOf(table, row) < |table| && table[IdOf(table, row)] == row
  {
    if table[0] != row {
      assert table == [table[0]] + table[1..];
      assert (table + more)[1..] == table[1..] + more;
      IdIsStable(table[1..], more, row);
    }
  }

  lemma {:induction false} UpsertLessonsExtends(table: seq<LessonRow>, student: string, ls: seq<BundleLesson>)
    ensures table <= UpsertLessons(table, student, ls)
    ensures forall l :: l in ls ==> LessonRow(student, l.sourceKey) in UpsertLessons(table, student, ls)
  {
    if ls != [] {
      var init := ls[..|ls| - 1];
      UpsertLessonsExtends(table, student, init);
      assert ls == init + [ls[|ls| - 1]];
    }
  }

  lemma {:induction false} RefsAreStable(table: seq<LessonRow>, more: seq<LessonRow>, student: string, ls: seq<BundleLesson>)
    requires forall l :: l in ls ==> LessonRow(student, l.sourceKey) in table
    ensures LessonRefs(table + more, student, ls) == LessonRefs(table, student, ls)
  {
    if ls != [] {
      var init := ls[..|ls| - 1];
      RefsAreStable(table, more, student, init);
      IdIsStable(table, more, LessonRow(student, ls[|ls| - 1].sourceKey));
    }
  }

  lemma {:induction false} KnownLessonsChangeNothing(table: seq<LessonRow>, student: string, ls: seq<BundleLesson>)
    requires forall l :: l in ls ==> LessonRow(student, l.sourceKey) in table
    ensures UpsertLessons(table, student, ls) == table
  {
    if ls != [] {
      KnownLessonsChangeNothing(table, student, ls[..|ls| - 1]);
    }
  }

  predicate Names(l: BundleLesson, ref: string) {
    l.sourceKey == ref || (l.providerLessonId != "" && l.providerLessonId == ref)
  }

  // The last lesson is what a reference resolves to if it has that name.
  lemma LastNamedIsFirstTried(table: seq<LessonRow>, student: string, ls: seq<BundleLesson>, ref: string)
    requires ls != []
    ensures
      var n := |ls| - 1;
      Resolve(LessonRefs(table, student, ls), ref)
      == if ref != "" && Names(ls[n], ref) then Some(IdOf(table, LessonRow(student, ls[n].sourceKey)))
         else Resolve(LessonRefs(table, student, ls[..n]), ref)
  {
    hide IdOf;
  }

  lemma NothingResolves(table: seq<LessonRow>, student: string, ref: string)
    ensures Resolve(LessonRefs(table, student, []), ref).None?
  {
  }

  // A reference resolves to the row of the last lesson of the bundle that has it as its source key or
  // its provider id, and to none if it is empty or no lesson has it.
  lemma {:induction false} ResolvesToTheLastNamed(table: seq<LessonRow>, student: string, ls: seq<BundleLesson>, ref: string)
    requires forall l :: l in ls ==> LessonRow(student, l.sourceKey) in table
    ensures
      var id := Resolve(LessonRefs(table, student, ls), ref);
      && (id.None? <==> ref == "" || forall i: nat :: i < |ls| ==> !Names(ls[i], ref))
      && (id.Some? ==>
            && id.value < |table|
            && exists i: nat :: i < |ls| && Names(ls[i], ref) && table[id.value] == LessonRow(student, ls[i].sourceKey)
                 && forall j: nat :: i < j < |ls| ==> !Names(ls[j], ref))
  {
    hide IdOf, LessonRefs, Resolve, Names;
    NothingResolves(table, student, ref);
    if ls != [] {
      var n := |ls| - 1;
      ResolvesToTheLastNamed(table, student, ls[..n], ref);
      LastNamedIsFirstTried(table, student, ls, ref);
      IdIsStable(table, [], LessonRow(student, ls[n].sourceKey));
      assert table + [] == table;
      if ref != "" && !Names(ls[n], ref) && Resolve(LessonRefs(table, student, ls), ref).Some? {
        var id := Resolve(LessonRefs(table, student, ls[..n]), ref);
        var i: nat :|
          i < n && Names(ls[i], ref) && table[id.value] == LessonRow(student, ls[i].sourceKey)
          && forall j: nat :: i < j < n ==> !Names(ls[j], ref);
        assert forall j: nat :: i < j < |ls| ==> !Names(ls[j], ref);
      }
    }
  }

  // Merging a bundle again, with the lessons table grown meanwhile by other merges, resolves every
  // reference to the lesson it was resolved to the first time.
  lemma ReplayResolvesTheSame(table: seq<LessonRow>, student: string, ls: seq<BundleLesson>, later: seq<LessonRow>)
    requires UpsertLessons(table, student, ls) <= later
    ensures UpsertLessons(later, student, ls) == later
    ensures LessonRefs(later, student, ls) == LessonRefs(UpsertLessons(table, student, ls), student, ls)
  {
    var first := UpsertLessons(table, student, ls);
    UpsertLessonsExtends(table, student, ls);
    assert later == first + later[|first|..];
    RefsAreStable(first, later[|first|..], student, ls);
    KnownLessonsChangeNothing(later, student, ls);
  }

  // ---------- Evidence of a result ----------

  // The last item of the bundle that refers to the key, if any
  function EvidenceIndex(items: seq<EvidenceItem>, ofResults: bool): map<string, Evidence> {
    if items == [] then map[]
    else
      var item, index := items[|items| - 1], EvidenceIndex(items[..|items| - 1], ofResults);
      var key := Trim(if ofResults then item.resultRef else item.aggregateRef);
      if key == "" then index else index[key := item.evidence]
  }

  function RefOf(item: EvidenceItem, ofResults: bool): string {
    Trim(if ofResults then item.resultRef else item.aggregateRef)
  }

  // The index has the evidence of the last item that refers to a key; blank references refer to none.
  lemma {:induction false} IndexHoldsTheLast(items: seq<EvidenceItem>, ofResults: bool, key: string)
    ensures
      var index := EvidenceIndex(items, ofResults);
      && (key !in index <==> key == "" || forall i: nat :: i < |items| ==> RefOf(items[i], ofResults) != key)
      && (key in index ==>
            exists i: nat :: i < |items| && RefOf(items[i], ofResults) == key && index[key] == items[i].evidence
              && forall j: nat :: i < j < |items| ==> RefOf(items[j], ofResults) != key)
  {
    hide Trim;
    if items != [] {
      var n := |items| - 1;
      IndexHoldsTheLast(items[..n], ofResults, key);
      if key != "" && RefOf(items[n], ofResults) != key && key in EvidenceIndex(items[..n], ofResults) {
        var i: nat :|
          i < n && RefOf(items[i], ofResults) == key && EvidenceIndex(items[..n], ofResults)[key] == items[i].evidence
          && forall j: nat :: i < j < n ==> RefOf(items[j], ofResults) != key;
        assert forall j: nat :: i < j < |items| ==> RefOf(items[j], ofResults) != key;
      }
    }
  }

  const NO_EVIDENCE := Evidence("", "", "")

  // digest joins its parts with '|' before hashing
  function Join(parts: seq<string>): string {
    if parts == [] then "" else if |parts| == 1 then parts[0] else parts[0] + "|" + Join(parts[1..])
  }

  function TermText(termNo: Option<int>): string {
    if termNo.None? then "" else if termNo.value >= 0 then Decimal(termNo.value) else "-" + Decimal(-termNo.value)
  }

  function SyntheticResultEvidence(b: Bundle, x: Incoming, digest: string -> string): Evidence {
    Evidence("unknown", x.mood, digest(Join([
      "result", b.provider, b.personId, x.kind, x.subjectId, x.workId, x.markId, x.sourceKey, x.valueText,
      x.recordedOn, TermText(x.termNo), x.lessonRef])))
  }

  function SyntheticAggregateEvidence(b: Bundle, x: IncomingAggregate, digest: string -> string): Evidence {
    Evidence("unknown", x.mood, digest(Join([
      "aggregate", b.provider, b.personId, x.kind, x.subjectId, x.sourceKey, x.periodId, x.yearLabel, x.valueText,
      x.recordedOn, TermText(x.termNo)])))
  }

  // Joined parts without a bar of their own can be told apart.
  lemma {:induction false} JoinIsInjective(xs: seq<string>, ys: seq<string>)
    requires |xs| == |ys| && (forall x :: x in xs ==> Without('|', x)) && (forall y :: y in ys ==> Without('|', y))
    requires Join(xs) == Join(ys)
    ensures xs == ys
  {
    if |xs| > 1 {
      assert Join(xs) == (xs[0] + "|") + Join(xs[1..]) && Join(ys) == (ys[0] + "|") + Join(ys[1..]);
      DelimitedIsInjective('|', xs[0], Join(xs[1..]), ys[0], Join(ys[1..]));
      hide Without, Join;
      JoinIsInjective(xs[1..], ys[1..]);
      assert xs == [xs[0]] + xs[1..] && ys == [ys[0]] + ys[1..];
    }
  }

  ghost predicate InjectiveDigest(digest: string -> string) {
    forall s, t :: digest(s) == digest(t) ==> s == t
  }

  // What the synthetic fingerprint of a result is made of
  predicate PlainResult(x: Incoming) {
    && Without('|', x.kind) && Without('|', x.subjectId) && Without('|', x.workId) && Without('|', x.markId) && Without('|', x.sourceKey)
    && Without('|', x.valueText) && Without('|', x.recordedOn) && Without('|', x.lessonRef)
  }

  lemma TermTextsTellApart(a: Option<int>, b: Option<int>)
    ensures TermText(a) == TermText(b) <==> a == b
    ensures Without('|', TermText(a)) && Without('|', TermText(b))
  {
    TermTextIsPlain(a);
    TermTextIsPlain(b);
    if a.Some? && b.Some? {
      DecimalIsInjective(if a.value >= 0 then a.value else -a.value, if b.value >= 0 then b.value else -b.value);
      hide Decimal;
      if a.value < 0 && b.value < 0 && TermText(a) == TermText(b) {
        assert TermText(a)[1..] == Decimal(-a.value) && TermText(b)[1..] == Decimal(-b.value);
      }
    }
  }

  lemma TermTextIsPlain(a: Option<int>)
    ensures Without('|', TermText(a))
    ensures a.Some? ==> TermText(a) != "" && (TermText(a)[0] == '-' <==> a.value < 0)
  {
    if a.Some? {
      var n := if a.value >= 0 then a.value else -a.value;
      DecimalIsPlain(n, '|');
      DecimalIsPlain(n, '-');
      hide Decimal;
    }
  }

  // Two results of one provider account have the same synthetic fingerprint exactly if they agree on
  // kind, subject, work, mark, key, value, date, term and lesson.
  lemma SyntheticFingerprintsTellApart(b: Bundle, x: Incoming, y: Incoming, digest: string -> string)
    requires InjectiveDigest(digest) && PlainResult(x) && PlainResult(y) && Without('|', b.provider) && Without('|', b.personId)
    ensures
      SyntheticResultEvidence(b, x, digest).fingerprint == SyntheticResultEvidence(b, y, digest).fingerprint
      <==> && x.kind == y.kind && x.subjectId == y.subjectId && x.workId == y.workId && x.markId == y.markId
           && x.sourceKey == y.sourceKey && x.valueText == y.valueText && x.recordedOn == y.recordedOn
           && x.termNo == y.termNo && x.lessonRef == y.lessonRef
  {
    var xs := ["result", b.provider, b.personId, x.kind, x.subjectId, x.workId, x.markId, x.sourceKey, x.valueText,
               x.recordedOn, TermText(x.termNo), x.lessonRef];
    var ys := ["result", b.provider, b.personId, y.kind, y.subjectId, y.workId, y.markId, y.sourceKey, y.valueText,
               y.recordedOn, TermText(y.termNo), y.lessonRef];
    assert Without('|', "result");
    TermTextsTellApart(x.termNo, y.termNo);
    assert SyntheticResultEvidence(b, x, digest).fingerprint == digest(Join(xs));
    assert SyntheticResultEvidence(b, y, digest).fingerprint == digest(Join(ys));
    hide Without, TermText, Join, SyntheticResultEvidence;
    if digest(Join(xs)) == digest(Join(ys)) {
      JoinIsInjective(xs, ys);
      assert xs[3..] == ys[3..] && xs[10] == ys[10];
    }
  }

  predicate PlainAggregate(x: IncomingAggregate) {
    && Without('|', x.kind) && Without('|', x.subjectId) && Without('|', x.sourceKey) && Without('|', x.periodId)
    && Without('|', x.yearLabel) && Without('|', x.valueText) && Without('|', x.recordedOn)
  }

  // And two aggregates exactly if they agree on kind, subject, key, period, year, value, date and term.
  lemma AggregateFingerprintsTellApart(b: Bundle, x: IncomingAggregate, y: IncomingAggregate, digest: string -> string)
    requires InjectiveDigest(digest) && PlainAggregate(x) && PlainAggregate(y) && Without('|', b.provider) && Without('|', b.personId)
    ensures
      SyntheticAggregateEvidence(b, x, digest).fingerprint == SyntheticAggregateEvidence(b, y, digest).fingerprint
      <==> && x.kind == y.kind && x.subjectId == y.subjectId && x.sourceKey == y.sourceKey && x.periodId == y.periodId
           && x.yearLabel == y.yearLabel && x.valueText == y.valueText && x.recordedOn == y.recordedOn && x.termNo == y.termNo
  {
    var xs := ["aggregate", b.provider, b.personId, x.kind, x.subjectId, x.sourceKey, x.periodId, x.yearLabel, x.valueText,
               x.recordedOn, TermText(x.termNo)];
    var ys := ["aggregate", b.provider, b.personId, y.kind, y.subjectId, y.sourceKey, y.periodId, y.yearLabel, y.valueText,
               y.recordedOn, TermText(y.termNo)];
    assert Without('|', "aggregate");
    TermTextsTellApart(x.termNo, y.termNo);
    assert SyntheticAggregateEvidence(b, x, digest).fingerprint == digest(Join(xs));
    assert SyntheticAggregateEvidence(b, y, digest).fingerprint == digest(Join(ys));
    hide Without, TermText, Join, SyntheticAggregateEvidence;
    if digest(Join(xs)) == digest(Join(ys)) {
      JoinIsInjective(xs, ys);
      assert xs[3..] == ys[3..] && xs[10] == ys[10];
    }
  }

  // The evidence a result is merged with: the bundle's, or one made up from the result itself. Its
  // rank is that of the missing evidence the upsert is given, since "unknown" ranks lowest.
  function ResultEvidence(b: Bundle, x: Incoming, digest: string -> string): Evidence {
    var index := EvidenceIndex(b.evidence, true);
    if x.sourceKey in index then index[x.sourceKey] else SyntheticResultEvidence(b, x, digest)
  }

  function AggregateEvidence(b: Bundle, x: IncomingAggregate, digest: string -> string): Evidence {
    var index := EvidenceIndex(b.evidence, false);
    if x.sourceKey in index then index[x.sourceKey] else SyntheticAggregateEvidence(b, x, digest)
  }

  lemma MissingEvidenceRanksLowest()
    ensures SourceEndpointPrecedence(NO_EVIDENCE.endpoint) == SourceEndpointPrecedence("unknown") == 0
  {
    assert Trim("") == "" && Trim("unknown") == "unknown" by {
      hide Trim;
      TrimFixesExactlyUnpadded("");
      TrimFixesExactlyUnpadded("unknown");
    }
    hide Trim;
    assert Lower("unknown")[0] == 'u';
    assert Lower("") == "";
  }

  // The upsert of a result without evidence in the bundle is given blank evidence and the synthetic one
  // is stored; either way the row is written alike, and an existing row keeps its mood and its lesson.
  lemma SyntheticEvidenceNeverOutranks(s: Store, d: Delivery, b: Bundle, x: Incoming, digest: string -> string)
    requires Legal(s, d) && d.evidence == SyntheticResultEvidence(b, x, digest)
    ensures Written(s, d) == Written(s, d.(evidence := NO_EVIDENCE))
    ensures d.found.Some? ==>
              d.found.value < |s.rows|
              && Written(s, d).mood == s.rows[d.found.value].mood && Written(s, d).lesson == s.rows[d.found.value].lesson
  {
    hide Join, TermText, Finds, LatestEndpoint, Blank;
    FoundIsRow(s.rows, d.scope, d.lesson, d.incoming, d.found);
    MissingEvidenceRanksLowest();
    RanksAreNotNegative(d.latest);
    hide SourceEndpointPrecedence;
  }

  lemma RanksAreNotNegative(endpoint: string)
    ensures SourceEndpointPrecedence(endpoint) >= 0
  {
    hide Fold;
  }

  // ---------- What merging a bundle amounts to ----------

  function ScopeOf(student: string, b: Bundle): Scope {
    Scope(student, b.provider)
  }

  // The delivery is the i-th result of the bundle, resolved through refs.
  predicate IsResultOf(d: Delivery, student: string, b: Bundle, refs: map<string, nat>, i: nat, now: int, digest: string -> string)
    requires i < |b.results|
  {
    && d.scope == ScopeOf(student, b) && d.incoming == b.results[i] && d.at == now
    && d.lesson == Resolve(refs, b.results[i].lessonRef)
    && d.evidence == ResultEvidence(b, b.results[i], digest)
  }

  predicate IsAggregateOf(d: AggregateDelivery, student: string, b: Bundle, i: nat, now: int, digest: string -> string)
    requires i < |b.aggregates|
  {
    && d.scope == ScopeOf(student, b) && d.incoming == b.aggregates[i] && d.at == now
    && d.evidence == AggregateEvidence(b, b.aggregates[i], digest)
  }

  // ds are the results of the bundle, all accepted in order.
  predicate DeliversResults(
      s: Store, student: string, b: Bundle, refs: map<string, nat>, now: int, digest: string -> string, ds: seq<Delivery>)
  {
    && |ds| == |b.results| && Run(s, ds, |ds|)
    && forall k: nat :: k < |ds| ==> IsResultOf(ds[k], student, b, refs, k, now, digest)
  }

  predicate DeliversAggregates(
      s: Store, student: string, b: Bundle, now: int, digest: string -> string, gs: seq<AggregateDelivery>)
  {
    && |gs| == |b.aggregates| && AggregateRun(s, gs, |gs|)
    && forall k: nat :: k < |gs| ==> IsAggregateOf(gs[k], student, b, k, now, digest)
  }

  // s' is what the tables hold after the bundle has been merged into s by these deliveries.
  predicate Merges(
      s: Store, s': Store, student: string, b: Bundle, refs: map<string, nat>, now: int, digest: string -> string,
      ds: seq<Delivery>, gs: seq<AggregateDelivery>)
  {
    && DeliversResults(s, student, b, refs, now, digest, ds)
    && DeliversAggregates(After(s, ds, |ds|), student, b, now, digest, gs)
    && s' == AfterAggregates(After(s, ds, |ds|), gs, |gs|)
  }

  // The results ds, or all results and the aggregates gs, are merged and the database rejects the next.
  ghost predicate Aborts(
      s: Store, student: string, b: Bundle, refs: map<string, nat>, now: int, digest: string -> string,
      ds: seq<Delivery>, gs: seq<AggregateDelivery>)
  {
    && |ds| <= |b.results| && Run(s, ds, |ds|)
    && (forall k: nat :: k < |ds| ==> IsResultOf(ds[k], student, b, refs, k, now, digest))
    && var s' := After(s, ds, |ds|);
       if |ds| < |b.results| then
         exists d :: IsResultOf(d, student, b, refs, |ds|, now, digest) && Legal(s', d) && Rejected(s', d)
       else
         && |gs| < |b.aggregates| && AggregateRun(s', gs, |gs|)
         && (forall k: nat :: k < |gs| ==> IsAggregateOf(gs[k], student, b, k, now, digest))
         && exists d ::
              && IsAggregateOf(d, student, b, |gs|, now, digest) && LegalAggregate(AfterAggregates(s', gs, |gs|), d)
              && RejectedAggregate(AfterAggregates(s', gs, |gs|), d)
  }

  lemma ResultKeepsAggregateInv(s: Store, d: Delivery)
    requires ResultInv(s) && AggregateInv(s) && Legal(s, d) && !Rejected(s, d)
    ensures AggregateInv(Merged(s, d))
  {
    hide Collide, AggregateChecks, Conflict, RowChecks, Finds, LatestEndpoint, Rejected, Trim, EvidenceUnique, Written;
    EvidenceKept(s.evidence, OfResult(Target(s, d)), d.evidence, d.at);
  }

  lemma {:induction false} ResultsKeepAggregateInv(s: Store, ds: seq<Delivery>, n: nat)
    requires ResultInv(s) && AggregateInv(s) && n <= |ds| && Run(s, ds, n)
    ensures AggregateInv(After(s, ds, n))
  {
    hide Merged, Legal, Rejected, ResultInv, AggregateInv;
    if n > 0 {
      ResultsKeepAggregateInv(s, ds, n - 1);
      RunKeepsInv(s, ds, n - 1);
      ResultKeepsAggregateInv(After(s, ds, n - 1), ds[n - 1]);
    }
  }

  // A committed merge keeps every index of every table and loses no row, no aggregate and no evidence.
  lemma MergeKeepsInvAndExtends(
      s: Store, s': Store, student: string, b: Bundle, refs: map<string, nat>, now: int, digest: string -> string,
      ds: seq<Delivery>, gs: seq<AggregateDelivery>)
    requires ResultInv(s) && AggregateInv(s) && Merges(s, s', student, b, refs, now, digest, ds, gs)
    ensures ResultInv(s') && AggregateInv(s')
    ensures |s.rows| <= |s'.rows| <= |s.rows| + |b.results|
    ensures forall i: nat :: i < |s.rows| ==> Continues(s.rows[i], s'.rows[i])
    ensures AggregatesContinue(s.aggregates, s'.aggregates) && |s'.aggregates| <= |s.aggregates| + |b.aggregates|
    ensures s.evidence <= s'.evidence
  {
    hide ContinuesAggregate, AggregatesContinue;
    hide Run, After, AggregateRun, AfterAggregates, ResultInv, AggregateInv, IsResultOf, IsAggregateOf, Continues;
    assert Run(s, ds, 0) && After(s, ds, 0) == s by {
      EmptyRun(s, ds);
    }
    RunKeepsInv(s, ds, |ds|);
    RunExtends(s, ds, 0, |ds|);
    ResultsKeepAggregateInv(s, ds, |ds|);
    AggregateRunKeepsInv(After(s, ds, |ds|), gs, |gs|);
    RowsGrowByDistinctInputs(s, ds, |ds|);
    InputsAreFew(ds, |ds|);
  }

  lemma EmptyRun(s: Store, ds: seq<Delivery>)
    ensures Run(s, ds, 0) && After(s, ds, 0) == s
  {
  }

  lemma {:induction false} InputsAreFew(ds: seq<Delivery>, n: nat)
    requires n <= |ds|
    ensures |Inputs(ds, n)| <= n
  {
    if n > 0 {
      InputsAreFew(ds, n - 1);
    }
  }

  lemma OwnsIsMonotone(evidence: seq<EvidenceRow>, more: seq<EvidenceRow>, owner: Owner, fingerprint: string)
    requires evidence <= more && Owns(evidence, owner, fingerprint)
    ensures Owns(more, owner, fingerprint)
  {
  }

  lemma EvidenceStaysWithRow(s: Store, ds: seq<Delivery>, k: nat, n: nat)
    requires ResultInv(s) && k < n <= |ds| && Run(s, ds, n) && Run(s, ds, k) && !Blank(ds[k].evidence.fingerprint)
    ensures Owns(After(s, ds, n).evidence, OfResult(Target(After(s, ds, k), ds[k])), Trim(ds[k].evidence.fingerprint))
  {
    hide ResultInv, Continues, Legal, Rejected, Merged, Owns, Blank, Trim;
    RunPrefix(s, ds, k + 1, n);
    RunKeepsInv(s, ds, k);
    MergedExtends(After(s, ds, k), ds[k]);
    RunExtends(s, ds, k + 1, n);
    OwnsIsMonotone(After(s, ds, k + 1).evidence, After(s, ds, n).evidence, OfResult(Target(After(s, ds, k), ds[k])),
                   Trim(ds[k].evidence.fingerprint));
  }

  // After a committed merge the fingerprint of each result's evidence, unless blank, is owned by the
  // row the result resolved to, and by uniqueness in one evidence row.
  lemma EvidenceReachesItsRow(
      s: Store, s': Store, student: string, b: Bundle, refs: map<string, nat>, now: int, digest: string -> string,
      ds: seq<Delivery>, gs: seq<AggregateDelivery>, k: nat)
    requires ResultInv(s) && AggregateInv(s) && Merges(s, s', student, b, refs, now, digest, ds, gs)
    requires k < |b.results| && !Blank(ResultEvidence(b, b.results[k], digest).fingerprint)
    ensures Run(s, ds, k)
    ensures Owns(s'.evidence, OfResult(Target(After(s, ds, k), ds[k])), Trim(ResultEvidence(b, b.results[k], digest).fingerprint))
  {
    assert IsResultOf(ds[k], student, b, refs, k, now, digest);
    hide Run, After, AggregateRun, AfterAggregates, ResultInv, AggregateInv, ResultEvidence, Owns, Blank, Trim, IsAggregateOf;
    RunPrefix(s, ds, k, |ds|);
    EvidenceStaysWithRow(s, ds, k, |ds|);
    RunKeepsInv(s, ds, |ds|);
    ResultsKeepAggregateInv(s, ds, |ds|);
    AggregateRunKeepsInv(After(s, ds, |ds|), gs, |gs|);
    OwnsIsMonotone(After(s, ds, |ds|).evidence, s'.evidence, OfResult(Target(After(s, ds, k), ds[k])),
                   Trim(ds[k].evidence.fingerprint));
  }
}
