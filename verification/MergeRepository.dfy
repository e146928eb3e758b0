/**
 The v2 merge as it runs against the database: one transaction that upserts the lessons, results,
 aggregates and evidence of a bundle, or changes nothing.
 */
module MergeRepository {
  import opened Wrappers
  import opened Text
  import opened MergeStore
  import opened Aggregates
  import opened ResultRuns
  import opened Bundles

  datatype MergeStats = MergeStats(mergedLessons: nat, mergedResults: nat, mergedAggregates: nat, insertedEvidence: nat)

  const NO_STATS := MergeStats(0, 0, 0, 0)

  class PostgresRepository {
    var lessons: seq<LessonRow>
    var rows: seq<Row>
    var aggregates: seq<AggregateRow>
    var evidence: seq<EvidenceRow>

    constructor ()
      ensures lessons == [] && Tables() == Store([], [], [])
    {
      lessons, rows, aggregates, evidence := [], [], [], [];
    }

    function Tables(): Store
      reads this
    {
      Store(rows, aggregates, evidence)
    }

    // ---------- Result upsert ----------

    method FindByMark(scope: Scope, x: Incoming) returns (found: Option<nat>)
      ensures found.Some? ==> found.value < |rows| && MarkMatches(rows[found.value], scope, x)
      ensures found.None? ==> forall r :: r in rows ==> !MarkMatches(r, scope, x)
    {
      for i := 0 to |rows|
        invariant forall k :: 0 <= k < i ==> !MarkMatches(rows[k], scope, x)
      {
        if x.markId != "" && rows[i].scope == scope && rows[i].markId == x.markId {
          return Some(i);
        }
      }
      found := None;
    }

    method FindBySourceKey(scope: Scope, x: Incoming) returns (found: Option<nat>)
      ensures found.Some? ==> found.value < |rows| && SourceKeyMatches(rows[found.value], scope, x)
      ensures found.None? ==> forall r :: r in rows ==> !SourceKeyMatches(r, scope, x)
    {
      for i := 0 to |rows|
        invariant forall k :: 0 <= k < i ==> !SourceKeyMatches(rows[k], scope, x)
      {
        if x.sourceKey != "" && rows[i].scope == scope && rows[i].sourceKey == x.sourceKey {
          return Some(i);
        }
      }
      found := None;
    }

    method FindByFingerprint(scope: Scope, lesson: Option<nat>, x: Incoming) returns (found: Option<nat>)
      ensures found.Some? ==> found.value < |rows| && FingerprintMatches(rows[found.value], scope, lesson, x)
      ensures found.None? ==> forall r :: r in rows ==> !FingerprintMatches(r, scope, lesson, x)
    {
      for i := 0 to |rows|
        invariant forall k :: 0 <= k < i ==> !FingerprintMatches(rows[k], scope, lesson, x)
      {
        var r := rows[i];
        var matches := r.scope == scope && r.kind == x.kind && r.subjectId == x.subjectId && r.workId == x.workId
          && r.valueText == x.valueText && r.recordedOn == x.recordedOn;
        if x.kind == REGULAR {
          matches := matches && r.lesson == lesson;
        } else {
          matches := matches && Coalesce(r.termNo) == Coalesce(x.termNo);
        }
        if matches {
          return Some(i);
        }
      }
      found := None;
    }

    method FindExistingResult(scope: Scope, lesson: Option<nat>, x: Incoming) returns (found: Option<nat>)
      ensures Finds(rows, scope, lesson, x, found)
    {
      hide MarkMatches, SourceKeyMatches, FingerprintMatches;
      found := None;
      if x.markId != "" {
        found := FindByMark(scope, x);
        if found.Some? {
          assert rows[found.value] in rows;
          return;
        }
      }
      assert forall r :: r in rows ==> !MarkMatches(r, scope, x) by {
        BlankMarkMatchesNothing(rows, scope, x);
      }
      if x.sourceKey != "" {
        found := FindBySourceKey(scope, x);
        if found.Some? {
          assert rows[found.value] in rows;
          return;
        }
      }
      assert forall r :: r in rows ==> !SourceKeyMatches(r, scope, x) by {
        BlankMarkMatchesNothing(rows, scope, x);
      }
      found := FindByFingerprint(scope, lesson, x);
      if found.Some? {
        assert rows[found.value] in rows;
      }
    }

    // ORDER BY captured_at DESC LIMIT 1 over the evidence of one owner
    method ReadLatestEndpoint(owner: Owner) returns (endpoint: string)
      ensures LatestEndpoint(evidence, owner, endpoint)
    {
      endpoint := "";
      var latest: Option<nat> := None;
      for i := 0 to |evidence|
        invariant latest.None? ==> endpoint == "" && forall k :: 0 <= k < i ==> evidence[k].owner != owner
        invariant latest.Some? ==>
                    && latest.value < i && evidence[latest.value].owner == owner && evidence[latest.value].endpoint == endpoint
                    && forall k :: 0 <= k < i && evidence[k].owner == owner ==>
                         evidence[k].capturedAt <= evidence[latest.value].capturedAt
      {
        if evidence[i].owner == owner
           && (latest.None? || evidence[latest.value].capturedAt < evidence[i].capturedAt) {
          latest, endpoint := Some(i), evidence[i].endpoint;
        }
      }
      if latest.Some? {
        assert evidence[latest.value] in evidence;
      }
    }

    // The UPDATE statements on an existing row, each with its own guard
    method PatchRow(current: Row, lesson: Option<nat>, x: Incoming, outranks: bool) returns (next: Row)
      ensures next == Patched(current, lesson, x, outranks)
    {
      hide Blank;
      next := current;
      if !Blank(x.mood) && outranks && x.mood != current.mood {
        next := next.(mood := x.mood);
      }
      if lesson.Some? && outranks && current.lesson != lesson {
        next := next.(lesson := lesson);
      }
      if Blank(current.subjectId) && !Blank(x.subjectId) {
        next := next.(subjectId := x.subjectId);
      }
      if Blank(current.subjectName) && !Blank(x.subjectName) {
        next := next.(subjectName := x.subjectName);
      }
    }

    // Returns the row written and what the database answered on the way; None when it rejects the row.
    method UpsertAcademicResult(scope: Scope, lesson: Option<nat>, x: Incoming, e: Evidence, now: int)
      returns (id: Option<nat>, ghost d: Delivery)
      modifies this
      ensures lessons == old(lessons) && aggregates == old(aggregates) && evidence == old(evidence)
      ensures d.scope == scope && d.lesson == lesson && d.incoming == x && d.evidence == e && d.at == now
      ensures Legal(old(Tables()), d)
      ensures id.None? <==> Rejected(old(Tables()), d)
      ensures id.None? ==> rows == old(rows)
      ensures id.Some? ==> id.value == Target(old(Tables()), d) && rows == Merged(old(Tables()), d).rows
      // an inserted row has the result's columns; nothing else changes
      ensures id.Some? && d.found.None? ==>
                && id.value == |old(rows)| && |rows| == |old(rows)| + 1 && rows[..|old(rows)|] == old(rows)
                && var r := rows[id.value];
                   && r.scope == scope && r.lesson == lesson && r.kind == x.kind && r.subjectId == x.subjectId
                   && r.subjectName == x.subjectName && r.workId == x.workId && r.markId == x.markId
                   && r.sourceKey == x.sourceKey && r.valueText == x.valueText && r.mood == x.mood
                   && r.periodId == x.periodId && r.termNo == x.termNo && r.recordedOn == x.recordedOn
    {
      hide Finds, LatestEndpoint, Fits, RowChecks, SourceEndpointPrecedence, WithEvidence, Patched;
      var found := FindExistingResult(scope, lesson, x);
      var incomingPrecedence := SourceEndpointPrecedence(e.endpoint);
      if found.None? {
        d := Delivery(scope, lesson, x, e, now, None, "");
        var row := Row(
          scope, lesson, x.kind, x.subjectId, x.subjectName, x.workId, x.markId, x.sourceKey, x.valueText, x.mood,
          x.periodId, x.termNo, x.recordedOn);
        if !RowChecks(row) || !Fits(rows, |rows|, row) {
          return None, d;
        }
        id := Some(|rows|);
        rows := rows + [row];
        return;
      }
      assert found.value < |rows| by {
        FoundIsRow(rows, scope, lesson, x, found);
      }
      var current := rows[found.value];
      var existingEndpoint := ReadLatestEndpoint(OfResult(found.value));
      var existingPrecedence := SourceEndpointPrecedence(existingEndpoint);
      d := Delivery(scope, lesson, x, e, now, found, existingEndpoint);
      var next := PatchRow(current, lesson, x, incomingPrecedence > existingPrecedence);
      assert next == Written(old(Tables()), d);
      if !RowChecks(next) || !Fits(rows, found.value, next) {
        return None, d;
      }
      rows := rows[found.value := next];
      id := found;
    }

    method InsertEvidence(owner: Owner, e: Evidence, now: int) returns (inserted: bool)
      modifies this
      ensures lessons == old(lessons) && rows == old(rows) && aggregates == old(aggregates)
      ensures evidence == WithEvidence(old(evidence), owner, e, now)
      ensures |evidence| == |old(evidence)| + if inserted then 1 else 0
    {
      var fingerprint := Trim(e.fingerprint);
      if fingerprint == "" {
        return false;
      }
      for i := 0 to |evidence|
        invariant forall k :: 0 <= k < i ==> evidence[k].owner != owner || evidence[k].fingerprint != fingerprint
      {
        if evidence[i].owner == owner && evidence[i].fingerprint == fingerprint {
          assert evidence[i] in evidence;
          return false;
        }
      }
      evidence := evidence + [EvidenceRow(owner, e.endpoint, e.moodRaw, fingerprint, now)];
      inserted := true;
    }

    // ---------- Aggregate upsert ----------

    method FindExistingAggregate(scope: Scope, x: IncomingAggregate) returns (found: Option<nat>)
      ensures FindsAggregate(aggregates, scope, x, found)
    {
      if x.sourceKey != "" {
        for i := 0 to |aggregates|
          invariant forall k :: 0 <= k < i ==> !KeyMatches(aggregates[k], scope, x)
        {
          if aggregates[i].scope == scope && aggregates[i].sourceKey == x.sourceKey {
            assert aggregates[i] in aggregates;
            return Some(i);
          }
        }
      }
      assert forall a :: a in aggregates ==> !KeyMatches(a, scope, x);
      for i := 0 to |aggregates|
        invariant forall k :: 0 <= k < i ==> !IdentityMatches(aggregates[k], scope, x)
      {
        var a := aggregates[i];
        var slot := false;
        if x.kind == TERM {
          slot := Coalesce(a.termNo) == Coalesce(x.termNo) && a.periodId == x.periodId;
        } else if x.kind == YEAR {
          slot := a.yearLabel == x.yearLabel;
        }
        if slot && a.scope == scope && a.kind == x.kind && a.subjectId == x.subjectId {
          assert aggregates[i] in aggregates;
          return Some(i);
        }
      }
      found := None;
    }

    method UpsertAcademicAggregate(scope: Scope, x: IncomingAggregate, e: Evidence, now: int)
      returns (id: Option<nat>, ghost d: AggregateDelivery)
      modifies this
      ensures lessons == old(lessons) && rows == old(rows) && evidence == old(evidence)
      ensures d.scope == scope && d.incoming == x && d.evidence == e && d.at == now
      ensures LegalAggregate(old(Tables()), d)
      ensures id.None? <==> RejectedAggregate(old(Tables()), d)
      ensures id.None? ==> aggregates == old(aggregates)
      ensures id.Some? ==> id.value == AggregateTarget(old(Tables()), d)
                           && aggregates == MergedAggregate(old(Tables()), d).aggregates
      // an inserted row has the aggregate's columns; nothing else changes
      ensures id.Some? && d.found.None? ==>
                && id.value == |old(aggregates)| && |aggregates| == |old(aggregates)| + 1
                && aggregates[..|old(aggregates)|] == old(aggregates)
                && var a := aggregates[id.value];
                   && a.scope == scope && a.kind == x.kind && a.subjectId == x.subjectId && a.subjectName == x.subjectName
                   && a.periodId == x.periodId && a.termNo == x.termNo && a.yearLabel == x.yearLabel
                   && a.valueText == x.valueText && a.mood == x.mood && a.recordedOn == x.recordedOn
                   && a.sourceKey == x.sourceKey
    {
      hide FindsAggregate, LatestEndpoint, FitsAggregate, AggregateChecks, SourceEndpointPrecedence, WithEvidence, Blank;
      var found := FindExistingAggregate(scope, x);
      var incomingPrecedence := SourceEndpointPrecedence(e.endpoint);
      if found.None? {
        d := AggregateDelivery(scope, x, e, now, None, "");
        var row := AggregateRow(
          scope, x.kind, x.subjectId, x.subjectName, x.periodId, x.termNo, x.yearLabel, x.valueText, x.mood,
          x.recordedOn, x.sourceKey);
        if !AggregateChecks(row) || !FitsAggregate(aggregates, |aggregates|, row) {
          return None, d;
        }
        id := Some(|aggregates|);
        aggregates := aggregates + [row];
        return;
      }
      assert found.value < |aggregates| by {
        FoundIsAggregate(aggregates, scope, x, found);
      }
      var current := aggregates[found.value];
      var existingEndpoint := ReadLatestEndpoint(OfAggregate(found.value));
      var existingPrecedence := SourceEndpointPrecedence(existingEndpoint);
      d := AggregateDelivery(scope, x, e, now, found, existingEndpoint);
      var next := current;
      if !Blank(x.mood) && incomingPrecedence > existingPrecedence && x.mood != current.mood {
        next := next.(mood := x.mood);
      }
      if Blank(current.subjectId) && !Blank(x.subjectId) {
        next := next.(subjectId := x.subjectId);
      }
      if Blank(current.subjectName) && !Blank(x.subjectName) {
        next := next.(subjectName := x.subjectName);
      }
      assert next == WrittenAggregate(old(Tables()), d);
      if !AggregateChecks(next) || !FitsAggregate(aggregates, found.value, next) {
        return None, d;
      }
      aggregates := aggregates[found.value := next];
      id := found;
    }

    // ---------- The merge ----------

    method UpsertLessonsOf(student: string, ls: seq<BundleLesson>) returns (refs: map<string, nat>)
      modifies this
      ensures Tables() == old(Tables())
      ensures lessons == UpsertLessons(old(lessons), student, ls)
      ensures refs == LessonRefs(lessons, student, ls)
    {
      refs := map[];
      assert ls[..0] == [];
      for i := 0 to |ls|
        invariant Tables() == old(Tables())
        invariant lessons == UpsertLessons(old(lessons), student, ls[..i])
        invariant refs == LessonRefs(lessons, student, ls[..i])
      {
        var l := ls[i];
        assert ls[..i + 1][..i] == ls[..i] && ls[..i + 1][i] == l;
        ghost var before := lessons;
        UpsertLessonsExtends(old(lessons), student, ls[..i]);
        if LessonRow(student, l.sourceKey) !in lessons {
          lessons := lessons + [LessonRow(student, l.sourceKey)];
        }
        assert lessons == before + lessons[|before|..];
        RefsAreStable(before, lessons[|before|..], student, ls[..i]);
        var id := IdOf(lessons, LessonRow(student, l.sourceKey));
        refs := refs[l.sourceKey := id];
        if l.providerLessonId != "" {
          refs := refs[l.providerLessonId := id];
        }
      }
      assert ls[..|ls|] == ls;
    }

    method MergeResult(scope: Scope, lesson: Option<nat>, x: Incoming, e: Evidence, now: int)
      returns (ok: bool, inserted: nat, ghost d: Delivery)
      modifies this
      ensures lessons == old(lessons) && Legal(old(Tables()), d)
      ensures d.scope == scope && d.lesson == lesson && d.incoming == x && d.evidence == e && d.at == now
      ensures ok <==> !Rejected(old(Tables()), d)
      ensures Tables() == if ok then Merged(old(Tables()), d) else old(Tables())
      ensures |evidence| == |old(evidence)| + inserted
    {
      hide Legal, Rejected, Merged, WithEvidence;
      ghost var before := Tables();
      var id, delivery := UpsertAcademicResult(scope, lesson, x, e, now);
      d := delivery;
      if id.None? {
        return false, 0, d;
      }
      var added := InsertEvidence(OfResult(id.value), e, now);
      MergedParts(before, d);
      ok, inserted := true, if added then 1 else 0;
    }

    method MergeAggregate(scope: Scope, x: IncomingAggregate, e: Evidence, now: int)
      returns (ok: bool, inserted: nat, ghost d: AggregateDelivery)
      modifies this
      ensures lessons == old(lessons) && LegalAggregate(old(Tables()), d)
      ensures d.scope == scope && d.incoming == x && d.evidence == e && d.at == now
      ensures ok <==> !RejectedAggregate(old(Tables()), d)
      ensures Tables() == if ok then MergedAggregate(old(Tables()), d) else old(Tables())
      ensures |evidence| == |old(evidence)| + inserted
    {
      hide LegalAggregate, RejectedAggregate, MergedAggregate, WithEvidence;
      ghost var before := Tables();
      var id, delivery := UpsertAcademicAggregate(scope, x, e, now);
      d := delivery;
      if id.None? {
        return false, 0, d;
      }
      var added := InsertEvidence(OfAggregate(id.value), e, now);
      MergedAggregateParts(before, d);
      ok, inserted := true, if added then 1 else 0;
    }

    // indexEvidenceByResultRef and indexEvidenceByAggregateRef
    method IndexEvidence(items: seq<EvidenceItem>, ofResults: bool) returns (index: map<string, Evidence>)
      ensures index == EvidenceIndex(items, ofResults)
    {
      hide Trim;
      index := map[];
      assert items[..0] == [];
      for i := 0 to |items|
        invariant index == EvidenceIndex(items[..i], ofResults)
      {
        assert items[..i + 1][..i] == items[..i];
        var key := Trim(if ofResults then items[i].resultRef else items[i].aggregateRef);
        if key != "" {
          index := index[key := items[i].evidence];
        }
      }
      assert items[..|items|] == items;
    }

    // Merges the results of a bundle; ok is false when the database rejects one of them.
    method MergeResults(student: string, b: Bundle, refs: map<string, nat>, now: int, digest: string -> string)
      returns (ok: bool, insertedEvidence: nat, ghost ds: seq<Delivery>)
      modifies this
      ensures lessons == old(lessons)
      ensures Run(old(Tables()), ds, |ds|) && |ds| <= |b.results|
      ensures forall k: nat :: k < |ds| ==> IsResultOf(ds[k], student, b, refs, k, now, digest)
      ensures ok ==> |ds| == |b.results| && Tables() == After(old(Tables()), ds, |ds|)
      ensures ok ==> insertedEvidence == |evidence| - |old(evidence)|
      ensures !ok ==> |ds| < |b.results|
                      && exists d :: IsResultOf(d, student, b, refs, |ds|, now, digest)
                                     && Legal(After(old(Tables()), ds, |ds|), d) && Rejected(After(old(Tables()), ds, |ds|), d)
    {
      hide Legal, Rejected, Merged, EvidenceIndex, SyntheticResultEvidence, Run, After;
      var evidenceByRef := IndexEvidence(b.evidence, true);
      assert Run(Tables(), [], 0) && After(Tables(), [], 0) == Tables() by {
        NoDeliveries(Tables());
      }
      insertedEvidence, ds := 0, [];
      for i := 0 to |b.results|
        invariant lessons == old(lessons)
        invariant |ds| == i && Run(old(Tables()), ds, |ds|)
        invariant forall k: nat :: k < |ds| ==> IsResultOf(ds[k], student, b, refs, k, now, digest)
        invariant Tables() == After(old(Tables()), ds, |ds|)
        invariant insertedEvidence == |evidence| - |old(evidence)|
      {
        var x := b.results[i];
        var lesson: Option<nat> := None;
        if x.lessonRef != "" && x.lessonRef in refs {
          lesson := Some(refs[x.lessonRef]);
        }
        var e := if x.sourceKey in evidenceByRef then evidenceByRef[x.sourceKey] else SyntheticResultEvidence(b, x, digest);
        var merged, inserted, d := MergeResult(Scope(student, b.provider), lesson, x, e, now);
        assert IsResultOf(d, student, b, refs, i, now, digest);
        if !merged {
          return false, insertedEvidence, ds;
        }
        insertedEvidence := insertedEvidence + inserted;
        RunExtendsBy(old(Tables()), ds, d);
        ds := ds + [d];
      }
      ok := true;
    }

    method MergeAggregates(student: string, b: Bundle, now: int, digest: string -> string)
      returns (ok: bool, insertedEvidence: nat, ghost ds: seq<AggregateDelivery>)
      modifies this
      ensures lessons == old(lessons)
      ensures AggregateRun(old(Tables()), ds, |ds|) && |ds| <= |b.aggregates|
      ensures forall k: nat :: k < |ds| ==> IsAggregateOf(ds[k], student, b, k, now, digest)
      ensures ok ==> |ds| == |b.aggregates| && Tables() == AfterAggregates(old(Tables()), ds, |ds|)
      ensures ok ==> insertedEvidence == |evidence| - |old(evidence)|
      ensures !ok ==> |ds| < |b.aggregates|
                      && exists d :: IsAggregateOf(d, student, b, |ds|, now, digest)
                                     && LegalAggregate(AfterAggregates(old(Tables()), ds, |ds|), d)
                                     && RejectedAggregate(AfterAggregates(old(Tables()), ds, |ds|), d)
    {
      hide LegalAggregate, RejectedAggregate, MergedAggregate, EvidenceIndex, SyntheticAggregateEvidence, AggregateRun, AfterAggregates;
      var evidenceByRef := IndexEvidence(b.evidence, false);
      assert AggregateRun(Tables(), [], 0) && AfterAggregates(Tables(), [], 0) == Tables() by {
        NoDeliveries(Tables());
      }
      insertedEvidence, ds := 0, [];
      for i := 0 to |b.aggregates|
        invariant lessons == old(lessons)
        invariant |ds| == i && AggregateRun(old(Tables()), ds, |ds|)
        invariant forall k: nat :: k < |ds| ==> IsAggregateOf(ds[k], student, b, k, now, digest)
        invariant Tables() == AfterAggregates(old(Tables()), ds, |ds|)
        invariant insertedEvidence == |evidence| - |old(evidence)|
      {
        var x := b.aggregates[i];
        var e := if x.sourceKey in evidenceByRef then evidenceByRef[x.sourceKey] else SyntheticAggregateEvidence(b, x, digest);
        var merged, inserted, d := MergeAggregate(Scope(student, b.provider), x, e, now);
        assert IsAggregateOf(d, student, b, i, now, digest);
        if !merged {
          return false, insertedEvidence, ds;
        }
        insertedEvidence := insertedEvidence + inserted;
        AggregateRunExtendsBy(old(Tables()), ds, d);
        ds := ds + [d];
      }
      ok := true;
    }

    // All or nothing: a committed merge has delivered every result and every aggregate of the bundle
    // in order; otherwise no table has changed, and either the commit was lost or the database rejected
    // one of the deliveries.
    method MergeBundle(student: string, b: Bundle, now: int, digest: string -> string, commits: bool)
      returns (committed: bool, stats: MergeStats, ghost refs: map<string, nat>,
               ghost ds: seq<Delivery>, ghost gs: seq<AggregateDelivery>)
      modifies this
      ensures committed ==> lessons == UpsertLessons(old(lessons), student, b.lessons) && commits
      ensures committed ==> refs == LessonRefs(lessons, student, b.lessons)
      ensures committed ==> Merges(old(Tables()), Tables(), student, b, refs, now, digest, ds, gs)
      ensures committed ==>
                && stats.mergedLessons == |b.lessons| && stats.mergedResults == |b.results|
                && stats.mergedAggregates == |b.aggregates| && stats.insertedEvidence == |evidence| - |old(evidence)|
      ensures !committed ==> lessons == old(lessons) && Tables() == old(Tables()) && stats == NO_STATS
      ensures !committed && commits ==> Aborts(old(Tables()), student, b, refs, now, digest, ds, gs)
    {
      hide Run, After, AggregateRun, AfterAggregates, IsResultOf, IsAggregateOf, Legal, Rejected, LegalAggregate, RejectedAggregate;
      var savedLessons, savedRows, savedAggregates, savedEvidence := lessons, rows, aggregates, evidence;
      ds, gs := [], [];
      var resolved := UpsertLessonsOf(student, b.lessons);
      refs := resolved;
      var ok, fromResults, results := MergeResults(student, b, resolved, now, digest);
      ds := results;
      if ok {
        var ok', fromAggregates, merged := MergeAggregates(student, b, now, digest);
        gs := merged;
        if ok' && commits {
          return true, MergeStats(|b.lessons|, |b.results|, |b.aggregates|, fromResults + fromAggregates), refs, ds, gs;
        }
      }
      lessons, rows, aggregates, evidence := savedLessons, savedRows, savedAggregates, savedEvidence;
      committed, stats := false, NO_STATS;
    }
  }

  lemma NoDeliveries(s: Store)
    ensures Run(s, [], 0) && After(s, [], 0) == s
    ensures AggregateRun(s, [], 0) && AfterAggregates(s, [], 0) == s
  {
  }

  lemma BlankMarkMatchesNothing(rows: seq<Row>, scope: Scope, x: Incoming)
    ensures x.markId == "" ==> forall r :: r in rows ==> !MarkMatches(r, scope, x)
    ensures x.sourceKey == "" ==> forall r :: r in rows ==> !SourceKeyMatches(r, scope, x)
  {
  }

  lemma MergedParts(s: Store, d: Delivery)
    requires Legal(s, d)
    ensures Merged(s, d).aggregates == s.aggregates
    ensures Merged(s, d).evidence == WithEvidence(s.evidence, OfResult(Target(s, d)), d.evidence, d.at)
  {
  }

  lemma MergedAggregateParts(s: Store, d: AggregateDelivery)
    requires LegalAggregate(s, d)
    ensures MergedAggregate(s, d).rows == s.rows
    ensures MergedAggregate(s, d).evidence == WithEvidence(s.evidence, OfAggregate(AggregateTarget(s, d)), d.evidence, d.at)
  {
  }

  lemma RunExtendsBy(s: Store, ds: seq<Delivery>, d: Delivery)
    requires Run(s, ds, |ds|) && Legal(After(s, ds, |ds|), d) && !Rejected(After(s, ds, |ds|), d)
    ensures Run(s, ds + [d], |ds| + 1) && After(s, ds + [d], |ds| + 1) == Merged(After(s, ds, |ds|), d)
  {
    hide Legal, Rejected, Merged;
    RunIgnoresRest(s, ds, [d], |ds|);
  }

  lemma {:induction false} AggregateRunPrefixOnly(s: Store, ds: seq<AggregateDelivery>, d: AggregateDelivery, n: nat)
    requires n <= |ds| && AggregateRun(s, ds, n)
    ensures AggregateRun(s, ds + [d], n) && AfterAggregates(s, ds + [d], n) == AfterAggregates(s, ds, n)
  {
    hide LegalAggregate, RejectedAggregate, MergedAggregate;
    if n > 0 {
      AggregateRunPrefixOnly(s, ds, d, n - 1);
    }
  }

  lemma AggregateRunExtendsBy(s: Store, ds: seq<AggregateDelivery>, d: AggregateDelivery)
    requires AggregateRun(s, ds, |ds|) && LegalAggregate(AfterAggregates(s, ds, |ds|), d)
    requires !RejectedAggregate(AfterAggregates(s, ds, |ds|), d)
    ensures AggregateRun(s, ds + [d], |ds| + 1)
    ensures AfterAggregates(s, ds + [d], |ds| + 1) == MergedAggregate(AfterAggregates(s, ds, |ds|), d)
  {
    hide LegalAggregate, RejectedAggregate, MergedAggregate;
    AggregateRunPrefixOnly(s, ds, d, |ds|);
  }
}
