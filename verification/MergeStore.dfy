/**
 The canonical v2 result tables: result rows, aggregate rows and the evidence behind them, with the
 unique indexes and checks the database enforces, and the upsert of one incoming result.
 */
module MergeStore {
  import opened Wrappers
  import opened Text

  datatype Scope = Scope(student: string, provider: string)

  datatype Row = Row(
    scope: Scope, lesson: Option<nat>, kind: string, subjectId: string, subjectName: string,
    workId: string, markId: string, sourceKey: string, valueText: string, mood: string,
    periodId: string, termNo: Option<int>, recordedOn: string)

  datatype AggregateRow = AggregateRow(
    scope: Scope, kind: string, subjectId: string, subjectName: string, periodId: string,
    termNo: Option<int>, yearLabel: string, valueText: string, mood: string, recordedOn: string, sourceKey: string)

  datatype Owner = OfResult(id: nat) | OfAggregate(id: nat)

  datatype EvidenceRow = EvidenceRow(owner: Owner, endpoint: string, moodRaw: string, fingerprint: string, capturedAt: int)

  datatype Store = Store(rows: seq<Row>, aggregates: seq<AggregateRow>, evidence: seq<EvidenceRow>)

  datatype Incoming = Incoming(
    sourceKey: string, kind: string, workId: string, markId: string, subjectId: string, subjectName: string,
    lessonRef: string, recordedOn: string, periodId: string, termNo: Option<int>, valueText: string, mood: string)

  datatype Evidence = Evidence(endpoint: string, moodRaw: string, fingerprint: string)

  const REGULAR := "regular"
  const SOR := "sor"
  const SOCH := "soch"

  // ---------- Evidence ----------

  function SourceEndpointPrecedence(endpoint: string): int {
    match Fold(endpoint)
    case "diary" => 30
    case "period" => 20
    case "final" => 10
    case _ => 0
  }

  // The unique index on (result_id, fingerprint) or (aggregate_id, fingerprint)
  predicate Owns(evidence: seq<EvidenceRow>, owner: Owner, fingerprint: string) {
    exists e :: e in evidence && e.owner == owner && e.fingerprint == fingerprint
  }

  // INSERT ... ON CONFLICT DO NOTHING, skipped for a blank fingerprint
  function WithEvidence(evidence: seq<EvidenceRow>, owner: Owner, e: Evidence, now: int): seq<EvidenceRow> {
    var fingerprint := Trim(e.fingerprint);
    if fingerprint == "" || Owns(evidence, owner, fingerprint) then evidence
    else evidence + [EvidenceRow(owner, e.endpoint, e.moodRaw, fingerprint, now)]
  }

  // The endpoint that ORDER BY captured_at DESC LIMIT 1 may return; blank when there is no row
  predicate LatestEndpoint(evidence: seq<EvidenceRow>, owner: Owner, endpoint: string) {
    if exists e :: e in evidence && e.owner == owner then
      exists e :: e in evidence && e.owner == owner && e.endpoint == endpoint
                  && forall f :: f in evidence && f.owner == owner ==> f.capturedAt <= e.capturedAt
    else endpoint == ""
  }

  // ---------- Indexes and checks on result rows ----------

  function Coalesce(termNo: Option<int>): int {
    if termNo.Some? then termNo.value else -1
  }

  predicate SameMark(a: Row, b: Row) {
    a.scope == b.scope && a.markId != "" && a.markId == b.markId
  }

  predicate SameSourceKey(a: Row, b: Row) {
    a.scope == b.scope && a.sourceKey != "" && a.sourceKey == b.sourceKey
  }

  // Rows without mark and source key fall under the partial fingerprint indexes.
  predicate Unkeyed(r: Row) {
    r.markId == "" && r.sourceKey == ""
  }

  predicate SameRegular(a: Row, b: Row) {
    && Unkeyed(a) && Unkeyed(b) && a.kind == b.kind == REGULAR && a.scope == b.scope
    && a.subjectId == b.subjectId && a.workId == b.workId && a.valueText == b.valueText
    && a.recordedOn == b.recordedOn && a.lesson == b.lesson
  }

  predicate SameSummative(a: Row, b: Row) {
    && Unkeyed(a) && Unkeyed(b) && a.kind == b.kind && (a.kind == SOR || a.kind == SOCH) && a.scope == b.scope
    && a.subjectId == b.subjectId && a.workId == b.workId && Coalesce(a.termNo) == Coalesce(b.termNo)
    && a.valueText == b.valueText && a.recordedOn == b.recordedOn
  }

  predicate Conflict(a: Row, b: Row) {
    SameMark(a, b) || SameSourceKey(a, b) || SameRegular(a, b) || SameSummative(a, b)
  }

  predicate RowsUnique(rows: seq<Row>) {
    forall i: nat, j: nat :: i < j < |rows| ==> !Conflict(rows[i], rows[j])
  }

  // Row i may hold r as far as the unique indexes go.
  predicate Fits(rows: seq<Row>, i: nat, r: Row) {
    forall k: nat :: k < |rows| && k != i ==> !Conflict(rows[k], r)
  }

  // The checks of the table that do not compare rows
  predicate RowChecks(r: Row) {
    && (!Blank(r.markId) || !Blank(r.sourceKey) || !Blank(r.workId))
    && (r.termNo.Some? ==> 1 <= r.termNo.value <= 4)
    && r.kind in {REGULAR, SOR, SOCH}
  }

  // ---------- Finding the existing row ----------

  predicate MarkMatches(r: Row, scope: Scope, x: Incoming) {
    x.markId != "" && r.scope == scope && r.markId == x.markId
  }

  predicate SourceKeyMatches(r: Row, scope: Scope, x: Incoming) {
    x.sourceKey != "" && r.scope == scope && r.sourceKey == x.sourceKey
  }

  predicate FingerprintMatches(r: Row, scope: Scope, lesson: Option<nat>, x: Incoming) {
    && r.scope == scope && r.kind == x.kind && r.subjectId == x.subjectId && r.workId == x.workId
    && r.valueText == x.valueText && r.recordedOn == x.recordedOn
    && (if x.kind == REGULAR then r.lesson == lesson else Coalesce(r.termNo) == Coalesce(x.termNo))
  }

  // The row findExistingAcademicResultV2 may return: by mark, else by source key, else any row with
  // the fingerprint.
  predicate Finds(rows: seq<Row>, scope: Scope, lesson: Option<nat>, x: Incoming, found: Option<nat>) {
    && (found.Some? ==> found.value < |rows|)
    && if exists r :: r in rows && MarkMatches(r, scope, x) then
         found.Some? && MarkMatches(rows[found.value], scope, x)
       else if exists r :: r in rows && SourceKeyMatches(r, scope, x) then
         found.Some? && SourceKeyMatches(rows[found.value], scope, x)
       else if exists r :: r in rows && FingerprintMatches(r, scope, lesson, x) then
         found.Some? && FingerprintMatches(rows[found.value], scope, lesson, x)
       else found.None?
  }

  // ---------- Upserting a result ----------

  function NewRow(scope: Scope, lesson: Option<nat>, x: Incoming): Row {
    Row(scope, lesson, x.kind, x.subjectId, x.subjectName, x.workId, x.markId, x.sourceKey, x.valueText, x.mood,
        x.periodId, x.termNo, x.recordedOn)
  }

  function Fill(current: string, incoming: string): string {
    if Blank(current) && !Blank(incoming) then incoming else current
  }

  function Patched(r: Row, lesson: Option<nat>, x: Incoming, outranks: bool): Row {
    r.(mood := if !Blank(x.mood) && outranks then x.mood else r.mood,
       lesson := if lesson.Some? && outranks then lesson else r.lesson,
       subjectId := Fill(r.subjectId, x.subjectId),
       subjectName := Fill(r.subjectName, x.subjectName))
  }

  // One incoming result with what the database answered while it was merged: the row found, and the
  // endpoint read as that row's latest.
  datatype Delivery = Delivery(
    scope: Scope, lesson: Option<nat>, incoming: Incoming, evidence: Evidence, at: int,
    found: Option<nat>, latest: string)

  predicate Legal(s: Store, d: Delivery) {
    && Finds(s.rows, d.scope, d.lesson, d.incoming, d.found)
    && (d.found.Some? ==> LatestEndpoint(s.evidence, OfResult(d.found.value), d.latest))
  }

  function Target(s: Store, d: Delivery): nat {
    if d.found.Some? then d.found.value else |s.rows|
  }

  predicate Outranks(d: Delivery) {
    SourceEndpointPrecedence(d.evidence.endpoint) > SourceEndpointPrecedence(d.latest)
  }

  // The row the delivery writes
  function Written(s: Store, d: Delivery): Row
    requires Legal(s, d)
  {
    if d.found.Some? then Patched(s.rows[d.found.value], d.lesson, d.incoming, Outranks(d))
    else NewRow(d.scope, d.lesson, d.incoming)
  }

  // Whether the database rejects the write, which aborts the whole merge
  predicate Rejected(s: Store, d: Delivery)
    requires Legal(s, d)
  {
    !RowChecks(Written(s, d)) || !Fits(s.rows, Target(s, d), Written(s, d))
  }

  function Merged(s: Store, d: Delivery): Store
    requires Legal(s, d)
  {
    var row := Written(s, d);
    s.(rows := if d.found.Some? then s.rows[d.found.value := row] else s.rows + [row],
       evidence := WithEvidence(s.evidence, OfResult(Target(s, d)), d.evidence, d.at))
  }

  // ---------- What one delivery keeps ----------

  ghost predicate EvidenceUnique(evidence: seq<EvidenceRow>) {
    forall i: nat, j: nat :: i < j < |evidence| ==>
      evidence[i].owner != evidence[j].owner || evidence[i].fingerprint != evidence[j].fingerprint
  }

  ghost predicate ResultInv(s: Store) {
    && RowsUnique(s.rows)
    && EvidenceUnique(s.evidence)
    && (forall r :: r in s.rows ==> RowChecks(r))
    && (forall e :: e in s.evidence && e.owner.OfResult? ==> e.owner.id < |s.rows|)
    && (forall e :: e in s.evidence ==> e.fingerprint != "" && Unpadded(e.fingerprint))
  }

  lemma InsertNeverConflicts(rows: seq<Row>, scope: Scope, lesson: Option<nat>, x: Incoming)
    requires Finds(rows, scope, lesson, x, None)
    ensures Fits(rows, |rows|, NewRow(scope, lesson, x))
  {
    var row := NewRow(scope, lesson, x);
    forall k: nat | k < |rows|
      ensures !Conflict(rows[k], row)
    {
      var r := rows[k];
      assert r in rows;
      assert !MarkMatches(r, scope, x) && !SourceKeyMatches(r, scope, x) && !FingerprintMatches(r, scope, lesson, x);
    }
  }

  // A row inside a partial index is only ever found by its fingerprint, and a patch then leaves the
  // fingerprint alone; mark and source key never change.
  lemma PatchKeepsIndexKeys(rows: seq<Row>, scope: Scope, lesson: Option<nat>, x: Incoming, i: nat, outranks: bool, r: Row)
    requires Finds(rows, scope, lesson, x, Some(i))
    ensures i < |rows| && (Conflict(r, Patched(rows[i], lesson, x, outranks)) <==> Conflict(r, rows[i]))
  {
    if Unkeyed(rows[i]) {
      UnkeyedIsFoundByFingerprint(rows, scope, lesson, x, i);
      hide Finds, Blank;
    } else {
      assert i < |rows|;
      hide Finds, Blank;
    }
  }

  lemma UnkeyedIsFoundByFingerprint(rows: seq<Row>, scope: Scope, lesson: Option<nat>, x: Incoming, i: nat)
    requires Finds(rows, scope, lesson, x, Some(i)) && Unkeyed(rows[i])
    ensures FingerprintMatches(rows[i], scope, lesson, x)
  {
    assert !MarkMatches(rows[i], scope, x) && !SourceKeyMatches(rows[i], scope, x);
    hide FingerprintMatches;
  }

  lemma PatchFits(rows: seq<Row>, scope: Scope, lesson: Option<nat>, x: Incoming, i: nat, outranks: bool)
    requires RowsUnique(rows) && Finds(rows, scope, lesson, x, Some(i)) && i < |rows|
    ensures Fits(rows, i, Patched(rows[i], lesson, x, outranks))
  {
    hide Finds, Conflict, Patched;
    forall k: nat | k < |rows| && k != i
      ensures !Conflict(rows[k], Patched(rows[i], lesson, x, outranks))
    {
      PatchKeepsIndexKeys(rows, scope, lesson, x, i, outranks, rows[k]);
      ConflictIsSymmetric(rows[k], rows[i]);
    }
  }

  lemma PatchKeepsChecks(r: Row, lesson: Option<nat>, x: Incoming, outranks: bool)
    ensures RowChecks(Patched(r, lesson, x, outranks)) <==> RowChecks(r)
  {
    hide Blank;
  }

  // No insert and no patch of a result is ever rejected for a uniqueness conflict: a delivery aborts
  // exactly when it would insert a row that fails the table's own checks.
  lemma OnlyBadInsertsAreRejected(s: Store, d: Delivery)
    requires ResultInv(s) && Legal(s, d)
    ensures Fits(s.rows, Target(s, d), Written(s, d))
    ensures Rejected(s, d) <==> d.found.None? && !RowChecks(NewRow(d.scope, d.lesson, d.incoming))
  {
    assert d.found.Some? ==> d.found.value < |s.rows| && s.rows[d.found.value] in s.rows;
    hide LatestEndpoint, SourceEndpointPrecedence, EvidenceUnique, Finds, Fits, RowChecks, Patched, NewRow, RowsUnique;
    if d.found.Some? {
      PatchFits(s.rows, d.scope, d.lesson, d.incoming, d.found.value, Outranks(d));
      PatchKeepsChecks(s.rows[d.found.value], d.lesson, d.incoming, Outranks(d));
    } else {
      InsertNeverConflicts(s.rows, d.scope, d.lesson, d.incoming);
    }
  }

  lemma FoundIsRow(rows: seq<Row>, scope: Scope, lesson: Option<nat>, x: Incoming, found: Option<nat>)
    requires Finds(rows, scope, lesson, x, found)
    ensures found.Some? ==> found.value < |rows|
  {
  }

  // Row t replaced, or appended behind the last one
  function WithRow<T>(rows: seq<T>, t: nat, row: T): seq<T> {
    if t < |rows| then rows[t := row] else rows + [row]
  }

  // The parts of a merged store
  lemma MergedIs(s: Store, d: Delivery)
    requires Legal(s, d)
    ensures Target(s, d) <= |s.rows| && (d.found.Some? <==> Target(s, d) < |s.rows|)
    ensures Merged(s, d)
         == s.(rows := WithRow(s.rows, Target(s, d), Written(s, d)),
               evidence := WithEvidence(s.evidence, OfResult(Target(s, d)), d.evidence, d.at))
  {
    hide Finds, LatestEndpoint, WithEvidence, Written;
    FoundIsRow(s.rows, d.scope, d.lesson, d.incoming, d.found);
  }

  lemma EvidenceKept(evidence: seq<EvidenceRow>, owner: Owner, e: Evidence, now: int)
    requires EvidenceUnique(evidence)
    ensures evidence <= WithEvidence(evidence, owner, e, now)
    ensures EvidenceUnique(WithEvidence(evidence, owner, e, now))
    ensures !Blank(e.fingerprint) ==> Owns(WithEvidence(evidence, owner, e, now), owner, Trim(e.fingerprint))
  {
    var evidence' := WithEvidence(evidence, owner, e, now);
    if evidence' != evidence {
      assert evidence'[|evidence|] in evidence';
      forall i: nat | i < |evidence|
        ensures evidence[i].owner != owner || evidence[i].fingerprint != Trim(e.fingerprint)
      {
        assert evidence[i] in evidence;
      }
    }
  }

  lemma OnlyItsEvidenceIsAdded(evidence: seq<EvidenceRow>, owner: Owner, e: Evidence, now: int)
    ensures forall f :: f in WithEvidence(evidence, owner, e, now) ==>
              f in evidence || (f.owner == owner && f.fingerprint == Trim(e.fingerprint) != "")
  {
    hide Trim;
  }

  ghost predicate EvidenceOf(evidence: seq<EvidenceRow>, rows: nat) {
    && (forall e :: e in evidence && e.owner.OfResult? ==> e.owner.id < rows)
    && (forall e :: e in evidence ==> e.fingerprint != "" && Unpadded(e.fingerprint))
  }

  lemma EvidenceStaysInOrder(evidence: seq<EvidenceRow>, owner: Owner, e: Evidence, now: int, rows: nat, rows': nat)
    requires EvidenceOf(evidence, rows) && rows <= rows' && (owner.OfResult? ==> owner.id < rows')
    ensures EvidenceOf(WithEvidence(evidence, owner, e, now), rows')
  {
    hide WithEvidence, Trim, Unpadded;
    OnlyItsEvidenceIsAdded(evidence, owner, e, now);
    assert Unpadded(Trim(e.fingerprint));
  }

  lemma RowsStayUnique(rows: seq<Row>, t: nat, row: Row)
    requires RowsUnique(rows) && t <= |rows| && Fits(rows, t, row)
    ensures RowsUnique(WithRow(rows, t, row))
  {
    hide Conflict;
    var rows' := WithRow(rows, t, row);
    forall i: nat, j: nat | i < j < |rows'|
      ensures !Conflict(rows'[i], rows'[j])
    {
      ConflictIsSymmetric(rows'[i], rows'[j]);
    }
  }

  lemma RowsKeepChecks(rows: seq<Row>, t: nat, row: Row)
    requires (forall r :: r in rows ==> RowChecks(r)) && RowChecks(row)
    ensures forall r :: r in WithRow(rows, t, row) ==> RowChecks(r)
  {
    hide RowChecks;
  }

  lemma MergedKeepsInv(s: Store, d: Delivery)
    requires ResultInv(s) && Legal(s, d) && !Rejected(s, d)
    ensures ResultInv(Merged(s, d))
  {
    var t := Target(s, d);
    hide Merged, RowsUnique, EvidenceUnique, RowChecks, Legal, Unpadded, Written, Fits, WithEvidence, Trim;
    MergedIs(s, d);
    EvidenceKept(s.evidence, OfResult(t), d.evidence, d.at);
    assert EvidenceOf(s.evidence, |s.rows|);
    EvidenceStaysInOrder(s.evidence, OfResult(t), d.evidence, d.at, |s.rows|, |Merged(s, d).rows|);
    RowsStayUnique(s.rows, t, Written(s, d));
    RowsKeepChecks(s.rows, t, Written(s, d));
    hide WithRow;
  }

  lemma ConflictIsSymmetric(a: Row, b: Row)
    ensures Conflict(a, b) <==> Conflict(b, a)
  {
  }

  // Kind, mark, key, work, value, date, term and period of a row never change, nor does a subject
  // field once it is filled.
  predicate Continues(r: Row, r': Row) {
    && r' == r.(mood := r'.mood, lesson := r'.lesson, subjectId := r'.subjectId, subjectName := r'.subjectName)
    && (!Blank(r.subjectId) ==> r'.subjectId == r.subjectId)
    && (!Blank(r.subjectName) ==> r'.subjectName == r.subjectName)
  }

  predicate Extends(s: Store, s': Store) {
    && |s.rows| <= |s'.rows|
    && (forall i: nat :: i < |s.rows| ==> Continues(s.rows[i], s'.rows[i]))
    && s.evidence <= s'.evidence
    && s.aggregates == s'.aggregates
  }

  // A delivery loses nothing, and its evidence, when it has a fingerprint, ends up with the row it
  // resolved to, in exactly one place.
  lemma MergedExtends(s: Store, d: Delivery)
    requires ResultInv(s) && Legal(s, d) && !Rejected(s, d)
    ensures Extends(s, Merged(s, d))
    ensures !Blank(d.evidence.fingerprint) ==>
              Owns(Merged(s, d).evidence, OfResult(Target(s, d)), Trim(d.evidence.fingerprint))
    ensures |Merged(s, d).rows| == |s.rows| + if d.found.None? then 1 else 0
  {
    hide Blank, Trim, Legal, Rejected, WithEvidence, Continues, Owns, Merged, Written, EvidenceUnique, RowsUnique, RowChecks;
    EvidenceKept(s.evidence, OfResult(Target(s, d)), d.evidence, d.at);
    MergedIs(s, d);
    forall i: nat | i < |s.rows|
      ensures Continues(s.rows[i], Merged(s, d).rows[i])
    {
      WrittenContinues(s, d);
      RowContinuesItself(s.rows[i]);
    }
  }

  lemma RowContinuesItself(r: Row)
    ensures Continues(r, r)
  {
  }

  lemma WrittenContinues(s: Store, d: Delivery)
    requires Legal(s, d)
    ensures Target(s, d) < |s.rows| ==> Continues(s.rows[Target(s, d)], Written(s, d))
  {
    hide Finds, LatestEndpoint, Patched, Continues;
    FoundIsRow(s.rows, d.scope, d.lesson, d.incoming, d.found);
    if d.found.Some? {
      PatchContinues(s.rows[d.found.value], d.lesson, d.incoming, Outranks(d));
    }
  }

  lemma PatchContinues(r: Row, lesson: Option<nat>, x: Incoming, outranks: bool)
    ensures Continues(r, Patched(r, lesson, x, outranks))
  {
    hide Blank;
  }
}
