/**
 Term and year aggregates: the upsert of one incoming aggregate, and exactly when the database
 rejects it. Inserts never collide; filling the blank subject of a row found by its key can.
 */
module Aggregates {
  import opened Wrappers
  import opened Text
  import opened MergeStore

  const TERM := "term"
  const YEAR := "year"

  datatype IncomingAggregate = IncomingAggregate(
    sourceKey: string, kind: string, subjectId: string, subjectName: string, recordedOn: string,
    periodId: string, termNo: Option<int>, yearLabel: string, valueText: string, mood: string)

  // ---------- Indexes and checks ----------

  predicate SameAggregateKey(a: AggregateRow, b: AggregateRow) {
    a.scope == b.scope && a.sourceKey != "" && a.sourceKey == b.sourceKey
  }

  // What the term index compares beside the subject; SQL never equates two missing term numbers.
  predicate SameTermSlot(a: AggregateRow, b: AggregateRow) {
    && a.kind == b.kind == TERM && a.scope == b.scope && a.termNo.Some? && a.termNo == b.termNo
    && a.periodId == b.periodId
  }

  predicate SameYearSlot(a: AggregateRow, b: AggregateRow) {
    a.kind == b.kind == YEAR && a.scope == b.scope && a.yearLabel == b.yearLabel
  }

  predicate SameSlot(a: AggregateRow, b: AggregateRow) {
    SameTermSlot(a, b) || SameYearSlot(a, b)
  }

  predicate Collide(a: AggregateRow, b: AggregateRow) {
    SameAggregateKey(a, b) || (SameSlot(a, b) && a.subjectId == b.subjectId)
  }

  predicate AggregateChecks(a: AggregateRow) {
    && (a.kind == TERM || a.kind == YEAR)
    && (a.kind == TERM ==> a.termNo.Some?)
    && (a.kind == YEAR ==> !Blank(a.yearLabel))
    && (a.termNo.Some? ==> 1 <= a.termNo.value <= 4)
  }

  ghost predicate AggregatesUnique(rows: seq<AggregateRow>) {
    forall i: nat, j: nat :: i < j < |rows| ==> !Collide(rows[i], rows[j])
  }

  ghost predicate AggregateInv(s: Store) {
    && AggregatesUnique(s.aggregates)
    && (forall a :: a in s.aggregates ==> AggregateChecks(a))
    && EvidenceUnique(s.evidence)
    && (forall e :: e in s.evidence && e.owner.OfAggregate? ==> e.owner.id < |s.aggregates|)
  }

  predicate FitsAggregate(rows: seq<AggregateRow>, i: nat, a: AggregateRow) {
    forall k: nat :: k < |rows| && k != i ==> !Collide(rows[k], a)
  }

  // ---------- Finding and upserting ----------

  predicate KeyMatches(a: AggregateRow, scope: Scope, x: IncomingAggregate) {
    x.sourceKey != "" && a.scope == scope && a.sourceKey == x.sourceKey
  }

  predicate IdentityMatches(a: AggregateRow, scope: Scope, x: IncomingAggregate) {
    && a.scope == scope && a.kind == x.kind && a.subjectId == x.subjectId
    && ((x.kind == TERM && Coalesce(a.termNo) == Coalesce(x.termNo) && a.periodId == x.periodId)
        || (x.kind == YEAR && a.yearLabel == x.yearLabel))
  }

  predicate FindsAggregate(rows: seq<AggregateRow>, scope: Scope, x: IncomingAggregate, found: Option<nat>) {
    && (found.Some? ==> found.value < |rows|)
    && if exists a :: a in rows && KeyMatches(a, scope, x) then
         found.Some? && KeyMatches(rows[found.value], scope, x)
       else if exists a :: a in rows && IdentityMatches(a, scope, x) then
         found.Some? && IdentityMatches(rows[found.value], scope, x)
       else found.None?
  }

  function NewAggregate(scope: Scope, x: IncomingAggregate): AggregateRow {
    AggregateRow(scope, x.kind, x.subjectId, x.subjectName, x.periodId, x.termNo, x.yearLabel, x.valueText, x.mood,
                 x.recordedOn, x.sourceKey)
  }

  function PatchedAggregate(a: AggregateRow, x: IncomingAggregate, outranks: bool): AggregateRow {
    a.(mood := if !Blank(x.mood) && outranks then x.mood else a.mood,
       subjectId := Fill(a.subjectId, x.subjectId),
       subjectName := Fill(a.subjectName, x.subjectName))
  }

  datatype AggregateDelivery = AggregateDelivery(
    scope: Scope, incoming: IncomingAggregate, evidence: Evidence, at: int, found: Option<nat>, latest: string)

  predicate LegalAggregate(s: Store, d: AggregateDelivery) {
    && FindsAggregate(s.aggregates, d.scope, d.incoming, d.found)
    && (d.found.Some? ==> LatestEndpoint(s.evidence, OfAggregate(d.found.value), d.latest))
  }

  function AggregateTarget(s: Store, d: AggregateDelivery): nat {
    if d.found.Some? then d.found.value else |s.aggregates|
  }

  predicate AggregateOutranks(d: AggregateDelivery) {
    SourceEndpointPrecedence(d.evidence.endpoint) > SourceEndpointPrecedence(d.latest)
  }

  function WrittenAggregate(s: Store, d: AggregateDelivery): AggregateRow
    requires LegalAggregate(s, d)
  {
    if d.found.Some? then PatchedAggregate(s.aggregates[d.found.value], d.incoming, AggregateOutranks(d))
    else NewAggregate(d.scope, d.incoming)
  }

  predicate RejectedAggregate(s: Store, d: AggregateDelivery)
    requires LegalAggregate(s, d)
  {
    || !AggregateChecks(WrittenAggregate(s, d))
    || !FitsAggregate(s.aggregates, AggregateTarget(s, d), WrittenAggregate(s, d))
  }

  function MergedAggregate(s: Store, d: AggregateDelivery): Store
    requires LegalAggregate(s, d)
  {
    var row := WrittenAggregate(s, d);
    s.(aggregates := if d.found.Some? then s.aggregates[d.found.value := row] else s.aggregates + [row],
       evidence := WithEvidence(s.evidence, OfAggregate(AggregateTarget(s, d)), d.evidence, d.at))
  }

  // ---------- When an aggregate is rejected ----------

  // The row has no subject yet, the delivery brings one, and another row already stands for that
  // subject in the same term or year.
  predicate FillCollides(rows: seq<AggregateRow>, i: nat, x: IncomingAggregate)
    requires i < |rows|
  {
    && Blank(rows[i].subjectId) && !Blank(x.subjectId)
    && exists k :: 0 <= k < |rows| && k != i && SameSlot(rows[k], rows[i]) && rows[k].subjectId == x.subjectId
  }

  lemma AggregateInsertNeverCollides(rows: seq<AggregateRow>, scope: Scope, x: IncomingAggregate)
    requires FindsAggregate(rows, scope, x, None)
    ensures FitsAggregate(rows, |rows|, NewAggregate(scope, x))
  {
    forall k: nat | k < |rows|
      ensures !Collide(rows[k], NewAggregate(scope, x))
    {
      assert rows[k] in rows;
      assert !KeyMatches(rows[k], scope, x) && !IdentityMatches(rows[k], scope, x);
    }
  }

  lemma CollideIsSymmetric(a: AggregateRow, b: AggregateRow)
    ensures Collide(a, b) <==> Collide(b, a)
  {
  }

  lemma PatchCollidesExactlyOnFill(s: Store, i: nat, x: IncomingAggregate, outranks: bool)
    requires AggregateInv(s) && i < |s.aggregates|
    ensures FitsAggregate(s.aggregates, i, PatchedAggregate(s.aggregates[i], x, outranks)) <==> !FillCollides(s.aggregates, i, x)
  {
    hide Blank, AggregateChecks, EvidenceUnique;
    var rows, row := s.aggregates, PatchedAggregate(s.aggregates[i], x, outranks);
    forall k: nat | k < |rows| && k != i
      ensures Collide(rows[k], row) <==>
              Blank(rows[i].subjectId) && !Blank(x.subjectId) && SameSlot(rows[k], rows[i]) && rows[k].subjectId == x.subjectId
    {
      assert !Collide(rows[k], rows[i]) by {
        CollideIsSymmetric(rows[k], rows[i]);
      }
    }
  }

  lemma PatchKeepsAggregateChecks(a: AggregateRow, x: IncomingAggregate, outranks: bool)
    ensures AggregateChecks(PatchedAggregate(a, x, outranks)) <==> AggregateChecks(a)
  {
    hide Blank;
  }

  // A delivery aborts the merge exactly when it inserts a row that fails the table's own checks, or
  // fills a blank subject that another row of the same term or year holds.
  lemma AggregateRejectedExactly(s: Store, d: AggregateDelivery)
    requires AggregateInv(s) && LegalAggregate(s, d)
    ensures RejectedAggregate(s, d) <==>
            if d.found.None? then !AggregateChecks(NewAggregate(d.scope, d.incoming))
            else FillCollides(s.aggregates, d.found.value, d.incoming)
  {
    if d.found.Some? {
      assert s.aggregates[d.found.value] in s.aggregates;
      PatchCollidesExactlyOnFill(s, d.found.value, d.incoming, AggregateOutranks(d));
      PatchKeepsAggregateChecks(s.aggregates[d.found.value], d.incoming, AggregateOutranks(d));
      hide FillCollides, AggregateChecks, PatchedAggregate, FitsAggregate, LatestEndpoint, Collide;
    } else {
      AggregateInsertNeverCollides(s.aggregates, d.scope, d.incoming);
    }
  }

  // Such a collision happens to rows found by their key only.
  lemma CollidingFillWasFoundByKey(s: Store, d: AggregateDelivery)
    requires LegalAggregate(s, d) && d.found.Some? && FillCollides(s.aggregates, d.found.value, d.incoming)
    ensures KeyMatches(s.aggregates[d.found.value], d.scope, d.incoming)
  {
    hide LatestEndpoint, Blank, SameSlot;
  }

  lemma FoundIsAggregate(rows: seq<AggregateRow>, scope: Scope, x: IncomingAggregate, found: Option<nat>)
    requires FindsAggregate(rows, scope, x, found)
    ensures found.Some? ==> found.value < |rows|
  {
  }

  // The parts of a merged store
  lemma MergedAggregateIs(s: Store, d: AggregateDelivery)
    requires LegalAggregate(s, d)
    ensures AggregateTarget(s, d) <= |s.aggregates| && (d.found.Some? <==> AggregateTarget(s, d) < |s.aggregates|)
    ensures MergedAggregate(s, d)
         == s.(aggregates := WithRow(s.aggregates, AggregateTarget(s, d), WrittenAggregate(s, d)),
               evidence := WithEvidence(s.evidence, OfAggregate(AggregateTarget(s, d)), d.evidence, d.at))
  {
    hide FindsAggregate, LatestEndpoint, WithEvidence, WrittenAggregate;
    FoundIsAggregate(s.aggregates, d.scope, d.incoming, d.found);
  }

  lemma AggregatesStayUnique(rows: seq<AggregateRow>, t: nat, row: AggregateRow)
    requires AggregatesUnique(rows) && t <= |rows| && FitsAggregate(rows, t, row)
    ensures AggregatesUnique(WithRow(rows, t, row))
  {
    hide Collide;
    var rows' := WithRow(rows, t, row);
    forall i: nat, j: nat | i < j < |rows'|
      ensures !Collide(rows'[i], rows'[j])
    {
      CollideIsSymmetric(rows'[i], rows'[j]);
    }
  }

  lemma AggregatesKeepChecks(rows: seq<AggregateRow>, t: nat, row: AggregateRow)
    requires (forall a :: a in rows ==> AggregateChecks(a)) && AggregateChecks(row)
    ensures forall a :: a in WithRow(rows, t, row) ==> AggregateChecks(a)
  {
    hide AggregateChecks;
  }

  // Kind, key, term, period, year, value and date of an aggregate never change, nor does a subject
  // field once it is filled.
  predicate ContinuesAggregate(a: AggregateRow, a': AggregateRow) {
    && a' == a.(mood := a'.mood, subjectId := a'.subjectId, subjectName := a'.subjectName)
    && (!Blank(a.subjectId) ==> a'.subjectId == a.subjectId)
    && (!Blank(a.subjectName) ==> a'.subjectName == a.subjectName)
  }

  predicate AggregatesContinue(rows: seq<AggregateRow>, rows': seq<AggregateRow>) {
    && |rows| <= |rows'|
    && forall i: nat :: i < |rows| ==> ContinuesAggregate(rows[i], rows'[i])
  }

  lemma AggregatesContinueOn(a: seq<AggregateRow>, b: seq<AggregateRow>, c: seq<AggregateRow>)
    requires AggregatesContinue(a, b) && AggregatesContinue(b, c)
    ensures AggregatesContinue(a, c)
  {
    hide Blank;
    forall i: nat | i < |a|
      ensures ContinuesAggregate(a[i], c[i])
    {
      assert ContinuesAggregate(a[i], b[i]) && ContinuesAggregate(b[i], c[i]);
    }
  }

  lemma PatchContinuesAggregate(a: AggregateRow, x: IncomingAggregate, outranks: bool)
    ensures ContinuesAggregate(a, a) && ContinuesAggregate(a, PatchedAggregate(a, x, outranks))
  {
    hide Blank;
  }

  // A delivery loses no aggregate and adds at most one.
  lemma MergedAggregatesContinue(s: Store, d: AggregateDelivery)
    requires LegalAggregate(s, d)
    ensures AggregatesContinue(s.aggregates, MergedAggregate(s, d).aggregates)
    ensures |MergedAggregate(s, d).aggregates| == |s.aggregates| + if d.found.None? then 1 else 0
  {
    hide FindsAggregate, LatestEndpoint, WithEvidence, PatchedAggregate, NewAggregate, ContinuesAggregate;
    FoundIsAggregate(s.aggregates, d.scope, d.incoming, d.found);
    forall i: nat | i < |s.aggregates|
      ensures ContinuesAggregate(s.aggregates[i], MergedAggregate(s, d).aggregates[i])
    {
      PatchContinuesAggregate(s.aggregates[i], d.incoming, AggregateOutranks(d));
    }
  }

  lemma MergedAggregateKeepsInv(s: Store, d: AggregateDelivery)
    requires AggregateInv(s) && LegalAggregate(s, d) && !RejectedAggregate(s, d)
    ensures AggregateInv(MergedAggregate(s, d))
    ensures MergedAggregate(s, d).rows == s.rows && s.evidence <= MergedAggregate(s, d).evidence
  {
    var t := AggregateTarget(s, d);
    hide Collide, AggregateChecks, EvidenceUnique, LegalAggregate, FitsAggregate, MergedAggregate, WrittenAggregate, WithEvidence, Trim;
    MergedAggregateIs(s, d);
    EvidenceKept(s.evidence, OfAggregate(t), d.evidence, d.at);
    OnlyItsEvidenceIsAdded(s.evidence, OfAggregate(t), d.evidence, d.at);
    AggregatesStayUnique(s.aggregates, t, WrittenAggregate(s, d));
    AggregatesKeepChecks(s.aggregates, t, WrittenAggregate(s, d));
  }

  // Merging an aggregate leaves the results' invariant alone.
  lemma MergedAggregateKeepsResultInv(s: Store, d: AggregateDelivery)
    requires ResultInv(s) && LegalAggregate(s, d)
    ensures ResultInv(MergedAggregate(s, d))
  {
    var t := AggregateTarget(s, d);
    hide RowsUnique, EvidenceUnique, RowChecks, LegalAggregate, MergedAggregate, WrittenAggregate, WithEvidence, Trim, Unpadded;
    MergedAggregateIs(s, d);
    EvidenceKept(s.evidence, OfAggregate(t), d.evidence, d.at);
    assert EvidenceOf(s.evidence, |s.rows|);
    EvidenceStaysInOrder(s.evidence, OfAggregate(t), d.evidence, d.at, |s.rows|, |s.rows|);
  }

  // ---------- Several aggregates ----------

  predicate AggregateRun(s: Store, ds: seq<AggregateDelivery>, n: nat)
    requires n <= |ds|
    decreases n, 0
  {
    n == 0
    || (AggregateRun(s, ds, n - 1) && LegalAggregate(AfterAggregates(s, ds, n - 1), ds[n - 1])
        && !RejectedAggregate(AfterAggregates(s, ds, n - 1), ds[n - 1]))
  }

  function AfterAggregates(s: Store, ds: seq<AggregateDelivery>, n: nat): Store
    requires n <= |ds| && AggregateRun(s, ds, n)
    decreases n, 1
  {
    if n == 0 then s else MergedAggregate(AfterAggregates(s, ds, n - 1), ds[n - 1])
  }

  lemma AggregatesStand(rows: seq<AggregateRow>)
    ensures AggregatesContinue(rows, rows)
  {
  }

  // Delivering any number of aggregates keeps every index, loses nothing and leaves the results alone.
  lemma {:induction false} AggregateRunKeepsInv(s: Store, ds: seq<AggregateDelivery>, n: nat)
    requires AggregateInv(s) && ResultInv(s) && n <= |ds| && AggregateRun(s, ds, n)
    ensures AggregateInv(AfterAggregates(s, ds, n)) && ResultInv(AfterAggregates(s, ds, n))
    ensures AfterAggregates(s, ds, n).rows == s.rows && s.evidence <= AfterAggregates(s, ds, n).evidence
    ensures AggregatesContinue(s.aggregates, AfterAggregates(s, ds, n).aggregates)
    ensures |AfterAggregates(s, ds, n).aggregates| <= |s.aggregates| + n
  {
    hide MergedAggregate, LegalAggregate, RejectedAggregate, AggregateInv, ResultInv, ContinuesAggregate;
    if n == 0 {
      AggregatesStand(s.aggregates);
    } else {
      AggregateRunKeepsInv(s, ds, n - 1);
      MergedAggregatesContinue(AfterAggregates(s, ds, n - 1), ds[n - 1]);
      AggregatesContinueOn(s.aggregates, AfterAggregates(s, ds, n - 1).aggregates, AfterAggregates(s, ds, n).aggregates);
      MergedAggregateKeepsInv(AfterAggregates(s, ds, n - 1), ds[n - 1]);
      MergedAggregateKeepsResultInv(AfterAggregates(s, ds, n - 1), ds[n - 1]);
    }
  }
}
