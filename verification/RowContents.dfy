/**
 What the rows of a reachable store hold, column by column: what they were inserted with, for good, and
 what later deliveries may fill in or replace. The unique indexes and the reasons to reject a delivery
 are spelled out on the columns, too.
 */
module RowContents {
  import opened Wrappers
  import opened Text
  import opened MergeStore
  import opened Aggregates
  import opened ResultRuns
  import opened Bundles
  import opened BundleRuns

  // ---------- The indexes and checks, on the columns ----------

  // No two result rows of a reachable store agree on what one of the four unique indexes compares.
  lemma ReachableResultsAreUnique(ms: seq<Merge>, n: nat, digest: string -> string, i: nat, j: nat)
    requires n <= |ms| && BundleRuns.Merged(ms, n, digest)
    requires i < |State(ms, n, digest).tables.rows| && j < |State(ms, n, digest).tables.rows| && i != j
    ensures
      var a, b := State(ms, n, digest).tables.rows[i], State(ms, n, digest).tables.rows[j];
      var sameWork := a.scope == b.scope && a.kind == b.kind && a.subjectId == b.subjectId && a.workId == b.workId
        && a.valueText == b.valueText && a.recordedOn == b.recordedOn
        && a.markId == b.markId == "" && a.sourceKey == b.sourceKey == "";
      var term, term' := if a.termNo.Some? then a.termNo.value else -1, if b.termNo.Some? then b.termNo.value else -1;
      && !(a.scope == b.scope && a.markId == b.markId != "")
      && !(a.scope == b.scope && a.sourceKey == b.sourceKey != "")
      && !(sameWork && a.kind == "regular" && a.lesson == b.lesson)
      && !(sameWork && (a.kind == "sor" || a.kind == "soch") && term == term')
  {
    hide Outcome;
    ReachableKeepsInv(ms, n, digest);
    var rows := State(ms, n, digest).tables.rows;
    hide AggregateInv, EvidenceUnique, RowChecks, Unpadded, BundleRuns.Merged, State;
    ConflictIsSymmetric(rows[i], rows[j]);
    assert !Conflict(rows[if i < j then i else j], rows[if i < j then j else i]);
  }

  // Nor do two aggregates.
  lemma ReachableAggregatesAreUnique(ms: seq<Merge>, n: nat, digest: string -> string, i: nat, j: nat)
    requires n <= |ms| && BundleRuns.Merged(ms, n, digest)
    requires i < |State(ms, n, digest).tables.aggregates| && j < |State(ms, n, digest).tables.aggregates| && i != j
    ensures
      var a, b := State(ms, n, digest).tables.aggregates[i], State(ms, n, digest).tables.aggregates[j];
      && !(a.scope == b.scope && a.sourceKey == b.sourceKey != "")
      && !(a.scope == b.scope && a.kind == b.kind == "term" && a.termNo == b.termNo && a.termNo.Some?
           && a.periodId == b.periodId && a.subjectId == b.subjectId)
      && !(a.scope == b.scope && a.kind == b.kind == "year" && a.yearLabel == b.yearLabel && a.subjectId == b.subjectId)
  {
    hide Outcome;
    ReachableKeepsInv(ms, n, digest);
    var rows := State(ms, n, digest).tables.aggregates;
    hide ResultInv, EvidenceUnique, AggregateChecks, BundleRuns.Merged, State;
    CollideIsSymmetric(rows[i], rows[j]);
    assert !Collide(rows[if i < j then i else j], rows[if i < j then j else i]);
  }

  // A result is rejected exactly if it would be inserted and has neither mark nor key nor work, a term
  // that is not 1 to 4, or an unknown kind.
  lemma ResultRejectedOnColumns(s: Store, d: Delivery)
    requires ResultInv(s) && Legal(s, d)
    ensures
      var x := d.incoming;
      Rejected(s, d) <==>
        && d.found.None?
        && ((Blank(x.markId) && Blank(x.sourceKey) && Blank(x.workId))
            || (x.termNo.Some? && !(1 <= x.termNo.value <= 4))
            || !(x.kind == "regular" || x.kind == "sor" || x.kind == "soch"))
  {
    hide Blank, ResultInv, Legal, Rejected, Fits, Written;
    OnlyBadInsertsAreRejected(s, d);
  }

  // An aggregate is rejected exactly if it would be inserted as neither a term with its number, 1 to 4,
  // nor a year with its label, or if it fills the subject of a row that another row then equals.
  lemma AggregateRejectedOnColumns(s: Store, d: AggregateDelivery)
    requires AggregateInv(s) && LegalAggregate(s, d)
    ensures
      var x := d.incoming;
      RejectedAggregate(s, d) <==>
        if d.found.None? then
          || !((x.kind == "term" && x.termNo.Some?) || (x.kind == "year" && !Blank(x.yearLabel)))
          || (x.termNo.Some? && !(1 <= x.termNo.value <= 4))
        else
          && d.found.value < |s.aggregates|
          && var a := s.aggregates[d.found.value];
             && Blank(a.subjectId) && !Blank(x.subjectId)
             && exists k: nat :: k < |s.aggregates| && k != d.found.value && SharesSlot(s.aggregates[k], a, x.subjectId)
  {
    hide Blank, LatestEndpoint, WrittenAggregate, FitsAggregate, FindsAggregate, AggregatesUnique, EvidenceUnique;
    AggregateRejectedExactly(s, d);
    FoundIsAggregate(s.aggregates, d.scope, d.incoming, d.found);
    hide RejectedAggregate, LegalAggregate, AggregateInv;
    if d.found.Some? {
      var a := s.aggregates[d.found.value];
      assert forall k: nat :: k < |s.aggregates| ==>
        (SharesSlot(s.aggregates[k], a, d.incoming.subjectId)
         <==> SameSlot(s.aggregates[k], a) && s.aggregates[k].subjectId == d.incoming.subjectId);
    }
  }

  // b has the subject and, with a, the term of a student and provider, or the year.
  predicate SharesSlot(b: AggregateRow, a: AggregateRow, subject: string) {
    && b.subjectId == subject && b.scope == a.scope && b.kind == a.kind
    && ((b.kind == "term" && b.termNo.Some? && b.termNo == a.termNo && b.periodId == a.periodId)
        || (b.kind == "year" && b.yearLabel == a.yearLabel))
  }

  // ---------- The columns of a result row ----------

  lemma InsertHasColumns(s: Store, d: Delivery)
    requires Legal(s, d) && d.found.None?
    ensures
      var rows := MergeStore.Merged(s, d).rows;
      && |rows| == |s.rows| + 1
      && var r := rows[|s.rows|];
         && r.scope == d.scope && r.lesson == d.lesson && r.kind == d.incoming.kind && r.subjectId == d.incoming.subjectId
         && r.subjectName == d.incoming.subjectName && r.workId == d.incoming.workId && r.markId == d.incoming.markId
         && r.sourceKey == d.incoming.sourceKey && r.valueText == d.incoming.valueText && r.mood == d.incoming.mood
         && r.periodId == d.incoming.periodId && r.termNo == d.incoming.termNo && r.recordedOn == d.incoming.recordedOn
  {
    hide Finds, LatestEndpoint, WithEvidence;
  }

  lemma FixedColumnsStay(r: Row, r': Row)
    requires Continues(r, r')
    ensures r'.scope == r.scope && r'.kind == r.kind && r'.workId == r.workId && r'.markId == r.markId
    ensures r'.sourceKey == r.sourceKey && r'.valueText == r.valueText && r'.recordedOn == r.recordedOn
    ensures r'.termNo == r.termNo && r'.periodId == r.periodId
  {
    hide Blank;
  }

  // The rows of a merge after some of its results continue in the database it leaves.
  lemma RowsContinueToCommit(db: Db, m: Merge, digest: string -> string, k: nat)
    requires DbInv(db) && Commits(db, m, digest) && k <= |m.ds|
    ensures Run(db.tables, m.ds, k)
    ensures
      var before, after := After(db.tables, m.ds, k).rows, Committed(db, m, digest).tables.rows;
      |before| <= |after| && forall r: nat :: r < |before| ==> Continues(before[r], after[r])
  {
    hide Run, After, AggregateRun, AfterAggregates, Continues, IsResultOf, IsAggregateOf, ResultInv, AggregateInv, RefsOf, LessonsAfter;
    RunPrefix(db.tables, m.ds, k, |m.ds|);
    RunExtends(db.tables, m.ds, k, |m.ds|);
    AggregatesKeepResults(After(db.tables, m.ds, |m.ds|), m.gs, |m.gs|);
  }

  lemma StateCommits(ms: seq<Merge>, i: nat, digest: string -> string)
    requires i < |ms| && BundleRuns.Merged(ms, i + 1, digest)
    ensures BundleRuns.Merged(ms, i, digest) && Commits(State(ms, i, digest), ms[i], digest)
    ensures State(ms, i + 1, digest) == Committed(State(ms, i, digest), ms[i], digest)
    ensures |ms[i].ds| == |ms[i].bundle.results| && |ms[i].gs| == |ms[i].bundle.aggregates|
    ensures Run(State(ms, i, digest).tables, ms[i].ds, |ms[i].ds|)
  {
    hide Run, After, AggregateRun, AfterAggregates, Committed, RefsOf;
  }

  // In every later store the row a result was inserted as has that result's kind, work, mark, key,
  // value, date, term and period, for its bundle's student and provider.
  lemma InsertedRowKeepsColumns(ms: seq<Merge>, n: nat, digest: string -> string, i: nat, k: nat)
    requires i < n <= |ms| && BundleRuns.Merged(ms, n, digest) && BundleRuns.Merged(ms, i, digest)
    requires k < |ms[i].bundle.results| && k < |ms[i].ds| && ms[i].ds[k].found.None?
    requires Run(State(ms, i, digest).tables, ms[i].ds, k)
    ensures
      var r := |After(State(ms, i, digest).tables, ms[i].ds, k).rows|;
      && r < |State(ms, n, digest).tables.rows|
      && var row, x := State(ms, n, digest).tables.rows[r], ms[i].bundle.results[k];
         && row.scope.student == ms[i].student && row.scope.provider == ms[i].bundle.provider
         && row.kind == x.kind && row.workId == x.workId && row.markId == x.markId && row.sourceKey == x.sourceKey
         && row.valueText == x.valueText && row.recordedOn == x.recordedOn && row.termNo == x.termNo
         && row.periodId == x.periodId
  {
    hide Outcome, Commits, Committed, DbInv, DbExtends, Continues, Legal, Rejected, MergeStore.Merged, RefsOf;
    MergedPrefix(ms, i + 1, n, digest);
    StateCommits(ms, i, digest);
    var db, m := State(ms, i, digest), ms[i];
    var r := |After(db.tables, m.ds, k).rows|;
    RunPrefix(db.tables, m.ds, k + 1, |m.ds|);
    InsertHasColumns(After(db.tables, m.ds, k), m.ds[k]);
    InputColumns(db, m, digest, k);
    hide Run, After, BundleRuns.Merged, State;
    ReachableKeepsInv(ms, i, digest);
    RowsContinueToCommit(db, m, digest, k + 1);
    ReachableExtends(ms, i + 1, n, digest);
    DbRowContinues(State(ms, i + 1, digest), State(ms, n, digest), r);
    FixedColumnsStay(After(db.tables, m.ds, k + 1).rows[r], State(ms, i + 1, digest).tables.rows[r]);
    FixedColumnsStay(State(ms, i + 1, digest).tables.rows[r], State(ms, n, digest).tables.rows[r]);
  }

  lemma DbRowContinues(a: Db, b: Db, r: nat)
    requires DbExtends(a, b) && r < |a.tables.rows|
    ensures r < |b.tables.rows| && Continues(a.tables.rows[r], b.tables.rows[r])
  {
    hide Continues, AggregatesContinue;
  }

  lemma InputColumns(db: Db, m: Merge, digest: string -> string, k: nat)
    requires Commits(db, m, digest) && k < |m.ds| && k < |m.bundle.results|
    ensures m.ds[k].incoming == m.bundle.results[k]
    ensures m.ds[k].scope.student == m.student && m.ds[k].scope.provider == m.bundle.provider
  {
    hide Run, After, AggregateRun, AfterAggregates, RefsOf, ResultEvidence, Resolve;
    assert IsResultOf(m.ds[k], m.student, m.bundle, RefsOf(db, m), k, m.at, digest);
  }

  // ---------- Subject texts ----------

  // What the deliveries to row r among the first n state for a field, oldest first
  function DeliveredTexts(ds: seq<Delivery>, n: nat, r: nat, field: Incoming -> string): seq<string>
    requires n <= |ds| && Run(NO_TABLES, ds, n)
  {
    hide Legal, Rejected, MergeStore.Merged;
    if n == 0 then []
    else
      DeliveredTexts(ds, n - 1, r, field)
      + if Target(After(NO_TABLES, ds, n - 1), ds[n - 1]) == r then [field(ds[n - 1].incoming)] else []
  }

  // The first text that is not blank or, if all are blank, the first one
  predicate IsFirstText(texts: seq<string>, text: string) {
    if forall i: nat :: i < |texts| ==> Blank(texts[i]) then texts != [] && text == texts[0]
    else exists i: nat :: i < |texts| && text == texts[i] && !Blank(text) && forall j: nat :: j < i ==> Blank(texts[j])
  }

  lemma NextText(texts: seq<string>, text: string, next: string)
    requires IsFirstText(texts, text)
    ensures IsFirstText(texts + [next], if Blank(text) && !Blank(next) then next else text)
  {
    hide Blank;
    var all := texts + [next];
    if !Blank(text) {
      var i: nat :| i < |texts| && text == texts[i] && !Blank(text) && forall j: nat :: j < i ==> Blank(texts[j]);
      assert all[i] == text;
    } else if !Blank(next) {
      assert forall i: nat :: i < |texts| ==> Blank(texts[i]);
      assert all[|texts|] == next;
    } else {
      assert forall i: nat :: i < |all| ==> Blank(all[i]);
    }
  }

  // A text column: an insert takes it from the result, a patch fills it if it is blank.
  ghost predicate TextColumn(column: Row -> string, field: Incoming -> string) {
    && (forall scope, lesson, x :: column(NewRow(scope, lesson, x)) == field(x))
    && (forall r, lesson, x, outranks :: column(Patched(r, lesson, x, outranks)) == Fill(column(r), field(x)))
  }

  lemma SubjectsAreTextColumns()
    ensures TextColumn((r: Row) => r.subjectId, (x: Incoming) => x.subjectId)
    ensures TextColumn((r: Row) => r.subjectName, (x: Incoming) => x.subjectName)
  {
    hide Blank, Fill;
  }

  lemma ColumnAfter(s: Store, d: Delivery, r: nat, column: Row -> string, field: Incoming -> string)
    requires Legal(s, d) && TextColumn(column, field) && r < |MergeStore.Merged(s, d).rows|
    ensures Target(s, d) != r ==> r < |s.rows| && MergeStore.Merged(s, d).rows[r] == s.rows[r]
    ensures Target(s, d) == r ==>
              column(MergeStore.Merged(s, d).rows[r])
              == if r < |s.rows| then Fill(column(s.rows[r]), field(d.incoming)) else field(d.incoming)
  {
    hide Legal, MergeStore.Merged, Patched, NewRow, Fill, WithEvidence, Outranks;
    MergedIs(s, d);
  }

  lemma {:induction false} TextFollows(ds: seq<Delivery>, n: nat, r: nat, column: Row -> string, field: Incoming -> string)
    requires n <= |ds| && Run(NO_TABLES, ds, n) && TextColumn(column, field)
    ensures
      if r < |After(NO_TABLES, ds, n).rows| then
        IsFirstText(DeliveredTexts(ds, n, r, field), column(After(NO_TABLES, ds, n).rows[r]))
      else DeliveredTexts(ds, n, r, field) == []
  {
    hide Legal, Rejected, MergeStore.Merged, IsFirstText, Blank, TextColumn, Target;
    if n > 0 {
      TextFollows(ds, n - 1, r, column, field);
      var s, d := After(NO_TABLES, ds, n - 1), ds[n - 1];
      TargetIsARow(s, d);
      var earlier := DeliveredTexts(ds, n - 1, r, field);
      assert Target(s, d) != r ==> DeliveredTexts(ds, n, r, field) == earlier;
      assert Target(s, d) == r ==> DeliveredTexts(ds, n, r, field) == earlier + [field(d.incoming)];
      if r < |After(NO_TABLES, ds, n).rows| {
        ColumnAfter(s, d, r, column, field);
        if Target(s, d) == r {
          if r < |s.rows| {
            NextText(earlier, column(s.rows[r]), field(d.incoming));
          } else {
            assert DeliveredTexts(ds, n, r, field) == [field(d.incoming)];
            OneText(field(d.incoming));
          }
        }
      }
    }
  }

  lemma OneText(text: string)
    ensures IsFirstText([text], text)
  {
    hide Blank;
    assert [text][0] == text;
  }

  lemma TargetIsARow(s: Store, d: Delivery)
    requires Legal(s, d)
    ensures Target(s, d) < |MergeStore.Merged(s, d).rows| && |s.rows| <= |MergeStore.Merged(s, d).rows|
  {
    MergedIs(s, d);
    hide Legal, MergeStore.Merged, Written, WithEvidence;
  }

  // Over any run of merges each subject text of a row is the first one that is not blank among those
  // delivered to the row, or the inserted one if all are blank.
  lemma SubjectsAreTheFirstStated(ms: seq<Merge>, n: nat, digest: string -> string, r: nat)
    requires n <= |ms| && BundleRuns.Merged(ms, n, digest) && r < |State(ms, n, digest).tables.rows|
    ensures Run(NO_TABLES, Flat(ms, n), |Flat(ms, n)|)
    ensures IsFirstText(DeliveredTexts(Flat(ms, n), |Flat(ms, n)|, r, (x: Incoming) => x.subjectId),
                        State(ms, n, digest).tables.rows[r].subjectId)
    ensures IsFirstText(DeliveredTexts(Flat(ms, n), |Flat(ms, n)|, r, (x: Incoming) => x.subjectName),
                        State(ms, n, digest).tables.rows[r].subjectName)
  {
    hide Run, After, DeliveredTexts, IsFirstText, BundleRuns.Merged, State, TextColumn;
    var t := FlatIsARun(ms, n, digest);
    SubjectsAreTextColumns();
    TextFollows(Flat(ms, n), |Flat(ms, n)|, r, (w: Row) => w.subjectId, (x: Incoming) => x.subjectId);
    TextFollows(Flat(ms, n), |Flat(ms, n)|, r, (w: Row) => w.subjectName, (x: Incoming) => x.subjectName);
  }

  // ---------- The columns of an aggregate ----------

  lemma AggregateInsertHasColumns(s: Store, d: AggregateDelivery)
    requires LegalAggregate(s, d) && d.found.None?
    ensures
      var rows := MergedAggregate(s, d).aggregates;
      && |rows| == |s.aggregates| + 1
      && var a := rows[|s.aggregates|];
         && a.scope == d.scope && a.kind == d.incoming.kind && a.subjectId == d.incoming.subjectId
         && a.subjectName == d.incoming.subjectName && a.periodId == d.incoming.periodId && a.termNo == d.incoming.termNo
         && a.yearLabel == d.incoming.yearLabel && a.valueText == d.incoming.valueText && a.mood == d.incoming.mood
         && a.recordedOn == d.incoming.recordedOn && a.sourceKey == d.incoming.sourceKey
  {
    hide FindsAggregate, LatestEndpoint, WithEvidence;
  }

  lemma FixedAggregateColumnsStay(a: AggregateRow, a': AggregateRow)
    requires ContinuesAggregate(a, a')
    ensures a'.scope == a.scope && a'.kind == a.kind && a'.sourceKey == a.sourceKey && a'.termNo == a.termNo
    ensures a'.periodId == a.periodId && a'.yearLabel == a.yearLabel && a'.valueText == a.valueText
    ensures a'.recordedOn == a.recordedOn
  {
    hide Blank;
  }

  lemma {:induction false} AggregatesContinueThrough(s: Store, gs: seq<AggregateDelivery>, m: nat, n: nat)
    requires m <= n <= |gs| && AggregateRun(s, gs, n) && AggregateRun(s, gs, m)
    ensures AggregatesContinue(AfterAggregates(s, gs, m).aggregates, AfterAggregates(s, gs, n).aggregates)
  {
    hide LegalAggregate, RejectedAggregate, MergedAggregate, AggregatesContinue;
    if m < n {
      AggregatesContinueThrough(s, gs, m, n - 1);
      MergedAggregatesContinue(AfterAggregates(s, gs, n - 1), gs[n - 1]);
      AggregatesContinueOn(AfterAggregates(s, gs, m).aggregates, AfterAggregates(s, gs, n - 1).aggregates,
                           AfterAggregates(s, gs, n).aggregates);
    } else {
      AggregatesStand(AfterAggregates(s, gs, m).aggregates);
    }
  }

  lemma {:induction false} AggregatePrefix(s: Store, gs: seq<AggregateDelivery>, m: nat, n: nat)
    requires m <= n <= |gs| && AggregateRun(s, gs, n)
    ensures AggregateRun(s, gs, m)
  {
    hide LegalAggregate, RejectedAggregate, MergedAggregate;
    if m < n {
      AggregatePrefix(s, gs, m, n - 1);
    }
  }

  // The store on which the aggregates of the i-th merge are delivered
  function AfterResults(ms: seq<Merge>, i: nat, digest: string -> string): Store
    requires i < |ms| && BundleRuns.Merged(ms, i, digest) && Run(State(ms, i, digest).tables, ms[i].ds, |ms[i].ds|)
  {
    After(State(ms, i, digest).tables, ms[i].ds, |ms[i].ds|)
  }

  lemma AggregatesRun(ms: seq<Merge>, i: nat, digest: string -> string)
    requires i < |ms| && BundleRuns.Merged(ms, i + 1, digest)
    ensures BundleRuns.Merged(ms, i, digest) && Run(State(ms, i, digest).tables, ms[i].ds, |ms[i].ds|)
    ensures |ms[i].gs| == |ms[i].bundle.aggregates| && AggregateRun(AfterResults(ms, i, digest), ms[i].gs, |ms[i].gs|)
    ensures AfterResults(ms, i, digest).aggregates == State(ms, i, digest).tables.aggregates
    ensures State(ms, i + 1, digest).tables == AfterAggregates(AfterResults(ms, i, digest), ms[i].gs, |ms[i].gs|)
    ensures forall k: nat :: k < |ms[i].gs| ==>
              && ms[i].gs[k].incoming == ms[i].bundle.aggregates[k]
              && ms[i].gs[k].scope.student == ms[i].student && ms[i].gs[k].scope.provider == ms[i].bundle.provider
  {
    StateCommits(ms, i, digest);
    var db, m := State(ms, i, digest), ms[i];
    hide Run, After, AggregateRun, AfterAggregates, State, BundleRuns.Merged, RefsOf, AggregateEvidence, LessonsAfter;
    ResultsLeaveAggregates(db.tables, m.ds, |m.ds|);
    forall k: nat | k < |m.gs|
      ensures m.gs[k].incoming == m.bundle.aggregates[k]
      ensures m.gs[k].scope.student == m.student && m.gs[k].scope.provider == m.bundle.provider
    {
      assert IsAggregateOf(m.gs[k], m.student, m.bundle, k, m.at, digest);
    }
  }

  lemma {:induction false} ResultsLeaveAggregates(s: Store, ds: seq<Delivery>, n: nat)
    requires n <= |ds| && Run(s, ds, n)
    ensures After(s, ds, n).aggregates == s.aggregates
  {
    hide Legal, Rejected, MergeStore.Merged, WithRow, Written, WithEvidence, Target;
    if n > 0 {
      ResultsLeaveAggregates(s, ds, n - 1);
      MergedIs(After(s, ds, n - 1), ds[n - 1]);
    }
  }

  // In every later store the row an aggregate was inserted as has that aggregate's kind, key, term,
  // period, year, value and date, for its bundle's student and provider.
  lemma InsertedAggregateKeepsColumns(ms: seq<Merge>, n: nat, digest: string -> string, i: nat, k: nat)
    requires i < n <= |ms| && BundleRuns.Merged(ms, n, digest) && BundleRuns.Merged(ms, i, digest)
    requires Run(State(ms, i, digest).tables, ms[i].ds, |ms[i].ds|)
    requires k < |ms[i].gs| && k < |ms[i].bundle.aggregates| && ms[i].gs[k].found.None?
    requires AggregateRun(AfterResults(ms, i, digest), ms[i].gs, k)
    ensures
      var a := |AfterAggregates(AfterResults(ms, i, digest), ms[i].gs, k).aggregates|;
      && a < |State(ms, n, digest).tables.aggregates|
      && var row, x := State(ms, n, digest).tables.aggregates[a], ms[i].bundle.aggregates[k];
         && row.scope.student == ms[i].student && row.scope.provider == ms[i].bundle.provider
         && row.kind == x.kind && row.sourceKey == x.sourceKey && row.termNo == x.termNo && row.periodId == x.periodId
         && row.yearLabel == x.yearLabel && row.valueText == x.valueText && row.recordedOn == x.recordedOn
  {
    hide Outcome, Run, After, LegalAggregate, RejectedAggregate, MergedAggregate, DbExtends, ContinuesAggregate, AfterResults;
    hide BundleRuns.Merged, State;
    MergedPrefix(ms, i + 1, n, digest);
    AggregatesRun(ms, i, digest);
    var s, gs := AfterResults(ms, i, digest), ms[i].gs;
    var a := |AfterAggregates(s, gs, k).aggregates|;
    AggregatePrefix(s, gs, k + 1, |gs|);
    AggregateInsertHasColumns(AfterAggregates(s, gs, k), gs[k]);
    AggregatesContinueThrough(s, gs, k + 1, |gs|);
    ReachableExtends(ms, i + 1, n, digest);
    DbAggregateContinues(State(ms, i + 1, digest), State(ms, n, digest), a);
    FixedAggregateColumnsStay(AfterAggregates(s, gs, k + 1).aggregates[a], State(ms, i + 1, digest).tables.aggregates[a]);
    FixedAggregateColumnsStay(State(ms, i + 1, digest).tables.aggregates[a], State(ms, n, digest).tables.aggregates[a]);
  }

  lemma DbAggregateContinues(a: Db, b: Db, r: nat)
    requires DbExtends(a, b) && r < |a.tables.aggregates|
    ensures r < |b.tables.aggregates| && ContinuesAggregate(a.tables.aggregates[r], b.tables.aggregates[r])
  {
    hide Continues, ContinuesAggregate;
  }

  // ---------- The mood of an aggregate ----------

  // The k-th aggregate delivered from s on writes the mood of row a: it inserts the row, or it has a mood
  // and its endpoint ranks above the one captured last for the row.
  predicate SetsMood(s: Store, gs: seq<AggregateDelivery>, k: nat, a: nat) {
    && k < |gs| && AggregateRun(s, gs, k) && AggregateTarget(AfterAggregates(s, gs, k), gs[k]) == a
    && (gs[k].found.None?
        || (!Blank(gs[k].incoming.mood)
            && LatestEndpoint(AfterAggregates(s, gs, k).evidence, OfAggregate(a), gs[k].latest)
            && SourceEndpointPrecedence(gs[k].evidence.endpoint) > SourceEndpointPrecedence(gs[k].latest)))
  }

  lemma MoodAfterAggregate(s: Store, d: AggregateDelivery, a: nat)
    requires LegalAggregate(s, d) && a < |MergedAggregate(s, d).aggregates|
    ensures
      var mood := MergedAggregate(s, d).aggregates[a].mood;
      || (a < |s.aggregates| && mood == s.aggregates[a].mood)
      || (AggregateTarget(s, d) == a && mood == d.incoming.mood
          && (d.found.None?
              || (!Blank(d.incoming.mood) && LatestEndpoint(s.evidence, OfAggregate(a), d.latest)
                  && SourceEndpointPrecedence(d.evidence.endpoint) > SourceEndpointPrecedence(d.latest))))
  {
    MergedAggregateIs(s, d);
    hide FindsAggregate, LatestEndpoint, WithEvidence, MergedAggregate, Blank, SourceEndpointPrecedence;
  }

  lemma {:induction false} MoodComesFromADelivery(s: Store, gs: seq<AggregateDelivery>, n: nat, a: nat)
    requires n <= |gs| && AggregateRun(s, gs, n) && a < |AfterAggregates(s, gs, n).aggregates|
    ensures
      var mood := AfterAggregates(s, gs, n).aggregates[a].mood;
      || (a < |s.aggregates| && mood == s.aggregates[a].mood)
      || exists k: nat :: k < n && SetsMood(s, gs, k, a) && gs[k].incoming.mood == mood
  {
    hide LegalAggregate, RejectedAggregate, MergedAggregate, LatestEndpoint, SourceEndpointPrecedence, Blank;
    if n > 0 {
      var before, d := AfterAggregates(s, gs, n - 1), gs[n - 1];
      MoodAfterAggregate(before, d, a);
      if a < |before.aggregates| && AfterAggregates(s, gs, n).aggregates[a].mood == before.aggregates[a].mood {
        MoodComesFromADelivery(s, gs, n - 1, a);
      } else {
        assert SetsMood(s, gs, n - 1, a);
      }
    }
  }

  // The k-th aggregate of the i-th merge writes the mood of aggregate a.
  ghost predicate MergeSetsMood(ms: seq<Merge>, i: nat, k: nat, digest: string -> string, a: nat) {
    && i < |ms| && BundleRuns.Merged(ms, i, digest) && Run(State(ms, i, digest).tables, ms[i].ds, |ms[i].ds|)
    && SetsMood(AfterResults(ms, i, digest), ms[i].gs, k, a)
  }

  // The mood of an aggregate in a reachable store is that of its insert or of a delivery to it whose
  // endpoint ranked above the one captured last for it.
  lemma {:induction false} AggregateMoodIsDelivered(ms: seq<Merge>, n: nat, digest: string -> string, a: nat)
    returns (i: nat, k: nat)
    requires n <= |ms| && BundleRuns.Merged(ms, n, digest) && a < |State(ms, n, digest).tables.aggregates|
    ensures i < n && MergeSetsMood(ms, i, k, digest, a) && k < |ms[i].gs|
    ensures State(ms, n, digest).tables.aggregates[a].mood == ms[i].gs[k].incoming.mood
  {
    hide Run, After, AggregateRun, AfterAggregates, AfterResults, SetsMood, Commits, Committed;
    if n == 0 {
      assert false;
    } else {
      MergedPrefix(ms, n - 1, n, digest);
      AggregatesRun(ms, n - 1, digest);
      hide BundleRuns.Merged, State;
      var s, gs := AfterResults(ms, n - 1, digest), ms[n - 1].gs;
      MoodComesFromADelivery(s, gs, |gs|, a);
      var mood := State(ms, n, digest).tables.aggregates[a].mood;
      if k': nat :| k' < |gs| && SetsMood(s, gs, k', a) && gs[k'].incoming.mood == mood {
        i, k := n - 1, k';
      } else {
        i, k := AggregateMoodIsDelivered(ms, n - 1, digest, a);
      }
    }
  }
}
