/**
 The v2 tables over any number of committed bundle merges, of any students, from empty tables on:
 lessons grow, results and aggregates are delivered in turn, bundles are replayed. An aborted merge
 changes nothing and does not appear.
 */
module BundleRuns {
  import opened Wrappers
  import opened Text
  import opened MergeStore
  import opened Aggregates
  import opened ResultRuns
  import opened Bundles

  datatype Db = Db(lessons: seq<LessonRow>, tables: Store)

  const NO_TABLES := Store([], [], [])
  const EMPTY_DB := Db([], NO_TABLES)

  // A committed merge: whose bundle, when, and what the database found for each result and aggregate
  datatype Merge = Merge(student: string, bundle: Bundle, at: int, ds: seq<Delivery>, gs: seq<AggregateDelivery>)

  function LessonsAfter(db: Db, m: Merge): seq<LessonRow> {
    UpsertLessons(db.lessons, m.student, m.bundle.lessons)
  }

  function RefsOf(db: Db, m: Merge): map<string, nat> {
    LessonRefs(LessonsAfter(db, m), m.student, m.bundle.lessons)
  }

  predicate Commits(db: Db, m: Merge, digest: string -> string) {
    && DeliversResults(db.tables, m.student, m.bundle, RefsOf(db, m), m.at, digest, m.ds)
    && DeliversAggregates(After(db.tables, m.ds, |m.ds|), m.student, m.bundle, m.at, digest, m.gs)
  }

  function Committed(db: Db, m: Merge, digest: string -> string): Db
    requires Commits(db, m, digest)
  {
    Db(LessonsAfter(db, m), AfterAggregates(After(db.tables, m.ds, |m.ds|), m.gs, |m.gs|))
  }

  // The database after the first n merges, if each was accepted in its turn
  function Outcome(ms: seq<Merge>, n: nat, digest: string -> string): Option<Db>
    requires n <= |ms|
  {
    if n == 0 then Some(EMPTY_DB)
    else
      var before := Outcome(ms, n - 1, digest);
      if before.Some? && Commits(before.value, ms[n - 1], digest) then Some(Committed(before.value, ms[n - 1], digest))
      else None
  }

  predicate Merged(ms: seq<Merge>, n: nat, digest: string -> string)
    requires n <= |ms|
  {
    Outcome(ms, n, digest).Some?
  }

  function State(ms: seq<Merge>, n: nat, digest: string -> string): Db
    requires n <= |ms| && Merged(ms, n, digest)
  {
    Outcome(ms, n, digest).value
  }

  // What the merge method promises is a step of such a run.
  lemma CommitIsAMerge(db: Db, m: Merge, digest: string -> string, tables: Store)
    ensures
      Merges(db.tables, tables, m.student, m.bundle, RefsOf(db, m), m.at, digest, m.ds, m.gs)
      <==> Commits(db, m, digest) && tables == Committed(db, m, digest).tables
  {
  }

  // ---------- What every reachable store keeps ----------

  ghost predicate DbInv(db: Db) {
    ResultInv(db.tables) && AggregateInv(db.tables)
  }

  // Nothing is lost: lessons and evidence are appended to, rows and aggregates continue.
  ghost predicate DbExtends(a: Db, b: Db) {
    && a.lessons <= b.lessons && a.tables.evidence <= b.tables.evidence
    && |a.tables.rows| <= |b.tables.rows|
    && (forall i: nat :: i < |a.tables.rows| ==> Continues(a.tables.rows[i], b.tables.rows[i]))
    && AggregatesContinue(a.tables.aggregates, b.tables.aggregates)
  }

  lemma CommitKeepsAndExtends(db: Db, m: Merge, digest: string -> string)
    requires DbInv(db) && Commits(db, m, digest)
    ensures DbInv(Committed(db, m, digest)) && DbExtends(db, Committed(db, m, digest))
  {
    UpsertLessonsExtends(db.lessons, m.student, m.bundle.lessons);
    hide Run, After, AggregateRun, AfterAggregates, ResultInv, AggregateInv, IsResultOf, IsAggregateOf, Continues;
    hide AggregatesContinue, ContinuesAggregate, UpsertLessons, LessonRefs;
    MergeKeepsInvAndExtends(db.tables, Committed(db, m, digest).tables, m.student, m.bundle, RefsOf(db, m), m.at, digest, m.ds, m.gs);
  }

  lemma ContinuesOn(a: Row, b: Row, c: Row)
    requires Continues(a, b) && Continues(b, c)
    ensures Continues(a, c)
  {
    hide Blank;
  }

  lemma DbExtendsOn(a: Db, b: Db, c: Db)
    requires DbExtends(a, b) && DbExtends(b, c)
    ensures DbExtends(a, c)
  {
    hide Continues, ContinuesAggregate, AggregatesContinue;
    AggregatesContinueOn(a.tables.aggregates, b.tables.aggregates, c.tables.aggregates);
    forall i: nat | i < |a.tables.rows|
      ensures Continues(a.tables.rows[i], c.tables.rows[i])
    {
      ContinuesOn(a.tables.rows[i], b.tables.rows[i], c.tables.rows[i]);
    }
  }

  lemma DbExtendsItself(db: Db)
    ensures DbExtends(db, db)
  {
  }

  lemma EmptyDbInv()
    ensures DbInv(EMPTY_DB)
  {
  }

  // In every store reachable from empty tables all unique indexes and checks hold.
  lemma {:induction false} ReachableKeepsInv(ms: seq<Merge>, n: nat, digest: string -> string)
    requires n <= |ms| && Merged(ms, n, digest)
    ensures DbInv(State(ms, n, digest))
  {
    hide DbInv, Commits, Committed, DbExtends;
    if n == 0 {
      EmptyDbInv();
    } else {
      ReachableKeepsInv(ms, n - 1, digest);
      CommitKeepsAndExtends(State(ms, n - 1, digest), ms[n - 1], digest);
    }
  }

  // No merge ever loses a lesson, a row, an aggregate or evidence, or changes what identifies them.
  lemma {:induction false} ReachableExtends(ms: seq<Merge>, m: nat, n: nat, digest: string -> string)
    requires m <= n <= |ms| && Merged(ms, n, digest) && Merged(ms, m, digest)
    ensures DbExtends(State(ms, m, digest), State(ms, n, digest))
  {
    hide DbInv, Commits, Committed, DbExtends;
    if m < n {
      ReachableExtends(ms, m, n - 1, digest);
      ReachableKeepsInv(ms, n - 1, digest);
      CommitKeepsAndExtends(State(ms, n - 1, digest), ms[n - 1], digest);
      DbExtendsOn(State(ms, m, digest), State(ms, n - 1, digest), State(ms, n, digest));
    } else {
      DbExtendsItself(State(ms, m, digest));
    }
  }

  // Mark, else source key, else fingerprint tells the rows of every reachable store apart.
  lemma ReachableIdentitiesDiffer(ms: seq<Merge>, n: nat, digest: string -> string, i: nat, j: nat)
    requires n <= |ms| && Merged(ms, n, digest) && i < j < |State(ms, n, digest).tables.rows|
    ensures PrimaryIdentity(State(ms, n, digest).tables.rows[i]) != PrimaryIdentity(State(ms, n, digest).tables.rows[j])
  {
    hide Merged, State, ResultInv, AggregateInv, PrimaryIdentity;
    ReachableKeepsInv(ms, n, digest);
    PrimaryIdentityIsInjective(State(ms, n, digest).tables, i, j);
  }

  lemma {:induction false} MergedPrefix(ms: seq<Merge>, m: nat, n: nat, digest: string -> string)
    requires m <= n <= |ms| && Merged(ms, n, digest)
    ensures Merged(ms, m, digest)
  {
    hide Commits, Committed;
    if m < n {
      MergedPrefix(ms, m, n - 1, digest);
    }
  }

  // ---------- Aggregates and bundle boundaries do not disturb results ----------

  // t has the rows of s and the same evidence of results.
  ghost predicate SameResults(s: Store, t: Store) {
    && s.rows == t.rows
    && forall e: EvidenceRow :: e.owner.OfResult? ==> (e in s.evidence <==> e in t.evidence)
  }

  lemma SameLatest(s: Store, t: Store, r: nat, endpoint: string)
    requires SameResults(s, t) && LatestEndpoint(s.evidence, OfResult(r), endpoint)
    ensures LatestEndpoint(t.evidence, OfResult(r), endpoint)
  {
  }

  lemma SameEvidence(s: seq<EvidenceRow>, t: seq<EvidenceRow>, r: nat, e: Evidence, now: int)
    requires forall f: EvidenceRow :: f.owner.OfResult? ==> (f in s <==> f in t)
    ensures forall f: EvidenceRow :: f.owner.OfResult? ==>
              (f in WithEvidence(s, OfResult(r), e, now) <==> f in WithEvidence(t, OfResult(r), e, now))
  {
    hide Trim;
    assert Owns(s, OfResult(r), Trim(e.fingerprint)) <==> Owns(t, OfResult(r), Trim(e.fingerprint));
    hide Owns;
  }

  lemma SameLegal(s: Store, t: Store, d: Delivery)
    requires SameResults(s, t) && Legal(s, d)
    ensures Legal(t, d)
  {
    hide LatestEndpoint, Finds;
    if d.found.Some? {
      SameLatest(s, t, d.found.value, d.latest);
    }
  }

  lemma SameWritten(s: Store, t: Store, d: Delivery)
    requires s.rows == t.rows && Legal(s, d) && Legal(t, d)
    ensures Target(t, d) == Target(s, d) && Written(t, d) == Written(s, d) && Rejected(t, d) == Rejected(s, d)
  {
    FoundIsRow(s.rows, d.scope, d.lesson, d.incoming, d.found);
    hide LatestEndpoint, Finds, RowChecks, Fits, Patched, NewRow, Outranks;
  }

  lemma SameDelivery(s: Store, t: Store, d: Delivery)
    requires SameResults(s, t) && Legal(s, d) && !Rejected(s, d)
    ensures Legal(t, d) && !Rejected(t, d) && SameResults(MergeStore.Merged(s, d), MergeStore.Merged(t, d))
  {
    hide Legal, Rejected, Written, MergeStore.Merged, WithEvidence, Target;
    SameLegal(s, t, d);
    SameWritten(s, t, d);
    SameEvidence(s.evidence, t.evidence, Target(s, d), d.evidence, d.at);
    MergedIs(s, d);
    MergedIs(t, d);
  }

  lemma {:induction false} SameRun(s: Store, t: Store, ds: seq<Delivery>, n: nat)
    requires SameResults(s, t) && n <= |ds| && Run(s, ds, n)
    ensures Run(t, ds, n) && SameResults(After(s, ds, n), After(t, ds, n))
  {
    hide Legal, Rejected, MergeStore.Merged, SameResults;
    if n > 0 {
      SameRun(s, t, ds, n - 1);
      SameDelivery(After(s, ds, n - 1), After(t, ds, n - 1), ds[n - 1]);
    }
  }

  lemma AggregateKeepsResults(s: Store, d: AggregateDelivery)
    requires LegalAggregate(s, d)
    ensures SameResults(s, MergedAggregate(s, d))
  {
    hide LegalAggregate, MergedAggregate, WrittenAggregate, WithEvidence, Trim;
    MergedAggregateIs(s, d);
    OtherEvidenceOnly(s.evidence, AggregateTarget(s, d), d.evidence, d.at);
  }

  lemma OtherEvidenceOnly(evidence: seq<EvidenceRow>, a: nat, e: Evidence, now: int)
    ensures forall f: EvidenceRow :: f.owner.OfResult? ==> (f in evidence <==> f in WithEvidence(evidence, OfAggregate(a), e, now))
  {
    hide Trim, Owns;
  }

  lemma {:induction false} AggregatesKeepResults(s: Store, gs: seq<AggregateDelivery>, n: nat)
    requires n <= |gs| && AggregateRun(s, gs, n)
    ensures SameResults(s, AfterAggregates(s, gs, n))
  {
    hide LegalAggregate, RejectedAggregate, MergedAggregate;
    if n > 0 {
      AggregatesKeepResults(s, gs, n - 1);
      AggregateKeepsResults(AfterAggregates(s, gs, n - 1), gs[n - 1]);
    }
  }

  // All results delivered by the first n merges, in order
  function Flat(ms: seq<Merge>, n: nat): seq<Delivery>
    requires n <= |ms|
  {
    if n == 0 then [] else Flat(ms, n - 1) + ms[n - 1].ds
  }

  lemma CommitKeepsLeading(db: Db, m: Merge, digest: string -> string, ds: seq<Delivery>, t: Store)
    requires Commits(db, m, digest) && Leads(NO_TABLES, ds, t) && SameResults(db.tables, t)
    ensures Run(t, m.ds, |m.ds|) && Leads(NO_TABLES, ds + m.ds, After(t, m.ds, |m.ds|))
    ensures SameResults(Committed(db, m, digest).tables, After(t, m.ds, |m.ds|))
  {
    hide Run, After, AggregateRun, AfterAggregates, IsResultOf, IsAggregateOf, Leads, LessonRefs, UpsertLessons;
    SameRun(db.tables, t, m.ds, |m.ds|);
    RunsJoin(NO_TABLES, ds, t, m.ds, |m.ds|);
    assert m.ds[..|m.ds|] == m.ds;
    AggregatesKeepResults(After(db.tables, m.ds, |m.ds|), m.gs, |m.gs|);
  }

  // The results of a run of merges are a run of their own, with the same rows.
  lemma {:induction false} FlatIsARun(ms: seq<Merge>, n: nat, digest: string -> string) returns (t: Store)
    requires n <= |ms| && Merged(ms, n, digest)
    ensures Leads(NO_TABLES, Flat(ms, n), t) && SameResults(State(ms, n, digest).tables, t)
  {
    hide Commits, Committed, SameResults;
    if n == 0 {
      t := NO_TABLES;
      assert SameResults(NO_TABLES, NO_TABLES) by {
        ReadsTheSame(NO_TABLES);
      }
    } else {
      var before := FlatIsARun(ms, n - 1, digest);
      hide Leads, Run, After;
      CommitKeepsLeading(State(ms, n - 1, digest), ms[n - 1], digest, Flat(ms, n - 1), before);
      t := After(before, ms[n - 1].ds, |ms[n - 1].ds|);
    }
  }

  lemma ReadsTheSame(s: Store)
    ensures SameResults(s, s)
  {
  }

  // ---------- Insert once ----------

  // Whatever bundles the deliveries belong to and whatever is merged in between, the same incoming
  // result for the same lesson, student and provider is inserted at most once.
  lemma InsertedOnceAcrossBundles(ms: seq<Merge>, n: nat, digest: string -> string, i: nat, j: nat)
    requires n <= |ms| && Merged(ms, n, digest) && i < j < |Flat(ms, n)|
    requires SameInput(Flat(ms, n)[i], Flat(ms, n)[j]) && Flat(ms, n)[i].found.None?
    ensures Flat(ms, n)[j].found.Some?
  {
    hide Run, After, Merged, State, SameResults, Legal, Rejected;
    var t := FlatIsARun(ms, n, digest);
    RunPrefix(NO_TABLES, Flat(ms, n), j + 1, |Flat(ms, n)|);
    InsertedAtMostOnce(NO_TABLES, Flat(ms, n), i, j);
  }

  lemma {:induction false} FlatHolds(ms: seq<Merge>, i: nat, n: nat, k: nat)
    requires i < n <= |ms| && k < |ms[i].ds|
    ensures |Flat(ms, i)| + k < |Flat(ms, i + 1)| <= |Flat(ms, n)|
    ensures Flat(ms, n)[|Flat(ms, i)| + k] == ms[i].ds[k]
  {
    var at := |Flat(ms, i)| + k;
    if i + 1 < n {
      FlatHolds(ms, i, n - 1, k);
      assert Flat(ms, n)[at] == Flat(ms, n - 1)[at];
    } else {
      assert Flat(ms, n)[at] == ms[i].ds[k];
    }
  }

  predicate SameBundle(m: Merge, m': Merge) {
    m.student == m'.student && m.bundle == m'.bundle
  }

  // A replay resolves the lessons of its results as the first merge did.
  lemma ReplayRefsAgree(ms: seq<Merge>, i: nat, j: nat, digest: string -> string)
    requires i < j < |ms| && Merged(ms, i, digest) && Merged(ms, j, digest) && SameBundle(ms[i], ms[j])
    ensures RefsOf(State(ms, j, digest), ms[j]) == RefsOf(State(ms, i, digest), ms[i])
  {
    hide *;
    MergedPrefix(ms, i + 1, j, digest);
    LessonsGrow(ms, i, digest);
    ReachableExtends(ms, i + 1, j, digest);
    LessonsAreKept(State(ms, i + 1, digest), State(ms, j, digest));
    SameRefs(State(ms, i, digest), State(ms, j, digest), ms[i], ms[j]);
  }

  lemma LessonsGrow(ms: seq<Merge>, i: nat, digest: string -> string)
    requires i < |ms| && Merged(ms, i + 1, digest) && Merged(ms, i, digest)
    ensures State(ms, i + 1, digest).lessons == LessonsAfter(State(ms, i, digest), ms[i])
  {
    hide Commits, LessonsAfter;
  }

  lemma LessonsAreKept(a: Db, b: Db)
    requires DbExtends(a, b)
    ensures a.lessons <= b.lessons
  {
    hide Continues, AggregatesContinue;
  }

  lemma SameRefs(a: Db, b: Db, m: Merge, m': Merge)
    requires SameBundle(m, m') && LessonsAfter(a, m) <= b.lessons
    ensures RefsOf(b, m') == RefsOf(a, m)
  {
    hide UpsertLessons, LessonRefs;
    ReplayResolvesTheSame(a.lessons, m.student, m.bundle.lessons, b.lessons);
  }

  lemma CommittedInput(ms: seq<Merge>, i: nat, digest: string -> string, k: nat)
    requires i < |ms| && Merged(ms, i + 1, digest) && k < |ms[i].bundle.results|
    ensures |ms[i].ds| == |ms[i].bundle.results| && Merged(ms, i, digest)
    ensures InputOf(ms[i].ds[k])
         == (ScopeOf(ms[i].student, ms[i].bundle),
             Resolve(RefsOf(State(ms, i, digest), ms[i]), ms[i].bundle.results[k].lessonRef), ms[i].bundle.results[k])
  {
    var m, db := ms[i], State(ms, i, digest);
    assert DeliversResults(db.tables, m.student, m.bundle, RefsOf(db, m), m.at, digest, m.ds);
    hide Run, After, State, Merged, DeliversAggregates, RefsOf;
    assert IsResultOf(m.ds[k], m.student, m.bundle, RefsOf(db, m), k, m.at, digest);
  }

  // However often a bundle is merged, and whatever is merged in between, each of its results is
  // inserted by at most one of the merges.
  lemma ReplayInsertsOnce(ms: seq<Merge>, n: nat, digest: string -> string, i: nat, j: nat, k: nat)
    requires i < j < n <= |ms| && Merged(ms, n, digest) && SameBundle(ms[i], ms[j]) && k < |ms[i].bundle.results|
    ensures |ms[i].ds| == |ms[j].ds| == |ms[i].bundle.results|
    ensures ms[i].ds[k].found.None? ==> ms[j].ds[k].found.Some?
  {
    hide Merged, State, RefsOf, Resolve, Flat;
    MergedPrefix(ms, i + 1, n, digest);
    MergedPrefix(ms, j + 1, n, digest);
    CommittedInput(ms, i, digest, k);
    CommittedInput(ms, j, digest, k);
    ReplayRefsAgree(ms, i, j, digest);
    FlatHolds(ms, i, n, k);
    FlatHolds(ms, j, n, k);
    FlatHolds(ms, i, j + 1, k);
    FlatGrows(ms, i + 1, j);
    if ms[i].ds[k].found.None? {
      InsertedOnceAcrossBundles(ms, n, digest, |Flat(ms, i)| + k, |Flat(ms, j)| + k);
    }
  }

  lemma {:induction false} FlatGrows(ms: seq<Merge>, m: nat, n: nat)
    requires m <= n <= |ms|
    ensures |Flat(ms, m)| <= |Flat(ms, n)|
  {
    if m < n {
      FlatGrows(ms, m, n - 1);
    }
  }

  // The results of its bundle that a merge inserts
  function NewKs(m: Merge): set<nat> {
    set k: nat | k < |m.ds| && m.ds[k].found.None?
  }

  // Rows inserted by all merges of one bundle among the first n
  function InsertCount(ms: seq<Merge>, n: nat, student: string, b: Bundle): nat
    requires n <= |ms|
  {
    if n == 0 then 0
    else
      InsertCount(ms, n - 1, student, b)
      + if ms[n - 1].student == student && ms[n - 1].bundle == b then |NewKs(ms[n - 1])| else 0
  }

  function InsertedKs(ms: seq<Merge>, n: nat, student: string, b: Bundle): set<nat>
    requires n <= |ms|
  {
    if n == 0 then {}
    else
      InsertedKs(ms, n - 1, student, b)
      + if ms[n - 1].student == student && ms[n - 1].bundle == b then NewKs(ms[n - 1]) else {}
  }

  lemma {:induction false} InsertedByAMerge(ms: seq<Merge>, n: nat, student: string, b: Bundle, k: nat)
    returns (i: nat)
    requires n <= |ms| && k in InsertedKs(ms, n, student, b)
    ensures i < n && ms[i].student == student && ms[i].bundle == b && k in NewKs(ms[i])
  {
    hide NewKs;
    if k in InsertedKs(ms, n - 1, student, b) {
      i := InsertedByAMerge(ms, n - 1, student, b, k);
    } else {
      i := n - 1;
    }
  }

  predicate Below(ks: set<nat>, bound: nat) {
    forall k :: k in ks ==> k < bound
  }

  lemma NothingBelow(bound: nat)
    ensures Below({}, bound)
  {
  }

  lemma BothBelow(ks: set<nat>, more: set<nat>, bound: nat)
    requires Below(ks, bound) && Below(more, bound)
    ensures Below(ks + more, bound)
  {
  }

  lemma CommittedCounts(ms: seq<Merge>, n: nat, digest: string -> string)
    requires n < |ms| && Merged(ms, n + 1, digest)
    ensures |ms[n].ds| == |ms[n].bundle.results| && Below(NewKs(ms[n]), |ms[n].bundle.results|)
  {
    hide Run, After, State;
  }

  lemma ReplayInsertIsNew(ms: seq<Merge>, n: nat, digest: string -> string, k: nat)
    requires n < |ms| && Merged(ms, n + 1, digest) && k in InsertedKs(ms, n, ms[n].student, ms[n].bundle)
    ensures k !in NewKs(ms[n])
  {
    hide Merged, State, InsertedKs;
    CommittedCounts(ms, n, digest);
    var i := InsertedByAMerge(ms, n, ms[n].student, ms[n].bundle, k);
    if k < |ms[n].bundle.results| {
      ReplayInsertsOnce(ms, n + 1, digest, i, n, k);
    }
  }

  lemma ReplayInsertsOthers(ms: seq<Merge>, n: nat, digest: string -> string)
    requires n < |ms| && Merged(ms, n + 1, digest)
    ensures InsertedKs(ms, n, ms[n].student, ms[n].bundle) !! NewKs(ms[n])
  {
    hide *;
    forall k | k in InsertedKs(ms, n, ms[n].student, ms[n].bundle)
      ensures k !in NewKs(ms[n])
    {
      ReplayInsertIsNew(ms, n, digest, k);
    }
  }

  lemma {:induction false} InsertCountIsBounded(ms: seq<Merge>, n: nat, digest: string -> string, student: string, b: Bundle)
    requires n <= |ms| && Merged(ms, n, digest)
    ensures InsertCount(ms, n, student, b) == |InsertedKs(ms, n, student, b)|
    ensures Below(InsertedKs(ms, n, student, b), |b.results|)
  {
    hide NewKs, State, Merged, Below;
    if n == 0 {
      NothingBelow(|b.results|);
    } else {
      MergedPrefix(ms, n - 1, n, digest);
      InsertCountIsBounded(ms, n - 1, digest, student, b);
      ReplayInsertsOthers(ms, n - 1, digest);
      CommittedCounts(ms, n - 1, digest);
      if ms[n - 1].student == student && ms[n - 1].bundle == b {
        BothBelow(InsertedKs(ms, n - 1, student, b), NewKs(ms[n - 1]), |b.results|);
      }
    }
  }

  // Any number of merges of one bundle insert at most as many rows as it has results.
  lemma ReplaysInsertAtMostTheBundle(ms: seq<Merge>, n: nat, digest: string -> string, student: string, b: Bundle)
    requires n <= |ms| && Merged(ms, n, digest)
    ensures InsertCount(ms, n, student, b) <= |b.results|
  {
    hide Merged, InsertCount, InsertedKs;
    InsertCountIsBounded(ms, n, digest, student, b);
    BoundedSetIsSmall(InsertedKs(ms, n, student, b), |b.results|);
  }

  lemma {:induction false} BoundedSetIsSmall(ks: set<nat>, bound: nat)
    requires Below(ks, bound)
    ensures |ks| <= bound
  {
    if bound > 0 {
      BoundedSetIsSmall(ks - {bound - 1}, bound - 1);
      assert ks <= (ks - {bound - 1}) + {bound - 1};
      SubsetIsNoLarger(ks, (ks - {bound - 1}) + {bound - 1});
    } else if k :| k in ks {
      assert false;
    }
  }

  // ---------- Evidence ----------

  // Each result ever merged with a nonblank fingerprint has it on record for the row it resolved to,
  // once, in every later store.
  lemma EvidenceStaysOnRecord(ms: seq<Merge>, n: nat, digest: string -> string, i: nat, k: nat)
    requires i < n <= |ms| && Merged(ms, n, digest) && Merged(ms, i, digest)
    requires k < |ms[i].bundle.results|
    requires !Blank(ResultEvidence(ms[i].bundle, ms[i].bundle.results[k], digest).fingerprint)
    ensures k < |ms[i].ds| && Run(State(ms, i, digest).tables, ms[i].ds, k)
    ensures
      var r := Target(After(State(ms, i, digest).tables, ms[i].ds, k), ms[i].ds[k]);
      && Owns(State(ms, n, digest).tables.evidence, OfResult(r),
              Trim(ResultEvidence(ms[i].bundle, ms[i].bundle.results[k], digest).fingerprint))
      && EvidenceUnique(State(ms, n, digest).tables.evidence)
  {
    hide *;
    MergedPrefix(ms, i + 1, n, digest);
    var db, m, tables := State(ms, i, digest), ms[i], State(ms, i + 1, digest).tables;
    ReachableKeepsInv(ms, i, digest);
    ReachableKeepsInv(ms, n, digest);
    ReachableExtends(ms, i + 1, n, digest);
    StateMerges(ms, i, digest);
    EvidenceIsKept(State(ms, i + 1, digest), State(ms, n, digest));
    PartsOfInv(db);
    PartsOfInv(State(ms, n, digest));
    EvidenceReachesItsRow(db.tables, tables, m.student, m.bundle, RefsOf(db, m), m.at, digest, m.ds, m.gs, k);
    OwnsIsMonotone(tables.evidence, State(ms, n, digest).tables.evidence,
                   OfResult(Target(After(db.tables, m.ds, k), m.ds[k])), Trim(ResultEvidence(m.bundle, m.bundle.results[k], digest).fingerprint));
  }

  lemma StateMerges(ms: seq<Merge>, i: nat, digest: string -> string)
    requires i < |ms| && Merged(ms, i + 1, digest) && Merged(ms, i, digest)
    ensures |ms[i].ds| == |ms[i].bundle.results|
    ensures
      var db, m := State(ms, i, digest), ms[i];
      Merges(db.tables, State(ms, i + 1, digest).tables, m.student, m.bundle, RefsOf(db, m), m.at, digest, m.ds, m.gs)
  {
    hide Run, After, AggregateRun, AfterAggregates, RefsOf;
  }

  lemma EvidenceIsKept(a: Db, b: Db)
    requires DbExtends(a, b)
    ensures a.tables.evidence <= b.tables.evidence
  {
    hide Continues, AggregatesContinue;
  }

  lemma PartsOfInv(db: Db)
    requires DbInv(db)
    ensures ResultInv(db.tables) && AggregateInv(db.tables) && EvidenceUnique(db.tables.evidence)
  {
    hide RowsUnique, EvidenceUnique, AggregateInv;
  }
}
