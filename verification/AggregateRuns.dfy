/**
 Aggregates over runs of bundle merges: each is inserted at most once, and a merge that fills a subject
 can be aborted on a store that merges have produced.
 */
module AggregateRuns {
  import opened Wrappers
  import opened Text
  import opened MergeStore
  import opened Aggregates
  import opened ResultRuns
  import opened Bundles
  import opened BundleRuns

  // ---------- Insert once ----------

  // A row that every later look-up of the same aggregate finds, or finds another one before
  predicate IdentifiesAggregate(a: AggregateRow, scope: Scope, x: IncomingAggregate) {
    KeyMatches(a, scope, x) || (x.sourceKey == "" && a.sourceKey == "" && IdentityMatches(a, scope, x))
  }

  predicate KnownAggregate(rows: seq<AggregateRow>, scope: Scope, x: IncomingAggregate) {
    exists i: nat :: i < |rows| && IdentifiesAggregate(rows[i], scope, x)
  }

  lemma KnownAggregateIsFound(s: Store, d: AggregateDelivery)
    requires LegalAggregate(s, d) && KnownAggregate(s.aggregates, d.scope, d.incoming)
    ensures d.found.Some?
  {
    hide LatestEndpoint;
    var i: nat :| i < |s.aggregates| && IdentifiesAggregate(s.aggregates[i], d.scope, d.incoming);
    assert s.aggregates[i] in s.aggregates;
  }

  lemma InsertMakesKnownAggregate(s: Store, d: AggregateDelivery)
    requires LegalAggregate(s, d) && !RejectedAggregate(s, d) && d.found.None?
    ensures KnownAggregate(MergedAggregate(s, d).aggregates, d.scope, d.incoming)
  {
    hide LatestEndpoint, FindsAggregate, WithEvidence, FitsAggregate, Blank;
    var row := NewAggregate(d.scope, d.incoming);
    assert MergedAggregate(s, d).aggregates[|s.aggregates|] == row;
    assert IdentifiesAggregate(row, d.scope, d.incoming);
  }

  // A patch leaves the key alone, and the subject of a row without a key, which is only ever found by it.
  lemma PatchKeepsAggregateIdentity(s: Store, d: AggregateDelivery, scope: Scope, x: IncomingAggregate)
    requires LegalAggregate(s, d) && d.found.Some? && IdentifiesAggregate(s.aggregates[d.found.value], scope, x)
    ensures IdentifiesAggregate(WrittenAggregate(s, d), scope, x)
  {
    hide Blank, LatestEndpoint, SourceEndpointPrecedence;
    var a := s.aggregates[d.found.value];
    if a.sourceKey == "" {
      assert !KeyMatches(a, d.scope, d.incoming);
      assert IdentityMatches(a, d.scope, d.incoming);
    }
  }

  lemma AggregateStaysKnown(s: Store, d: AggregateDelivery, scope: Scope, x: IncomingAggregate)
    requires LegalAggregate(s, d) && KnownAggregate(s.aggregates, scope, x)
    ensures KnownAggregate(MergedAggregate(s, d).aggregates, scope, x)
  {
    MergedAggregateIs(s, d);
    var i: nat :| i < |s.aggregates| && IdentifiesAggregate(s.aggregates[i], scope, x);
    if d.found == Some(i) {
      PatchKeepsAggregateIdentity(s, d, scope, x);
    }
    hide IdentifiesAggregate, LegalAggregate, MergedAggregate, WrittenAggregate, WithEvidence;
    var rows := MergedAggregate(s, d).aggregates;
    assert IdentifiesAggregate(rows[i], scope, x);
  }

  lemma {:induction false} KnownThroughAggregates(
      s: Store, gs: seq<AggregateDelivery>, m: nat, n: nat, scope: Scope, x: IncomingAggregate)
    requires m <= n <= |gs| && AggregateRun(s, gs, n) && AggregateRun(s, gs, m)
    requires KnownAggregate(AfterAggregates(s, gs, m).aggregates, scope, x)
    ensures KnownAggregate(AfterAggregates(s, gs, n).aggregates, scope, x)
  {
    hide LegalAggregate, RejectedAggregate, MergedAggregate, KnownAggregate;
    if m < n {
      KnownThroughAggregates(s, gs, m, n - 1, scope, x);
      AggregateStaysKnown(AfterAggregates(s, gs, n - 1), gs[n - 1], scope, x);
    }
  }

  lemma {:induction false} AggregateRunPrefix(s: Store, gs: seq<AggregateDelivery>, m: nat, n: nat)
    requires m <= n <= |gs| && AggregateRun(s, gs, n)
    ensures AggregateRun(s, gs, m)
  {
    hide LegalAggregate, RejectedAggregate, MergedAggregate;
    if m < n {
      AggregateRunPrefix(s, gs, m, n - 1);
    }
  }

  predicate SameAggregateInput(d: AggregateDelivery, e: AggregateDelivery) {
    d.scope == e.scope && d.incoming == e.incoming
  }

  lemma InsertedIsKnown(s: Store, gs: seq<AggregateDelivery>, k: nat, n: nat)
    requires k < n <= |gs| && AggregateRun(s, gs, n) && gs[k].found.None?
    ensures KnownAggregate(AfterAggregates(s, gs, n).aggregates, gs[k].scope, gs[k].incoming)
  {
    hide LegalAggregate, RejectedAggregate, MergedAggregate, KnownAggregate;
    AggregateRunPrefix(s, gs, k + 1, n);
    InsertMakesKnownAggregate(AfterAggregates(s, gs, k), gs[k]);
    KnownThroughAggregates(s, gs, k + 1, n, gs[k].scope, gs[k].incoming);
  }

  lemma KnownMeansFoundLater(s: Store, gs: seq<AggregateDelivery>, l: nat)
    requires l < |gs| && AggregateRun(s, gs, |gs|) && AggregateRun(s, gs, l)
    requires KnownAggregate(AfterAggregates(s, gs, l).aggregates, gs[l].scope, gs[l].incoming)
    ensures gs[l].found.Some?
  {
    hide LegalAggregate, RejectedAggregate, MergedAggregate, KnownAggregate;
    AggregateRunPrefix(s, gs, l + 1, |gs|);
    KnownAggregateIsFound(AfterAggregates(s, gs, l), gs[l]);
  }

  // Among aggregates delivered one after the other the same one is inserted at most once, although the
  // subjects of rows are filled in between.
  lemma AggregateInsertedAtMostOnce(s: Store, gs: seq<AggregateDelivery>, k: nat, l: nat)
    requires k < l < |gs| && AggregateRun(s, gs, |gs|)
    requires SameAggregateInput(gs[k], gs[l]) && gs[k].found.None?
    ensures gs[l].found.Some?
  {
    hide AggregateRun, AfterAggregates, KnownAggregate;
    AggregateRunPrefix(s, gs, l, |gs|);
    InsertedIsKnown(s, gs, k, l);
    KnownMeansFoundLater(s, gs, l);
  }

  // ---------- Across bundles ----------

  lemma {:induction false} ResultsKeepAggregates(s: Store, ds: seq<Delivery>, n: nat)
    requires n <= |ds| && Run(s, ds, n)
    ensures After(s, ds, n).aggregates == s.aggregates
  {
    hide Legal, Rejected, MergeStore.Merged;
    if n > 0 {
      ResultsKeepAggregates(s, ds, n - 1);
      MergedIs(After(s, ds, n - 1), ds[n - 1]);
      hide WithRow, Written, WithEvidence, Target;
    }
  }

  // The aggregates of a committed merge run on the store its results have left.
  lemma CommitRunsAggregates(db: Db, m: Merge, digest: string -> string)
    requires Commits(db, m, digest)
    ensures Run(db.tables, m.ds, |m.ds|) && AggregateRun(After(db.tables, m.ds, |m.ds|), m.gs, |m.gs|)
    ensures After(db.tables, m.ds, |m.ds|).aggregates == db.tables.aggregates
    ensures Committed(db, m, digest).tables == AfterAggregates(After(db.tables, m.ds, |m.ds|), m.gs, |m.gs|)
  {
    hide Run, After, AggregateRun, AfterAggregates, RefsOf, LessonsAfter, IsResultOf, IsAggregateOf;
    ResultsKeepAggregates(db.tables, m.ds, |m.ds|);
  }

  lemma CommitKeepsKnown(db: Db, m: Merge, digest: string -> string, scope: Scope, x: IncomingAggregate)
    requires Commits(db, m, digest) && KnownAggregate(db.tables.aggregates, scope, x)
    ensures KnownAggregate(Committed(db, m, digest).tables.aggregates, scope, x)
  {
    hide Commits, Committed, Run, After, KnownAggregate;
    CommitRunsAggregates(db, m, digest);
    var s := After(db.tables, m.ds, |m.ds|);
    assert AggregateRun(s, m.gs, 0) && AfterAggregates(s, m.gs, 0) == s;
    hide AggregateRun, AfterAggregates;
    KnownThroughAggregates(s, m.gs, 0, |m.gs|, scope, x);
  }

  lemma {:induction false} ReachableKeepsKnown(
      ms: seq<Merge>, m: nat, n: nat, digest: string -> string, scope: Scope, x: IncomingAggregate)
    requires m <= n <= |ms| && BundleRuns.Merged(ms, n, digest) && BundleRuns.Merged(ms, m, digest)
    requires KnownAggregate(State(ms, m, digest).tables.aggregates, scope, x)
    ensures KnownAggregate(State(ms, n, digest).tables.aggregates, scope, x)
  {
    hide Commits, Committed, KnownAggregate;
    if m < n {
      ReachableKeepsKnown(ms, m, n - 1, digest, scope, x);
      CommitKeepsKnown(State(ms, n - 1, digest), ms[n - 1], digest, scope, x);
    }
  }

  lemma StateCommits(ms: seq<Merge>, i: nat, digest: string -> string)
    requires i < |ms| && BundleRuns.Merged(ms, i + 1, digest)
    ensures BundleRuns.Merged(ms, i, digest) && Commits(State(ms, i, digest), ms[i], digest)
    ensures State(ms, i + 1, digest) == Committed(State(ms, i, digest), ms[i], digest)
  {
    hide Commits, Committed;
  }

  lemma KnownAfterMerge(ms: seq<Merge>, i: nat, k: nat, digest: string -> string)
    requires i < |ms| && BundleRuns.Merged(ms, i + 1, digest) && k < |ms[i].gs| && ms[i].gs[k].found.None?
    ensures KnownAggregate(State(ms, i + 1, digest).tables.aggregates, ms[i].gs[k].scope, ms[i].gs[k].incoming)
  {
    hide Commits, Committed, KnownAggregate, BundleRuns.Merged, State, Run, After, AggregateRun, AfterAggregates;
    StateCommits(ms, i, digest);
    CommitRunsAggregates(State(ms, i, digest), ms[i], digest);
    InsertedIsKnown(After(State(ms, i, digest).tables, ms[i].ds, |ms[i].ds|), ms[i].gs, k, |ms[i].gs|);
  }

  lemma KnownBeforeMergeIsFound(ms: seq<Merge>, j: nat, l: nat, digest: string -> string)
    requires j < |ms| && BundleRuns.Merged(ms, j + 1, digest) && BundleRuns.Merged(ms, j, digest) && l < |ms[j].gs|
    requires KnownAggregate(State(ms, j, digest).tables.aggregates, ms[j].gs[l].scope, ms[j].gs[l].incoming)
    ensures ms[j].gs[l].found.Some?
  {
    hide Commits, Committed, KnownAggregate, BundleRuns.Merged, State, Run, After;
    StateCommits(ms, j, digest);
    CommitRunsAggregates(State(ms, j, digest), ms[j], digest);
    var s, gs := After(State(ms, j, digest).tables, ms[j].ds, |ms[j].ds|), ms[j].gs;
    assert AggregateRun(s, gs, 0) && AfterAggregates(s, gs, 0) == s;
    hide AggregateRun, AfterAggregates;
    AggregateRunPrefix(s, gs, l, |gs|);
    KnownThroughAggregates(s, gs, 0, l, gs[l].scope, gs[l].incoming);
    KnownMeansFoundLater(s, gs, l);
  }

  // Whatever is merged in between, the same aggregate of one student and provider is inserted at most
  // once, be it by one merge or by two.
  lemma AggregateInsertedOnceAcrossBundles(
      ms: seq<Merge>, n: nat, digest: string -> string, i: nat, k: nat, j: nat, l: nat)
    requires n <= |ms| && BundleRuns.Merged(ms, n, digest) && i <= j < n && k < |ms[i].gs| && l < |ms[j].gs|
    requires i < j || k < l
    requires SameAggregateInput(ms[i].gs[k], ms[j].gs[l]) && ms[i].gs[k].found.None?
    ensures ms[j].gs[l].found.Some?
  {
    hide Commits, Committed, KnownAggregate, BundleRuns.Merged, State, Run, After, AggregateRun, AfterAggregates;
    MergedPrefix(ms, j + 1, n, digest);
    StateCommits(ms, j, digest);
    if i == j {
      CommitRunsAggregates(State(ms, i, digest), ms[i], digest);
      AggregateInsertedAtMostOnce(After(State(ms, i, digest).tables, ms[i].ds, |ms[i].ds|), ms[i].gs, k, l);
    } else {
      MergedPrefix(ms, i + 1, n, digest);
      KnownAfterMerge(ms, i, k, digest);
      ReachableKeepsKnown(ms, i + 1, j, digest, ms[i].gs[k].scope, ms[i].gs[k].incoming);
      KnownBeforeMergeIsFound(ms, j, l, digest);
    }
  }

  // ---------- A reachable abort ----------

  // The newest evidence of an owner, if it has any
  lemma {:induction false} NewestOf(evidence: seq<EvidenceRow>, owner: Owner) returns (newest: Option<EvidenceRow>)
    ensures newest.None? ==> forall e :: e in evidence ==> e.owner != owner
    ensures newest.Some? ==>
              && newest.value in evidence && newest.value.owner == owner
              && forall f :: f in evidence && f.owner == owner ==> f.capturedAt <= newest.value.capturedAt
  {
    if evidence == [] {
      newest := None;
    } else {
      var n := |evidence| - 1;
      newest := NewestOf(evidence[..n], owner);
      assert evidence == evidence[..n] + [evidence[n]];
      if evidence[n].owner == owner && (newest.None? || newest.value.capturedAt <= evidence[n].capturedAt) {
        newest := Some(evidence[n]);
      }
    }
  }

  lemma SomeEndpointIsLatest(evidence: seq<EvidenceRow>, owner: Owner) returns (endpoint: string)
    ensures LatestEndpoint(evidence, owner, endpoint)
  {
    var newest := NewestOf(evidence, owner);
    endpoint := if newest.Some? then newest.value.endpoint else "";
  }

  // A term aggregate with a key and no subject
  predicate LacksSubject(x: IncomingAggregate) {
    && x.kind == TERM && x.termNo.Some? && 1 <= x.termNo.value <= 4
    && x.subjectId == "" && x.sourceKey != ""
  }

  // x, and the same with another key and a subject
  function FirstBundle(provider: string, person: string, x: IncomingAggregate, otherKey: string, subject: string): Bundle {
    Bundle(provider, person, [], [], [x, x.(sourceKey := otherKey, subjectId := subject)], [])
  }

  // x again, now with that subject
  function SecondBundle(provider: string, person: string, x: IncomingAggregate, subject: string): Bundle {
    Bundle(provider, person, [], [], [x.(subjectId := subject)], [])
  }

  function FirstMerge(student: string, b: Bundle, at: int, digest: string -> string): Merge
    requires |b.aggregates| == 2
  {
    Merge(student, b, at, [],
          [AggregateDelivery(ScopeOf(student, b), b.aggregates[0], AggregateEvidence(b, b.aggregates[0], digest), at, None, ""),
           AggregateDelivery(ScopeOf(student, b), b.aggregates[1], AggregateEvidence(b, b.aggregates[1], digest), at, None, "")])
  }

  lemma InsertsAggregate(s: Store, d: AggregateDelivery)
    requires d.found.None? && FindsAggregate(s.aggregates, d.scope, d.incoming, None)
    requires AggregateChecks(NewAggregate(d.scope, d.incoming))
    ensures LegalAggregate(s, d) && !RejectedAggregate(s, d)
    ensures MergedAggregate(s, d).aggregates == s.aggregates + [NewAggregate(d.scope, d.incoming)]
  {
    AggregateInsertNeverCollides(s.aggregates, d.scope, d.incoming);
    hide FindsAggregate, FitsAggregate, AggregateChecks, NewAggregate, WithEvidence;
  }

  lemma FirstMergeCommits(student: string, provider: string, person: string, x: IncomingAggregate, otherKey: string,
                          subject: string, at: int, digest: string -> string)
    requires LacksSubject(x) && !Blank(subject) && otherKey != x.sourceKey
    ensures
      var b := FirstBundle(provider, person, x, otherKey, subject);
      var m := FirstMerge(student, b, at, digest);
      && Commits(EMPTY_DB, m, digest)
      && Committed(EMPTY_DB, m, digest).tables.rows == []
      && Committed(EMPTY_DB, m, digest).tables.aggregates
         == [NewAggregate(ScopeOf(student, b), b.aggregates[0]), NewAggregate(ScopeOf(student, b), b.aggregates[1])]
  {
    hide AggregateEvidence, LegalAggregate, RejectedAggregate, MergedAggregate, FitsAggregate, Collide;
    var b := FirstBundle(provider, person, x, otherKey, subject);
    var m := FirstMerge(student, b, at, digest);
    assert subject != "" by {
      TrimFixesExactlyUnpadded("");
    }
    hide Blank;
    InsertsAggregate(NO_TABLES, m.gs[0]);
    var s := MergedAggregate(NO_TABLES, m.gs[0]);
    InsertsAggregate(s, m.gs[1]);
    assert Run(NO_TABLES, [], 0) && After(NO_TABLES, [], 0) == NO_TABLES;
    assert AggregateRun(NO_TABLES, m.gs, 0) && AggregateRun(NO_TABLES, m.gs, 1) && AfterAggregates(NO_TABLES, m.gs, 1) == s;
    assert AggregateRun(NO_TABLES, m.gs, 2);
    AggregateRunKeepsResults(NO_TABLES, m.gs, 2);
  }

  lemma AggregateRunKeepsResults(s: Store, gs: seq<AggregateDelivery>, n: nat)
    requires n <= |gs| && AggregateRun(s, gs, n)
    ensures AfterAggregates(s, gs, n).rows == s.rows
  {
    hide AggregateRun, AfterAggregates;
    AggregatesKeepResults(s, gs, n);
  }

  // From empty tables: after a merge of two aggregates of one term, the first without a subject, merging
  // the first again with the second's subject is aborted.
  lemma FillingASubjectCanAbort(student: string, provider: string, person: string, x: IncomingAggregate, otherKey: string,
                                subject: string, at: int, digest: string -> string)
    requires LacksSubject(x) && !Blank(subject) && otherKey != x.sourceKey
    ensures
      var ms := [FirstMerge(student, FirstBundle(provider, person, x, otherKey, subject), at, digest)];
      var b := SecondBundle(provider, person, x, subject);
      && BundleRuns.Merged(ms, 1, digest)
      && Aborts(State(ms, 1, digest).tables, student, b, map[], at, digest, [], [])
  {
    var first, b := FirstBundle(provider, person, x, otherKey, subject), SecondBundle(provider, person, x, subject);
    var ms := [FirstMerge(student, first, at, digest)];
    FirstMergeCommits(student, provider, person, x, otherKey, subject, at, digest);
    hide Commits, Committed, AggregateEvidence, Blank, AggregateChecks;
    assert BundleRuns.Merged(ms, 0, digest) && BundleRuns.Merged(ms, 1, digest);
    var s := State(ms, 1, digest).tables;
    ReachableKeepsInv(ms, 1, digest);
    var latest := SomeEndpointIsLatest(s.evidence, OfAggregate(0));
    var d := AggregateDelivery(ScopeOf(student, b), b.aggregates[0], AggregateEvidence(b, b.aggregates[0], digest), at, Some(0), latest);
    SecondCollides(s, d, subject);
    OneAggregateAborts(s, student, b, at, digest, d);
  }

  lemma SecondCollides(s: Store, d: AggregateDelivery, subject: string)
    requires AggregateInv(s) && |s.aggregates| == 2 && d.found == Some(0)
    requires LatestEndpoint(s.evidence, OfAggregate(0), d.latest)
    requires KeyMatches(s.aggregates[0], d.scope, d.incoming) && SameSlot(s.aggregates[1], s.aggregates[0])
    requires s.aggregates[0].subjectId == "" && s.aggregates[1].subjectId == d.incoming.subjectId == subject && !Blank(subject)
    ensures LegalAggregate(s, d) && RejectedAggregate(s, d)
  {
    hide LatestEndpoint, SameSlot, AggregateInv;
    assert Blank("") by {
      TrimFixesExactlyUnpadded("");
    }
    hide Blank;
    assert s.aggregates[0] in s.aggregates;
    assert FindsAggregate(s.aggregates, d.scope, d.incoming, Some(0));
    hide FindsAggregate, KeyMatches;
    assert FillCollides(s.aggregates, 0, d.incoming);
    hide FillCollides;
    AggregateRejectedExactly(s, d);
  }

  lemma OneAggregateAborts(s: Store, student: string, b: Bundle, at: int, digest: string -> string, d: AggregateDelivery)
    requires b.results == [] && |b.aggregates| == 1 && IsAggregateOf(d, student, b, 0, at, digest)
    requires LegalAggregate(s, d) && RejectedAggregate(s, d)
    ensures Aborts(s, student, b, map[], at, digest, [], [])
  {
    hide LegalAggregate, RejectedAggregate, IsAggregateOf;
    assert Run(s, [], 0) && After(s, [], 0) == s && AggregateRun(s, [], 0) && AfterAggregates(s, [], 0) == s;
  }
}
