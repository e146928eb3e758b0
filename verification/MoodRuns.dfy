/**
 The mood of a row named by its mark, over any run of bundle merges; and a run in which the highest
 endpoint does not win.
 */
module MoodRuns {
  import opened Wrappers
  import opened Text
  import opened MergeStore
  import opened ResultRuns
  import opened Bundles
  import opened Mood
  import opened BundleRuns

  predicate NamesMark(d: Delivery, scope: Scope, mark: string) {
    d.scope == scope && d.incoming.markId == mark
  }

  // The deliveries i, ..., n - 1 that name the mark, oldest first
  function MarkedTouches(ds: seq<Delivery>, i: nat, n: nat, scope: Scope, mark: string): seq<Touch>
    requires i <= n <= |ds|
  {
    if i == n then []
    else
      MarkedTouches(ds, i, n - 1, scope, mark)
      + if NamesMark(ds[n - 1], scope, mark) then [TouchOf(ds[n - 1])] else []
  }

  // The run inserts row r as its i-th delivery, under a mark.
  predicate InsertsMarked(ds: seq<Delivery>, i: nat, r: nat) {
    && i < |ds| && Run(NO_TABLES, ds, i + 1) && Run(NO_TABLES, ds, i)
    && ds[i].found.None? && |After(NO_TABLES, ds, i).rows| == r && ds[i].incoming.markId != ""
  }

  // Every delivery to row r among i + 1, ..., n - 1 names it by its mark.
  predicate OnlyByMark(ds: seq<Delivery>, i: nat, n: nat, r: nat, scope: Scope, mark: string)
    requires i < n <= |ds|
  {
    hide Legal, Rejected, MergeStore.Merged, Target;
    Run(NO_TABLES, ds, n)
    && (n == i + 1
        || (OnlyByMark(ds, i, n - 1, r, scope, mark)
            && (Target(After(NO_TABLES, ds, n - 1), ds[n - 1]) == r ==> NamesMark(ds[n - 1], scope, mark))))
  }

  lemma DeliveryWrites(s: Store, d: Delivery)
    requires Legal(s, d)
    ensures Target(s, d) < |MergeStore.Merged(s, d).rows| && |s.rows| <= |MergeStore.Merged(s, d).rows|
    ensures d.found.None? ==>
              Target(s, d) == |s.rows| && MergeStore.Merged(s, d).rows[|s.rows|] == NewRow(d.scope, d.lesson, d.incoming)
  {
    MergedIs(s, d);
    hide Legal, MergeStore.Merged, WithEvidence, Patched, NewRow;
  }

  lemma {:induction false} UntouchedBefore(ds: seq<Delivery>, n: nat, r: nat)
    requires n <= |ds| && Run(NO_TABLES, ds, n) && |After(NO_TABLES, ds, n).rows| <= r
    ensures History(NO_TABLES, ds, n, r) == []
  {
    hide Legal, Rejected, MergeStore.Merged, Target;
    if n > 0 {
      DeliveryWrites(After(NO_TABLES, ds, n - 1), ds[n - 1]);
      UntouchedBefore(ds, n - 1, r);
    }
  }

  // Once inserted, the row keeps its mark and scope.
  lemma MarkStays(ds: seq<Delivery>, i: nat, n: nat, r: nat)
    requires InsertsMarked(ds, i, r) && i < n <= |ds| && Run(NO_TABLES, ds, n)
    ensures
      var rows := After(NO_TABLES, ds, n).rows;
      r < |rows| && rows[r].scope == ds[i].scope && rows[r].markId == ds[i].incoming.markId
  {
    hide Legal, Rejected, MergeStore.Merged, Target, ResultInv, Blank;
    InsertedRow(ds, i, r);
    NoTablesInv();
    RunExtends(NO_TABLES, ds, i + 1, n);
    hide Run, After;
  }

  lemma InsertedRow(ds: seq<Delivery>, i: nat, r: nat)
    requires InsertsMarked(ds, i, r)
    ensures r < |After(NO_TABLES, ds, i + 1).rows|
    ensures After(NO_TABLES, ds, i + 1).rows[r] == NewRow(ds[i].scope, ds[i].lesson, ds[i].incoming)
  {
    hide Legal, Rejected, MergeStore.Merged, Target, NewRow;
    DeliveryWrites(After(NO_TABLES, ds, i), ds[i]);
  }

  lemma NoTablesInv()
    ensures ResultInv(NO_TABLES)
  {
  }

  // A delivery after the insert touches the row exactly if it names its mark.
  lemma TouchesExactlyByMark(ds: seq<Delivery>, i: nat, n: nat, r: nat)
    requires InsertsMarked(ds, i, r) && i < n < |ds| && Run(NO_TABLES, ds, n + 1) && Run(NO_TABLES, ds, n)
    requires Target(After(NO_TABLES, ds, n), ds[n]) == r ==> NamesMark(ds[n], ds[i].scope, ds[i].incoming.markId)
    ensures Target(After(NO_TABLES, ds, n), ds[n]) == r <==> NamesMark(ds[n], ds[i].scope, ds[i].incoming.markId)
  {
    var s := After(NO_TABLES, ds, n);
    assert Legal(s, ds[n]) && ds[i].incoming.markId != "";
    hide Run, After, Legal, ResultInv, Target;
    MarkStays(ds, i, n, r);
    NoTablesInv();
    RunKeepsInv(NO_TABLES, ds, n);
    if NamesMark(ds[n], ds[i].scope, ds[i].incoming.markId) {
      MarkedDeliveryTouches(s, ds[n], r);
    }
  }

  lemma {:induction false} HistoryIsMarked(ds: seq<Delivery>, i: nat, n: nat, r: nat)
    requires InsertsMarked(ds, i, r) && i < n <= |ds| && Run(NO_TABLES, ds, n)
    requires OnlyByMark(ds, i, n, r, ds[i].scope, ds[i].incoming.markId)
    ensures History(NO_TABLES, ds, n, r) == MarkedTouches(ds, i, n, ds[i].scope, ds[i].incoming.markId)
  {
    hide Legal, Rejected, MergeStore.Merged;
    if n == i + 1 {
      UntouchedBefore(ds, i, r);
      assert MarkedTouches(ds, i, i, ds[i].scope, ds[i].incoming.markId) == [];
    } else {
      HistoryIsMarked(ds, i, n - 1, r);
      TouchesExactlyByMark(ds, i, n - 1, r);
    }
  }

  // The mood of a row that a run of merges inserts under a mark and then delivers to by that mark only,
  // each time with new evidence: it is the mood of the last delivery naming the mark that is the insert
  // or ranks above the delivery before it and has a mood.
  lemma FinalMoodByMark(ms: seq<Merge>, n: nat, digest: string -> string, i: nat, r: nat, l: nat)
    requires n <= |ms| && BundleRuns.Merged(ms, n, digest)
    requires InsertsMarked(Flat(ms, n), i, r)
    requires FreshRun(NO_TABLES, Flat(ms, n), |Flat(ms, n)|, r)
    requires OnlyByMark(Flat(ms, n), i, |Flat(ms, n)|, r, Flat(ms, n)[i].scope, Flat(ms, n)[i].incoming.markId)
    requires
      var h := MarkedTouches(Flat(ms, n), i, |Flat(ms, n)|, Flat(ms, n)[i].scope, Flat(ms, n)[i].incoming.markId);
      l < |h| && Decides(h, l) && forall k: nat :: l < k < |h| ==> !Decides(h, k)
    ensures
      var h := MarkedTouches(Flat(ms, n), i, |Flat(ms, n)|, Flat(ms, n)[i].scope, Flat(ms, n)[i].incoming.markId);
      && r < |State(ms, n, digest).tables.rows|
      && State(ms, n, digest).tables.rows[r].mood == h[l].mood == MoodAfter(h)
  {
    var ds := Flat(ms, n);
    assert Run(NO_TABLES, ds, |ds|);
    hide Run, After, History, MarkedTouches, OnlyByMark, InsertsMarked, Decides, FreshRun, BundleRuns.Merged, State, MoodAfter;
    SameFinalRows(ms, n, digest);
    HistoryIsMarked(ds, i, |ds|, r);
    MarkStays(ds, i, |ds|, r);
    NoTablesInv();
    NothingFollows(r);
    FinalMood(NO_TABLES, ds, |ds|, r, l);
    LastDecidingTouchWins(History(NO_TABLES, ds, |ds|, r), l);
  }

  lemma NothingFollows(r: nat)
    ensures Follows(NO_TABLES, r, [])
  {
  }

  lemma SameFinalRows(ms: seq<Merge>, n: nat, digest: string -> string)
    requires n <= |ms| && BundleRuns.Merged(ms, n, digest) && Run(NO_TABLES, Flat(ms, n), |Flat(ms, n)|)
    ensures State(ms, n, digest).tables.rows == After(NO_TABLES, Flat(ms, n), |Flat(ms, n)|).rows
  {
    hide Run, After, BundleRuns.Merged, State;
    var t := FlatIsARun(ms, n, digest);
  }

  // ---------- A lower endpoint overwrites ----------

  const SCOPE := Scope("s1", "kundelik")

  function Result(mood: string): Incoming {
    Incoming("r1", REGULAR, "w1", "m1", "math", "Math", "", "2026-03-31", "p1", None, "5", mood)
  }

  function Marked(mood: string, endpoint: string, at: int, found: Option<nat>, latest: string): Delivery {
    Delivery(SCOPE, None, Result(mood), Evidence(endpoint, "", endpoint), at, found, latest)
  }

  // One mark delivered by the diary, then the final, then the period endpoint
  function Overwriting(): seq<Delivery> {
    [Marked("A", "diary", 0, None, ""), Marked("C", "final", 1, Some(0), "diary"),
     Marked("B", "period", 2, Some(0), "final")]
  }

  function Captured(endpoint: string, at: int): EvidenceRow {
    EvidenceRow(OfResult(0), endpoint, "", endpoint, at)
  }

  function OneRow(mood: string, evidence: seq<EvidenceRow>): Store {
    Store([NewRow(SCOPE, None, Result(mood))], [], evidence)
  }

  lemma ConcreteTexts()
    ensures Trim("diary") == "diary" && Trim("final") == "final" && Trim("period") == "period"
    ensures !Blank("A") && !Blank("B") && !Blank("C") && !Blank("m1") && !Blank("math") && !Blank("Math")
  {
    hide Trim;
    TrimFixesExactlyUnpadded("diary");
    TrimFixesExactlyUnpadded("final");
    TrimFixesExactlyUnpadded("period");
    TrimFixesExactlyUnpadded("A");
    TrimFixesExactlyUnpadded("B");
    TrimFixesExactlyUnpadded("C");
    TrimFixesExactlyUnpadded("m1");
    TrimFixesExactlyUnpadded("math");
    TrimFixesExactlyUnpadded("Math");
  }

  lemma DiaryInserts()
    ensures Legal(NO_TABLES, Overwriting()[0]) && !Rejected(NO_TABLES, Overwriting()[0])
    ensures MergeStore.Merged(NO_TABLES, Overwriting()[0]) == OneRow("A", [Captured("diary", 0)])
  {
    ConcreteTexts();
    hide Trim, Blank;
    assert Legal(NO_TABLES, Overwriting()[0]);
    assert !Owns([], OfResult(0), "diary");
  }

  // A later delivery of the mark, compared with the endpoint captured last
  lemma MarkPatches(mood: string, evidence: seq<EvidenceRow>, last: string, next: string, nextMood: string, at: int)
    requires evidence != [] && evidence[|evidence| - 1] == Captured(last, at - 1)
    requires forall k: nat :: k < |evidence| ==> evidence[k].capturedAt < at && evidence[k].fingerprint != next
    requires forall k: nat :: k < |evidence| ==> evidence[k].owner == OfResult(0)
    requires Trim(next) == next != "" && !Blank(nextMood)
    requires !Blank("m1") && !Blank("math") && !Blank("Math")
    ensures
      var s, d := OneRow(mood, evidence), Marked(nextMood, next, at, Some(0), last);
      && Legal(s, d) && !Rejected(s, d)
      && MergeStore.Merged(s, d)
         == OneRow(if SourceEndpointPrecedence(next) > SourceEndpointPrecedence(last) then nextMood else mood,
                   evidence + [Captured(next, at)])
  {
    hide Trim, Blank, SourceEndpointPrecedence;
    var s, d := OneRow(mood, evidence), Marked(nextMood, next, at, Some(0), last);
    assert s.rows[0] in s.rows && MarkMatches(s.rows[0], SCOPE, d.incoming);
    assert Finds(s.rows, SCOPE, None, d.incoming, Some(0));
    assert LatestEndpoint(evidence, OfResult(0), last) by {
      LastIsLatest(evidence, last, at);
    }
    hide Finds, LatestEndpoint;
    assert !Owns(evidence, OfResult(0), next);
    hide Owns;
    assert Legal(s, d);
  }

  lemma LastIsLatest(evidence: seq<EvidenceRow>, last: string, at: int)
    requires evidence != [] && evidence[|evidence| - 1] == Captured(last, at - 1)
    requires forall k: nat :: k < |evidence| ==> evidence[k].capturedAt < at
    ensures LatestEndpoint(evidence, OfResult(0), last)
  {
    var e := evidence[|evidence| - 1];
    assert e in evidence && e.owner == OfResult(0) && e.endpoint == last;
    assert forall f :: f in evidence && f.owner == OfResult(0) ==> f.capturedAt <= e.capturedAt;
  }

  // A bundle with the one result, its evidence from the endpoint, merged as the delivery says
  function MergeOf(mood: string, endpoint: string, at: int, found: Option<nat>, latest: string): Merge {
    Merge("s1",
          Bundle("kundelik", "person-1", [], [Result(mood)], [], [EvidenceItem("r1", "", Evidence(endpoint, "", endpoint))]),
          at, [Marked(mood, endpoint, at, found, latest)], [])
  }

  function OverwritingMerges(): seq<Merge> {
    [MergeOf("A", "diary", 0, None, ""), MergeOf("C", "final", 1, Some(0), "diary"), MergeOf("B", "period", 2, Some(0), "final")]
  }

  // The evidence of the bundle reaches its result.
  lemma BundleSuppliesEvidence(mood: string, endpoint: string, at: int, digest: string -> string)
    ensures
      var b := MergeOf(mood, endpoint, at, None, "").bundle;
      ResultEvidence(b, b.results[0], digest) == Evidence(endpoint, "", endpoint)
  {
    hide Trim, SyntheticResultEvidence;
    var items := [EvidenceItem("r1", "", Evidence(endpoint, "", endpoint))];
    assert Trim("r1") == "r1" by {
      TrimFixesExactlyUnpadded("r1");
    }
    assert items[..0] == [] && EvidenceIndex(items[..0], true) == map[];
    assert EvidenceIndex(items, true) == map["r1" := Evidence(endpoint, "", endpoint)];
  }

  lemma OneResultCommits(
      db: Db, mood: string, endpoint: string, at: int, found: Option<nat>, latest: string, digest: string -> string)
    requires db.lessons == []
    requires
      var d := Marked(mood, endpoint, at, found, latest);
      Legal(db.tables, d) && !Rejected(db.tables, d)
    ensures
      var m := MergeOf(mood, endpoint, at, found, latest);
      Commits(db, m, digest) && Committed(db, m, digest) == Db([], MergeStore.Merged(db.tables, m.ds[0]))
  {
    hide Legal, Rejected, MergeStore.Merged, ResultEvidence;
    var m := MergeOf(mood, endpoint, at, found, latest);
    BundleSuppliesEvidence(mood, endpoint, at, digest);
    assert Run(db.tables, m.ds, 0) && Run(db.tables, m.ds, 1);
    assert After(db.tables, m.ds, 1) == MergeStore.Merged(db.tables, m.ds[0]);
    assert IsResultOf(m.ds[0], m.student, m.bundle, RefsOf(db, m), 0, m.at, digest);
  }

  // The tables after none, one, two and three of the deliveries
  function OverwritingStore(n: nat): Store
    requires n <= 3
  {
    if n == 0 then NO_TABLES
    else if n == 1 then OneRow("A", [Captured("diary", 0)])
    else if n == 2 then OneRow("A", [Captured("diary", 0)] + [Captured("final", 1)])
    else OneRow("B", [Captured("diary", 0)] + [Captured("final", 1)] + [Captured("period", 2)])
  }

  lemma OverwritingSteps(n: nat)
    requires n < 3
    ensures Legal(OverwritingStore(n), Overwriting()[n]) && !Rejected(OverwritingStore(n), Overwriting()[n])
    ensures MergeStore.Merged(OverwritingStore(n), Overwriting()[n]) == OverwritingStore(n + 1)
  {
    EndpointRanks();
    ConcreteTexts();
    hide Trim, Blank, SourceEndpointPrecedence, Legal, Rejected, MergeStore.Merged;
    if n == 0 {
      DiaryInserts();
    } else if n == 1 {
      MarkPatches("A", [Captured("diary", 0)], "diary", "final", "C", 1);
    } else {
      MarkPatches("A", [Captured("diary", 0)] + [Captured("final", 1)], "final", "period", "B", 2);
    }
  }

  lemma {:induction false} OverwritingStates(n: nat, digest: string -> string)
    requires n <= 3
    ensures BundleRuns.Merged(OverwritingMerges(), n, digest)
    ensures State(OverwritingMerges(), n, digest) == Db([], OverwritingStore(n))
    ensures Run(NO_TABLES, Overwriting(), n) && After(NO_TABLES, Overwriting(), n) == OverwritingStore(n)
    ensures Flat(OverwritingMerges(), n) == Overwriting()[..n]
  {
    hide Legal, Rejected, MergeStore.Merged, Commits, Committed, OverwritingStore;
    if n == 0 {
      assert OverwritingStore(0) == NO_TABLES by {
        StartsEmpty();
      }
    } else {
      OverwritingStates(n - 1, digest);
      OverwritingSteps(n - 1);
      var d := Overwriting()[n - 1];
      OneResultCommits(Db([], OverwritingStore(n - 1)), d.incoming.mood, d.evidence.endpoint, d.at, d.found, d.latest, digest);
      assert OverwritingMerges()[n - 1] == MergeOf(d.incoming.mood, d.evidence.endpoint, d.at, d.found, d.latest);
    }
  }

  lemma StartsEmpty()
    ensures OverwritingStore(0) == NO_TABLES
  {
  }

  // What the deliveries of the mark look like, and that each brings new evidence
  lemma OverwritingTouches()
    ensures MarkedTouches(Overwriting(), 0, 3, SCOPE, "m1") == [Touch(30, "A"), Touch(10, "C"), Touch(20, "B")]
  {
    EndpointRanks();
    hide SourceEndpointPrecedence;
    var ds := Overwriting();
    assert MarkedTouches(ds, 0, 0, SCOPE, "m1") == [];
    assert MarkedTouches(ds, 0, 1, SCOPE, "m1") == [Touch(30, "A")];
    assert MarkedTouches(ds, 0, 2, SCOPE, "m1") == [Touch(30, "A"), Touch(10, "C")];
  }

  lemma FreshAt(n: nat)
    requires n < 3
    ensures FreshTouch(OverwritingStore(n), Overwriting()[n], 0)
  {
    ConcreteTexts();
    EndpointsNotBlank();
    hide Trim, Blank;
  }

  lemma EndpointsNotBlank()
    ensures !Blank("diary") && !Blank("final") && !Blank("period")
  {
    ConcreteTexts();
    hide Trim;
  }

  lemma {:induction false} OverwritingIsFresh(n: nat, digest: string -> string)
    requires n <= 3
    ensures FreshRun(NO_TABLES, Overwriting(), n, 0)
  {
    hide Legal, Rejected, MergeStore.Merged, FreshTouch, Run, After;
    OverwritingStates(n, digest);
    if n > 0 {
      OverwritingIsFresh(n - 1, digest);
      OverwritingStates(n - 1, digest);
      FreshAt(n - 1);
    }
  }

  lemma OverwritingByMark(digest: string -> string)
    ensures InsertsMarked(Overwriting(), 0, 0) && OnlyByMark(Overwriting(), 0, 3, 0, SCOPE, "m1")
  {
    hide Legal, Rejected, MergeStore.Merged, Run, After, Target, OverwritingStore;
    OverwritingStates(0, digest);
    OverwritingStates(1, digest);
    OverwritingStates(2, digest);
    OverwritingStates(3, digest);
    StartsEmpty();
  }

  // diary, final, period, each in a bundle of its own that supplies the evidence: the period delivery
  // overwrites the diary's mood, although the diary ranks higher and the highest-precedence rule would
  // keep it. FinalMoodByMark says why: the last delivery rises over the one before.
  lemma LowerEndpointOverwrites(digest: string -> string)
    ensures BundleRuns.Merged(OverwritingMerges(), 3, digest)
    ensures |State(OverwritingMerges(), 3, digest).tables.rows| == 1
    ensures State(OverwritingMerges(), 3, digest).tables.rows[0].mood == "B"
    ensures
      var h := MarkedTouches(Flat(OverwritingMerges(), 3), 0, |Flat(OverwritingMerges(), 3)|, SCOPE, "m1");
      h == [Touch(30, "A"), Touch(10, "C"), Touch(20, "B")] && HighestWins(h) == "A"
  {
    hide Run, After, MarkedTouches, InsertsMarked, OnlyByMark, FreshRun, BundleRuns.Merged, State, Flat, HighestWins, MoodAfter, Blank;
    var ms := OverwritingMerges();
    OverwritingStates(3, digest);
    OverwritingByMark(digest);
    OverwritingIsFresh(3, digest);
    OverwritingTouches();
    HighestIsDiary();
    ConcreteTexts();
    assert Flat(ms, 3) == Overwriting();
    var h := MarkedTouches(Flat(ms, 3), 0, |Flat(ms, 3)|, SCOPE, "m1");
    assert Decides(h, 2);
    FinalMoodByMark(ms, 3, digest, 0, 0, 2);
  }

  lemma HighestIsDiary()
    ensures HighestWins([Touch(30, "A"), Touch(10, "C"), Touch(20, "B")]) == "A"
  {
    hide Blank;
    var h := [Touch(30, "A"), Touch(10, "C"), Touch(20, "B")];
    assert h[..2] == [Touch(30, "A"), Touch(10, "C")] && h[..2][..1] == [Touch(30, "A")];
    assert Precedences(h[..2]) == [30, 10] && Precedences(h[..2][..1]) == [30];
    assert [30, 10][..1] == [30] && Highest([30]) == 30 && Highest([30, 10]) == 30;
    assert HighestWins(h[..2]) == "A";
  }
}
