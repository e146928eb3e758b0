/**
 Which mood a result row ends up with. The code compares each delivery with the latest evidence of
 the row, not with the best evidence so far; this module says exactly what that amounts to, and
 exactly when it is the rule "the highest precedence wins".
 */
module Mood {
  import opened Wrappers
  import opened Text
  import opened MergeStore
  import opened ResultRuns

  // A delivery as far as a row's mood is concerned
  datatype Touch = Touch(precedence: int, mood: string)

  function TouchOf(d: Delivery): Touch {
    Touch(SourceEndpointPrecedence(d.evidence.endpoint), d.incoming.mood)
  }

  // The deliveries among the first n that wrote row r, oldest first
  function History(s: Store, ds: seq<Delivery>, n: nat, r: nat): seq<Touch>
    requires n <= |ds| && Run(s, ds, n)
  {
    hide Legal, Rejected, Merged, Target;
    if n == 0 then [] else Noted(After(s, ds, n - 1), ds[n - 1], r, History(s, ds, n - 1, r))
  }

  function Noted(s: Store, d: Delivery, r: nat, h: seq<Touch>): seq<Touch> {
    if Target(s, d) == r then h + [TouchOf(d)] else h
  }

  // The touch sets the mood: it inserted the row, or it ranks above the touch before it and has a mood.
  predicate Decides(h: seq<Touch>, i: nat)
    requires i < |h|
  {
    i == 0 || (!Blank(h[i].mood) && h[i].precedence > h[i - 1].precedence)
  }

  function MoodAfter(h: seq<Touch>): string
    requires h != []
  {
    var n := |h| - 1;
    if Decides(h, n) then h[n].mood else MoodAfter(h[..n])
  }

  // The mood after h is the one of its last deciding touch.
  lemma {:induction false} LastDecidingTouchWins(h: seq<Touch>, i: nat)
    requires i < |h| && Decides(h, i) && forall k: nat :: i < k < |h| ==> !Decides(h, k)
    ensures MoodAfter(h) == h[i].mood
  {
    hide Blank;
    var n := |h| - 1;
    if i < n {
      assert forall k: nat :: k < n ==> Decides(h[..n], k) == Decides(h, k);
      LastDecidingTouchWins(h[..n], i);
    }
  }

  // ---------- The store follows the history ----------

  // A delivery to row r in a merge of its own, with evidence the row does not have yet
  predicate FreshTouch(s: Store, d: Delivery, r: nat) {
    Target(s, d) == r ==>
      && !Blank(d.evidence.fingerprint) && !Owns(s.evidence, OfResult(r), Trim(d.evidence.fingerprint))
      && forall e :: e in s.evidence && e.owner == OfResult(r) ==> e.capturedAt < d.at
  }

  predicate FreshRun(s: Store, ds: seq<Delivery>, n: nat, r: nat)
    requires n <= |ds|
  {
    hide Legal, Rejected, Merged, FreshTouch;
    n == 0 || (Run(s, ds, n) && FreshRun(s, ds, n - 1, r) && FreshTouch(After(s, ds, n - 1), ds[n - 1], r))
  }

  // The newest evidence of row r is e, and nothing else is as new.
  predicate NewestIs(evidence: seq<EvidenceRow>, r: nat, e: EvidenceRow) {
    e in evidence && e.owner == OfResult(r)
    && forall f :: f in evidence && f.owner == OfResult(r) ==> f == e || f.capturedAt < e.capturedAt
  }

  ghost predicate Follows(s: Store, r: nat, h: seq<Touch>) {
    if r < |s.rows| then
      && h != [] && s.rows[r].mood == MoodAfter(h)
      && exists e :: NewestIs(s.evidence, r, e) && SourceEndpointPrecedence(e.endpoint) == h[|h| - 1].precedence
    else
      h == [] && forall e :: e in s.evidence ==> e.owner != OfResult(r)
  }

  lemma NewestIsLatest(evidence: seq<EvidenceRow>, r: nat, e: EvidenceRow, endpoint: string)
    requires NewestIs(evidence, r, e) && LatestEndpoint(evidence, OfResult(r), endpoint)
    ensures endpoint == e.endpoint
  {
  }

  lemma FreshEvidenceIsNewest(s: Store, d: Delivery, r: nat)
    requires Target(s, d) == r && FreshTouch(s, d, r)
    ensures
      var e := EvidenceRow(OfResult(r), d.evidence.endpoint, d.evidence.moodRaw, Trim(d.evidence.fingerprint), d.at);
      NewestIs(WithEvidence(s.evidence, OfResult(r), d.evidence, d.at), r, e)
  {
    var e := EvidenceRow(OfResult(r), d.evidence.endpoint, d.evidence.moodRaw, Trim(d.evidence.fingerprint), d.at);
    assert WithEvidence(s.evidence, OfResult(r), d.evidence, d.at) == s.evidence + [e] by {
      hide Trim, Owns;
    }
    hide Trim, Owns, WithEvidence, Blank, Target;
    assert (s.evidence + [e])[|s.evidence|] == e;
  }

  lemma TouchedMood(h: seq<Touch>, t: Touch)
    ensures MoodAfter(h + [t])
         == if h == [] || (!Blank(t.mood) && t.precedence > h[|h| - 1].precedence) then t.mood else MoodAfter(h)
  {
    hide Blank;
    assert (h + [t])[..|h|] == h;
  }

  // The row a delivery writes, as far as its mood is concerned
  lemma WrittenMood(s: Store, d: Delivery)
    requires Legal(s, d)
    ensures
      var r := Target(s, d);
      var s' := Merged(s, d);
      && r < |s'.rows| && s'.evidence == WithEvidence(s.evidence, OfResult(r), d.evidence, d.at)
      && (d.found.Some? <==> r < |s.rows|)
      && (d.found.None? ==> s'.rows[r].mood == d.incoming.mood)
      && (d.found.Some? ==>
            s'.rows[r].mood == if !Blank(d.incoming.mood) && Outranks(d) then d.incoming.mood else s.rows[r].mood)
  {
    assert d.found.Some? ==> d.found.value < |s.rows|;
    hide Blank, Finds, WithEvidence, SourceEndpointPrecedence, LatestEndpoint;
  }

  lemma LatestIsTheNewest(s: Store, d: Delivery, r: nat, h: seq<Touch>)
    requires Legal(s, d) && d.found == Some(r) && r < |s.rows| && Follows(s, r, h)
    ensures h != [] && Outranks(d) <==> TouchOf(d).precedence > h[|h| - 1].precedence
    ensures h != [] && s.rows[r].mood == MoodAfter(h)
  {
    hide SourceEndpointPrecedence, Finds, MoodAfter, NewestIs, LatestEndpoint;
    var e :| NewestIs(s.evidence, r, e) && SourceEndpointPrecedence(e.endpoint) == h[|h| - 1].precedence;
    NewestIsLatest(s.evidence, r, e, d.latest);
  }

  lemma TouchFollows(s: Store, d: Delivery, r: nat, h: seq<Touch>)
    requires ResultInv(s) && Legal(s, d) && Follows(s, r, h) && Target(s, d) == r && FreshTouch(s, d, r)
    ensures Follows(Merged(s, d), r, h + [TouchOf(d)])
  {
    hide Blank, Trim, SourceEndpointPrecedence, ResultInv, Legal, WithEvidence, FreshTouch, MoodAfter, Merged, Outranks, NewestIs;
    var h' := h + [TouchOf(d)];
    FreshEvidenceIsNewest(s, d, r);
    TouchedMood(h, TouchOf(d));
    WrittenMood(s, d);
    if d.found.Some? {
      LatestIsTheNewest(s, d, r, h);
    }
    assert h'[|h'| - 1].precedence == SourceEndpointPrecedence(d.evidence.endpoint);
  }

  // A delivery to another row leaves this row's mood and evidence alone.
  lemma OtherMood(s: Store, d: Delivery, r: nat)
    requires Legal(s, d) && Target(s, d) != r
    ensures r < |s.rows| ==> r < |Merged(s, d).rows| && Merged(s, d).rows[r].mood == s.rows[r].mood
    ensures r >= |s.rows| ==> r >= |Merged(s, d).rows|
    ensures forall e: EvidenceRow :: e.owner == OfResult(r) ==> (e in Merged(s, d).evidence <==> e in s.evidence)
  {
    hide Legal, Merged, Written, WithEvidence, Target;
    MergedIs(s, d);
    OtherEvidence(s.evidence, OfResult(Target(s, d)), d.evidence, d.at, OfResult(r));
  }

  lemma OtherEvidence(evidence: seq<EvidenceRow>, owner: Owner, e: Evidence, now: int, other: Owner)
    requires owner != other
    ensures forall f: EvidenceRow :: f.owner == other ==> (f in WithEvidence(evidence, owner, e, now) <==> f in evidence)
  {
    hide Trim, Owns;
  }

  lemma OtherFollows(s: Store, d: Delivery, r: nat, h: seq<Touch>)
    requires ResultInv(s) && Legal(s, d) && Follows(s, r, h) && Target(s, d) != r
    ensures Follows(Merged(s, d), r, h)
  {
    hide SourceEndpointPrecedence, Legal, Merged, MoodAfter, ResultInv;
    OtherMood(s, d, r);
    if r < |s.rows| {
      var e :| NewestIs(s.evidence, r, e) && SourceEndpointPrecedence(e.endpoint) == h[|h| - 1].precedence;
      assert NewestIs(Merged(s, d).evidence, r, e);
    }
  }

  lemma DeliveryFollows(s: Store, d: Delivery, r: nat, h: seq<Touch>)
    requires ResultInv(s) && Legal(s, d) && Follows(s, r, h) && FreshTouch(s, d, r)
    ensures Follows(Merged(s, d), r, Noted(s, d, r, h))
  {
    if Target(s, d) == r {
      TouchFollows(s, d, r, h);
    } else {
      OtherFollows(s, d, r, h);
    }
  }

  // Whatever else is merged in between, a row inserted during a run has the mood of the last
  // delivery to it that inserted it or ranked above the delivery to it just before.
  lemma {:induction false} RowMoodFollowsHistory(s: Store, ds: seq<Delivery>, n: nat, r: nat)
    requires ResultInv(s) && n <= |ds| && Run(s, ds, n) && FreshRun(s, ds, n, r)
    requires Follows(s, r, [])
    ensures Follows(After(s, ds, n), r, History(s, ds, n, r))
  {
    hide Merged, ResultInv, Legal, Rejected, Follows, FreshTouch, Noted;
    if n > 0 {
      RowMoodFollowsHistory(s, ds, n - 1, r);
      RunKeepsInv(s, ds, n - 1);
      DeliveryFollows(After(s, ds, n - 1), ds[n - 1], r, History(s, ds, n - 1, r));
    }
  }

  // So the final mood of a row that was inserted during the run is the one delivered by the last
  // touch that was the insert or a strict rise with a nonblank mood.
  lemma FinalMood(s: Store, ds: seq<Delivery>, n: nat, r: nat, i: nat)
    requires ResultInv(s) && n <= |ds| && Run(s, ds, n) && FreshRun(s, ds, n, r) && Follows(s, r, [])
    requires |s.rows| <= r < |After(s, ds, n).rows| && i < |History(s, ds, n, r)|
    requires Decides(History(s, ds, n, r), i)
    requires forall k: nat :: i < k < |History(s, ds, n, r)| ==> !Decides(History(s, ds, n, r), k)
    ensures After(s, ds, n).rows[r].mood == History(s, ds, n, r)[i].mood
  {
    hide Merged, ResultInv, Legal, Rejected, Noted, Decides, After, History;
    RowMoodFollowsHistory(s, ds, n, r);
    LastDecidingTouchWins(History(s, ds, n, r), i);
  }

  // Deliveries that name a row by its mark touch that row.
  lemma MarkedDeliveryTouches(s: Store, d: Delivery, r: nat)
    requires ResultInv(s) && Legal(s, d)
    requires r < |s.rows| && MarkMatches(s.rows[r], d.scope, d.incoming)
    ensures Target(s, d) == r
  {
    assert s.rows[r] in s.rows;
    hide SourceKeyMatches, FingerprintMatches, LatestEndpoint;
    OneRowPerMark(s.rows, d.found.value, r, d.scope, d.incoming);
  }

  lemma OneRowPerMark(rows: seq<Row>, i: nat, j: nat, scope: Scope, x: Incoming)
    requires RowsUnique(rows) && i < |rows| && j < |rows|
    requires MarkMatches(rows[i], scope, x) && MarkMatches(rows[j], scope, x)
    ensures i == j
  {
    assert Conflict(rows[i], rows[j]) && Conflict(rows[j], rows[i]);
  }

  // ---------- The highest-precedence rule ----------

  function Highest(ps: seq<int>): int
    requires ps != []
  {
    var n := |ps| - 1;
    if n == 0 then ps[0]
    else
      var best := Highest(ps[..n]);
      if ps[n] > best then ps[n] else best
  }

  function Precedences(h: seq<Touch>): seq<int> {
    seq(|h|, i requires 0 <= i < |h| => h[i].precedence)
  }

  // The rule of the in-memory test double: a touch above everything before it sets the mood.
  function HighestWins(h: seq<Touch>): string
    requires h != []
  {
    var n := |h| - 1;
    if n == 0 then h[0].mood
    else if h[n].precedence > Highest(Precedences(h[..n])) && !Blank(h[n].mood) then h[n].mood
    else HighestWins(h[..n])
  }

  // Whenever the precedence rises above the delivery before, it rises above all deliveries before.
  predicate RisesToNewHeights(ps: seq<int>) {
    forall i :: 0 < i < |ps| && ps[i] > ps[i - 1] ==> ps[i] > Highest(ps[..i])
  }

  lemma {:induction false} HighestBoundsLast(ps: seq<int>)
    requires ps != []
    ensures forall i :: 0 <= i < |ps| ==> ps[i] <= Highest(ps)
  {
    if |ps| > 1 {
      HighestBoundsLast(ps[..|ps| - 1]);
      assert forall i :: 0 <= i < |ps| - 1 ==> ps[i] == ps[..|ps| - 1][i];
    }
  }

  lemma {:induction false} NewHeightsSuffice(h: seq<Touch>)
    requires h != [] && RisesToNewHeights(Precedences(h))
    ensures MoodAfter(h) == HighestWins(h)
  {
    hide Blank;
    var n, ps := |h| - 1, Precedences(h);
    if n > 0 {
      assert Precedences(h[..n]) == ps[..n];
      assert RisesToNewHeights(ps[..n]) by {
        assert forall i :: 0 < i < n ==> ps[..n][..i] == ps[..i];
      }
      NewHeightsSuffice(h[..n]);
      assert h[n].precedence > h[n - 1].precedence <==> h[n].precedence > Highest(ps[..n]) by {
        HighestBoundsLast(ps[..n]);
        assert ps[..n][n - 1] == h[n - 1].precedence;
      }
      hide RisesToNewHeights, Highest;
    }
  }

  // Moods that show a rise at i which is not a new height: "B" there, "A" at the start, blank elsewhere
  function Witness(ps: seq<int>, i: nat): seq<Touch> {
    seq(|ps|, k requires 0 <= k < |ps| => Touch(ps[k], if k == 0 then "A" else if k == i then "B" else ""))
  }

  lemma BlankWitnessMoods()
    ensures !Blank("A") && !Blank("B") && Blank("")
  {
    hide Trim;
    TrimFixesExactlyUnpadded("A");
    TrimFixesExactlyUnpadded("B");
    TrimFixesExactlyUnpadded("");
  }

  lemma {:induction false} WitnessMood(ps: seq<int>, i: nat, n: nat)
    requires 0 < i < |ps| && ps[i] > ps[i - 1] && i < n <= |ps|
    ensures MoodAfter(Witness(ps, i)[..n]) == "B"
  {
    hide Blank;
    BlankWitnessMoods();
    var h := Witness(ps, i)[..n];
    if n > i + 1 {
      assert h[..n - 1] == Witness(ps, i)[..n - 1];
      WitnessMood(ps, i, n - 1);
    }
  }

  lemma {:induction false} WitnessHighest(ps: seq<int>, i: nat, n: nat)
    requires 0 < i < |ps| && ps[i] <= Highest(ps[..i]) && 0 < n <= |ps|
    ensures HighestWins(Witness(ps, i)[..n]) == "A"
  {
    hide Blank;
    BlankWitnessMoods();
    var h := Witness(ps, i)[..n];
    if n > 1 {
      assert h[..n - 1] == Witness(ps, i)[..n - 1];
      assert Precedences(h[..n - 1]) == ps[..n - 1];
      WitnessHighest(ps, i, n - 1);
    }
  }

  // Highest precedence wins exactly on the endpoint orders in which every rise is a new height: on
  // those orders for all moods, and on any other order not for all moods.
  lemma HighestWinsExactlyOnNewHeights(ps: seq<int>)
    requires ps != []
    ensures RisesToNewHeights(ps) <==> forall h :: h != [] && Precedences(h) == ps ==> MoodAfter(h) == HighestWins(h)
  {
    if RisesToNewHeights(ps) {
      forall h | h != [] && Precedences(h) == ps
        ensures MoodAfter(h) == HighestWins(h)
      {
        NewHeightsSuffice(h);
      }
    } else {
      LowerRiseDisagrees(ps);
    }
    hide MoodAfter, HighestWins, RisesToNewHeights;
  }

  lemma LowerRiseDisagrees(ps: seq<int>)
    requires ps != [] && !RisesToNewHeights(ps)
    ensures exists h :: h != [] && Precedences(h) == ps && MoodAfter(h) != HighestWins(h)
  {
    var i :| 0 < i < |ps| && ps[i] > ps[i - 1] && ps[i] <= Highest(ps[..i]);
    var h := Witness(ps, i);
    assert h[..|ps|] == h;
    WitnessMood(ps, i, |ps|);
    WitnessHighest(ps, i, |ps|);
    hide MoodAfter, HighestWins, Highest;
    assert Precedences(h) == ps;
  }

  // Rising runs are such orders; on falling runs the first mood stays.
  lemma MonotoneRuns(h: seq<Touch>)
    requires h != []
    ensures (forall i :: 0 < i < |h| ==> h[i - 1].precedence <= h[i].precedence) ==> MoodAfter(h) == HighestWins(h)
    ensures (forall i :: 0 < i < |h| ==> h[i - 1].precedence >= h[i].precedence) ==> MoodAfter(h) == h[0].mood
  {
    var ps := Precedences(h);
    if forall i :: 0 < i < |h| ==> h[i - 1].precedence <= h[i].precedence {
      forall i | 0 < i < |ps| && ps[i] > ps[i - 1]
        ensures ps[i] > Highest(ps[..i])
      {
        assert forall k :: 0 < k < |ps| ==> ps[k - 1] <= ps[k];
        RisingHighest(ps, i);
      }
      NewHeightsSuffice(h);
    }
    if forall i :: 0 < i < |h| ==> h[i - 1].precedence >= h[i].precedence {
      LastDecidingTouchWins(h, 0);
    }
  }

  lemma {:induction false} RisingHighest(ps: seq<int>, n: nat)
    requires 0 < n <= |ps| && forall k :: 0 < k < |ps| ==> ps[k - 1] <= ps[k]
    ensures Highest(ps[..n]) == ps[n - 1]
  {
    if n > 1 {
      RisingHighest(ps, n - 1);
      assert ps[..n][..n - 1] == ps[..n - 1];
    }
  }

  lemma EndpointRanks()
    ensures SourceEndpointPrecedence("diary") == 30
    ensures SourceEndpointPrecedence("final") == 10
    ensures SourceEndpointPrecedence("period") == 20
  {
    EndpointNamesAreFolded();
    hide Fold;
  }

  lemma EndpointNamesAreFolded()
    ensures Fold("diary") == "diary" && Fold("final") == "final" && Fold("period") == "period"
  {
    hide Trim;
    TrimFixesExactlyUnpadded("diary");
    TrimFixesExactlyUnpadded("final");
    TrimFixesExactlyUnpadded("period");
    assert Lower("diary") == "diary";
    assert Lower("final") == "final";
    assert Lower("period") == "period";
  }
}
