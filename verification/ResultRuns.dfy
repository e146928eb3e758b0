/**
 Any number of committed merges delivering results to one store: nothing is lost, an input is
 inserted at most once, and each row has an identity of its own.
 */
module ResultRuns {
  import opened Wrappers
  import opened Text
  import opened MergeStore

  predicate Run(s: Store, ds: seq<Delivery>, n: nat)
    requires n <= |ds|
    decreases n, 0
  {
    n == 0
    || (Run(s, ds, n - 1) && Legal(After(s, ds, n - 1), ds[n - 1]) && !Rejected(After(s, ds, n - 1), ds[n - 1]))
  }

  function After(s: Store, ds: seq<Delivery>, n: nat): Store
    requires n <= |ds| && Run(s, ds, n)
    decreases n, 1
  {
    if n == 0 then s else Merged(After(s, ds, n - 1), ds[n - 1])
  }

  lemma {:induction false} RunPrefix(s: Store, ds: seq<Delivery>, m: nat, n: nat)
    requires m <= n <= |ds| && Run(s, ds, n)
    ensures Run(s, ds, m)
  {
    hide Legal, Rejected, Merged;
    if m < n {
      RunPrefix(s, ds, m, n - 1);
    }
  }

  // The first n steps of a run do not depend on what follows.
  lemma {:induction false} RunIgnoresRest(s: Store, ds: seq<Delivery>, more: seq<Delivery>, n: nat)
    requires n <= |ds| && Run(s, ds, n)
    ensures Run(s, ds + more, n) && After(s, ds + more, n) == After(s, ds, n)
  {
    hide Legal, Rejected, Merged;
    if n > 0 {
      RunIgnoresRest(s, ds, more, n - 1);
    }
  }

  // s' is the store after all the deliveries, each accepted in its turn.
  predicate Leads(s: Store, ds: seq<Delivery>, s': Store) {
    Run(s, ds, |ds|) && s' == After(s, ds, |ds|)
  }

  lemma OneMoreLeads(s: Store, ds: seq<Delivery>, s': Store, d: Delivery)
    requires Leads(s, ds, s') && Legal(s', d) && !Rejected(s', d)
    ensures Leads(s, ds + [d], Merged(s', d))
  {
    hide Legal, Rejected, Merged;
    RunIgnoresRest(s, ds, [d], |ds|);
  }

  lemma {:induction false} RunsJoin(s: Store, ds: seq<Delivery>, s': Store, more: seq<Delivery>, n: nat)
    requires Leads(s, ds, s') && n <= |more| && Run(s', more, n)
    ensures Leads(s, ds + more[..n], After(s', more, n))
  {
    hide Legal, Rejected, Merged, Leads;
    if n == 0 {
      assert ds + more[..0] == ds;
    } else {
      RunsJoin(s, ds, s', more, n - 1);
      OneMoreLeads(s, ds + more[..n - 1], After(s', more, n - 1), more[n - 1]);
      assert ds + more[..n - 1] + [more[n - 1]] == ds + more[..n];
    }
  }

  // In every reachable store all unique indexes hold.
  lemma {:induction false} RunKeepsInv(s: Store, ds: seq<Delivery>, n: nat)
    requires ResultInv(s) && n <= |ds| && Run(s, ds, n)
    ensures ResultInv(After(s, ds, n))
  {
    hide Merged, ResultInv, Legal, Rejected;
    if n > 0 {
      RunKeepsInv(s, ds, n - 1);
      MergedKeepsInv(After(s, ds, n - 1), ds[n - 1]);
    }
  }

  lemma ExtendsIsTransitive(a: Store, b: Store, c: Store)
    requires Extends(a, b) && Extends(b, c)
    ensures Extends(a, c)
  {
    hide Blank;
    forall i: nat | i < |a.rows|
      ensures Continues(a.rows[i], c.rows[i])
    {
      assert Continues(a.rows[i], b.rows[i]) && Continues(b.rows[i], c.rows[i]);
    }
  }

  // No row and no evidence is ever lost, the identifying columns of a row never change, and a
  // subject field changes at most once, from blank.
  lemma {:induction false} RunExtends(s: Store, ds: seq<Delivery>, m: nat, n: nat)
    requires ResultInv(s) && m <= n <= |ds| && Run(s, ds, n) && Run(s, ds, m)
    ensures Extends(After(s, ds, m), After(s, ds, n))
  {
    hide Merged, ResultInv, Legal, Rejected, Continues;
    if m < n {
      RunExtends(s, ds, m, n - 1);
      RunKeepsInv(s, ds, n - 1);
      MergedExtends(After(s, ds, n - 1), ds[n - 1]);
      ExtendsIsTransitive(After(s, ds, m), After(s, ds, n - 1), After(s, ds, n));
    } else {
      ExtendsIsReflexive(After(s, ds, m));
    }
  }

  lemma ExtendsIsReflexive(s: Store)
    ensures Extends(s, s)
  {
  }

  // ---------- Insert once ----------

  // A row that every later lookup of the same input is bound to find, or to be preceded by another
  predicate Identifies(r: Row, scope: Scope, lesson: Option<nat>, x: Incoming) {
    || MarkMatches(r, scope, x)
    || SourceKeyMatches(r, scope, x)
    || (x.markId == "" && x.sourceKey == "" && Unkeyed(r) && FingerprintMatches(r, scope, lesson, x))
  }

  predicate Known(s: Store, scope: Scope, lesson: Option<nat>, x: Incoming) {
    exists r :: r in s.rows && Identifies(r, scope, lesson, x)
  }

  lemma KnownIsFound(s: Store, d: Delivery)
    requires Legal(s, d) && Known(s, d.scope, d.lesson, d.incoming)
    ensures d.found.Some?
  {
  }

  lemma InsertMakesKnown(s: Store, d: Delivery)
    requires Legal(s, d) && d.found.None?
    ensures Known(Merged(s, d), d.scope, d.lesson, d.incoming)
  {
    var row := NewRow(d.scope, d.lesson, d.incoming);
    assert Merged(s, d).rows[|s.rows|] == row;
    assert row in Merged(s, d).rows && Identifies(row, d.scope, d.lesson, d.incoming);
  }

  // A patch leaves the mark, the key and, on a row without either, the fingerprint of the row alone.
  lemma PatchKeepsIdentity(s: Store, d: Delivery, scope: Scope, lesson: Option<nat>, x: Incoming)
    requires Legal(s, d) && d.found.Some? && Identifies(s.rows[d.found.value], scope, lesson, x)
    ensures Identifies(Written(s, d), scope, lesson, x)
  {
    hide Blank, LatestEndpoint, SourceEndpointPrecedence;
    var r := s.rows[d.found.value];
    if Unkeyed(r) {
      assert !MarkMatches(r, d.scope, d.incoming) && !SourceKeyMatches(r, d.scope, d.incoming);
      assert FingerprintMatches(r, d.scope, d.lesson, d.incoming);
    }
  }

  lemma KnownStaysKnown(s: Store, d: Delivery, scope: Scope, lesson: Option<nat>, x: Incoming)
    requires Legal(s, d) && Known(s, scope, lesson, x)
    ensures Known(Merged(s, d), scope, lesson, x)
  {
    var r :| r in s.rows && Identifies(r, scope, lesson, x);
    var i: nat :| i < |s.rows| && s.rows[i] == r;
    if d.found == Some(i) {
      PatchKeepsIdentity(s, d, scope, lesson, x);
    }
    hide Identifies, LatestEndpoint, Finds, WithEvidence;
    var rows := Merged(s, d).rows;
    assert rows[i] == if d.found == Some(i) then Written(s, d) else r;
    assert rows[i] in rows;
  }

  predicate SameInput(d: Delivery, e: Delivery) {
    d.scope == e.scope && d.lesson == e.lesson && d.incoming == e.incoming
  }

  lemma {:induction false} KnownAfterInsert(s: Store, ds: seq<Delivery>, i: nat, n: nat)
    requires i < n <= |ds| && Run(s, ds, n) && ds[i].found.None?
    ensures Known(After(s, ds, n), ds[i].scope, ds[i].lesson, ds[i].incoming)
  {
    hide Known, Legal, Rejected, Merged;
    if i == n - 1 {
      InsertMakesKnown(After(s, ds, i), ds[i]);
    } else {
      KnownAfterInsert(s, ds, i, n - 1);
      KnownStaysKnown(After(s, ds, n - 1), ds[n - 1], ds[i].scope, ds[i].lesson, ds[i].incoming);
    }
  }

  // The same incoming result for the same lesson, student and provider is inserted at most once,
  // whatever is delivered in between.
  lemma InsertedAtMostOnce(s: Store, ds: seq<Delivery>, i: nat, j: nat)
    requires i < j < |ds| && Run(s, ds, j + 1)
    requires SameInput(ds[i], ds[j]) && ds[i].found.None?
    ensures ds[j].found.Some?
  {
    KnownAfterInsert(s, ds, i, j);
    KnownIsFound(After(s, ds, j), ds[j]);
  }

  function InputOf(d: Delivery): (Scope, Option<nat>, Incoming) {
    (d.scope, d.lesson, d.incoming)
  }

  // The inputs among the first n deliveries, and those of them that were inserted
  function Inputs(ds: seq<Delivery>, n: nat): set<(Scope, Option<nat>, Incoming)>
    requires n <= |ds|
  {
    if n == 0 then {} else Inputs(ds, n - 1) + {InputOf(ds[n - 1])}
  }

  function InsertedInputs(ds: seq<Delivery>, n: nat): set<(Scope, Option<nat>, Incoming)>
    requires n <= |ds|
  {
    if n == 0 then {}
    else if ds[n - 1].found.None? then InsertedInputs(ds, n - 1) + {InputOf(ds[n - 1])}
    else InsertedInputs(ds, n - 1)
  }

  lemma {:induction false} InsertedInputsAreKnown(s: Store, ds: seq<Delivery>, n: nat, scope: Scope, lesson: Option<nat>, x: Incoming)
    requires n <= |ds| && Run(s, ds, n) && (scope, lesson, x) in InsertedInputs(ds, n)
    ensures Known(After(s, ds, n), scope, lesson, x)
  {
    hide Known, Legal, Rejected, Merged;
    var s' := After(s, ds, n - 1);
    if (scope, lesson, x) in InsertedInputs(ds, n - 1) {
      InsertedInputsAreKnown(s, ds, n - 1, scope, lesson, x);
      KnownStaysKnown(s', ds[n - 1], scope, lesson, x);
    } else {
      InsertMakesKnown(s', ds[n - 1]);
    }
  }

  lemma FreshInsert(s: Store, ds: seq<Delivery>, n: nat)
    requires 0 < n <= |ds| && Run(s, ds, n) && ds[n - 1].found.None?
    ensures InputOf(ds[n - 1]) !in InsertedInputs(ds, n - 1)
  {
    hide Known, Rejected, Merged;
    var d := ds[n - 1];
    if InputOf(d) in InsertedInputs(ds, n - 1) {
      InsertedInputsAreKnown(s, ds, n - 1, d.scope, d.lesson, d.incoming);
      KnownIsFound(After(s, ds, n - 1), d);
      assert false;
    }
  }

  lemma MergeGrowsRows(s: Store, d: Delivery)
    requires Legal(s, d)
    ensures |Merged(s, d).rows| == |s.rows| + if d.found.None? then 1 else 0
  {
  }

  lemma {:induction false} InsertedInputsAreInputs(ds: seq<Delivery>, n: nat)
    requires n <= |ds|
    ensures InsertedInputs(ds, n) <= Inputs(ds, n)
  {
    if n > 0 {
      InsertedInputsAreInputs(ds, n - 1);
    }
  }

  // One more inserted input per insert
  lemma InsertedInputsGrow(s: Store, ds: seq<Delivery>, n: nat)
    requires 0 < n <= |ds| && Run(s, ds, n)
    ensures |InsertedInputs(ds, n)| == |InsertedInputs(ds, n - 1)| + if ds[n - 1].found.None? then 1 else 0
  {
    if ds[n - 1].found.None? {
      FreshInsert(s, ds, n);
      hide Run, After;
      assert InsertedInputs(ds, n) == InsertedInputs(ds, n - 1) + {InputOf(ds[n - 1])};
    }
  }

  lemma {:induction false} RowsGrowByInsertedInputs(s: Store, ds: seq<Delivery>, n: nat)
    requires n <= |ds| && Run(s, ds, n)
    ensures |After(s, ds, n).rows| == |s.rows| + |InsertedInputs(ds, n)|
  {
    hide Legal, Rejected, Merged;
    if n > 0 {
      RowsGrowByInsertedInputs(s, ds, n - 1);
      MergeGrowsRows(After(s, ds, n - 1), ds[n - 1]);
      InsertedInputsGrow(s, ds, n);
    }
  }

  // Rows grow by exactly one per input inserted, so replays never add more rows than there are
  // distinct inputs.
  lemma RowsGrowByDistinctInputs(s: Store, ds: seq<Delivery>, n: nat)
    requires n <= |ds| && Run(s, ds, n)
    ensures |After(s, ds, n).rows| == |s.rows| + |InsertedInputs(ds, n)| <= |s.rows| + |Inputs(ds, n)|
  {
    hide Run, After, Inputs, InsertedInputs;
    RowsGrowByInsertedInputs(s, ds, n);
    InsertedInputsAreInputs(ds, n);
    SubsetIsNoLarger(InsertedInputs(ds, n), Inputs(ds, n));
  }

  lemma {:induction false} SubsetIsNoLarger<T>(a: set<T>, b: set<T>)
    requires a <= b
    ensures |a| <= |b|
    decreases |a|
  {
    if x :| x in a {
      SubsetIsNoLarger(a - {x}, b - {x});
    }
  }

  // ---------- Primary identity ----------

  datatype Identity =
    | ByMark(scope: Scope, markId: string)
    | BySourceKey(scope: Scope, sourceKey: string)
    | ByRegular(scope: Scope, subjectId: string, workId: string, valueText: string, recordedOn: string, lesson: Option<nat>)
    | BySummative(scope: Scope, kind: string, subjectId: string, workId: string, termNo: int, valueText: string, recordedOn: string)

  function PrimaryIdentity(r: Row): Identity {
    if r.markId != "" then ByMark(r.scope, r.markId)
    else if r.sourceKey != "" then BySourceKey(r.scope, r.sourceKey)
    else if r.kind == REGULAR then ByRegular(r.scope, r.subjectId, r.workId, r.valueText, r.recordedOn, r.lesson)
    else BySummative(r.scope, r.kind, r.subjectId, r.workId, Coalesce(r.termNo), r.valueText, r.recordedOn)
  }

  // Mark, else source key, else fingerprint tells the rows of a store with the invariant apart.
  lemma PrimaryIdentityIsInjective(s: Store, i: nat, j: nat)
    requires ResultInv(s) && i < j < |s.rows|
    ensures PrimaryIdentity(s.rows[i]) != PrimaryIdentity(s.rows[j])
  {
    hide EvidenceUnique, Blank, Unpadded;
    assert !Conflict(s.rows[i], s.rows[j]);
    assert s.rows[i] in s.rows && s.rows[j] in s.rows;
  }
}
