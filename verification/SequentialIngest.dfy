/**
 Deliveries ingested one after another without faults, against the simple rule: the first valid delivery
 under a student and key is merged, later equal ones are already processed, different ones conflict.
 */
module SequentialIngest {
  import opened Wrappers
  import opened Batches
  import opened IngestService

  datatype Delivery<B> = Delivery(student: string, bundle: B)

  // ---------- The service, delivery by delivery ----------

  function After<B, S>(c: Contract<B, S>, store: S, ds: seq<Delivery<B>>, n: nat): State<S>
    requires n <= |ds|
  {
    if n == 0 then State([], store)
    else Ingested(c, After(c, store, ds, n - 1), ds[n - 1].student, ds[n - 1].bundle, CALM).0
  }

  function AnswerTo<B, S>(c: Contract<B, S>, store: S, ds: seq<Delivery<B>>, n: nat): Answer
    requires n < |ds|
  {
    Ingested(c, After(c, store, ds, n), ds[n].student, ds[n].bundle, CALM).1
  }

  // ---------- The rule, from the history alone ----------

  function Normal<B, S>(c: Contract<B, S>, ds: seq<Delivery<B>>, i: nat): B
    requires i < |ds|
  {
    c.normal(ds[i].bundle)
  }

  predicate Valid<B, S>(c: Contract<B, S>, ds: seq<Delivery<B>>, i: nat)
    requires i < |ds|
  {
    c.acceptable(Normal(c, ds, i))
  }

  predicate SameKey<B, S>(c: Contract<B, S>, ds: seq<Delivery<B>>, i: nat, j: nat)
    requires i < |ds| && j < |ds|
  {
    ds[i].student == ds[j].student && c.key(Normal(c, ds, i)) == c.key(Normal(c, ds, j))
  }

  // The valid delivery below the bound with the key of delivery n, the first of its kind
  ghost predicate IsFirst<B, S>(c: Contract<B, S>, ds: seq<Delivery<B>>, i: nat, n: nat)
    requires n < |ds| && i <= n
  {
    Valid(c, ds, i) && SameKey(c, ds, i, n) && forall j: nat :: j < i && Valid(c, ds, j) ==> !SameKey(c, ds, j, n)
  }

  // Delivery n opens its key.
  ghost predicate Opens<B, S>(c: Contract<B, S>, ds: seq<Delivery<B>>, n: nat)
    requires n < |ds|
  {
    IsFirst(c, ds, n, n)
  }

  // Keys opened so far, which number the batches
  ghost function Opened<B, S>(c: Contract<B, S>, ds: seq<Delivery<B>>, n: nat): nat
    requires n <= |ds|
  {
    if n == 0 then 0 else Opened(c, ds, n - 1) + if Opens(c, ds, n - 1) then 1 else 0
  }

  // The store after merging the opening deliveries and no others; an aborted merge leaves no trace
  ghost function RuleStore<B, S>(c: Contract<B, S>, store: S, ds: seq<Delivery<B>>, n: nat): S
    requires n <= |ds|
  {
    if n == 0 then store
    else
      var before := RuleStore(c, store, ds, n - 1);
      if !Opens(c, ds, n - 1) then before
      else
        var merged := c.merge(before, ds[n - 1].student, Normal(c, ds, n - 1));
        if merged.Some? then merged.value else before
  }

  ghost predicate RuleAnswer<B, S>(c: Contract<B, S>, store: S, ds: seq<Delivery<B>>, n: nat, answer: Answer)
    requires n < |ds|
  {
    if !Valid(c, ds, n) then answer == Rejected
    else if Opens(c, ds, n) then
      answer == Answered(
        if c.merge(RuleStore(c, store, ds, n), ds[n].student, Normal(c, ds, n)).Some? then Success(Opened(c, ds, n))
        else Internal)
    else
      exists i: nat :: i < n && IsFirst(c, ds, i, n)
        && answer == Answered(if Normal(c, ds, i) == Normal(c, ds, n) then AlreadyProcessed(Opened(c, ds, i)) else Conflict)
  }

  ghost predicate Injective<B(!new)>(checksum: B -> string) {
    forall a, b :: checksum(a) == checksum(b) ==> a == b
  }

  // ---------- The batch table remembers the openings ----------

  ghost predicate BatchOf<B, S>(c: Contract<B, S>, ds: seq<Delivery<B>>, i: nat, b: Batch)
    requires i < |ds|
  {
    && b.student == ds[i].student && b.key == c.key(Normal(c, ds, i))
    && b.checksum == c.checksum(Normal(c, ds, i))
  }

  // Batch b was created by the delivery that opened the b-th key.
  ghost predicate Remembers<B, S>(c: Contract<B, S>, ds: seq<Delivery<B>>, n: nat, batches: seq<Batch>)
    requires n <= |ds|
  {
    && |batches| == Opened(c, ds, n)
    && (forall b: nat :: b < |batches| ==> HasOpening(c, ds, n, b, batches[b]))
    && (forall i: nat :: i < n && Opens(c, ds, i) ==>
          Opened(c, ds, i) < |batches| && BatchOf(c, ds, i, batches[Opened(c, ds, i)]))
  }

  ghost predicate HasOpening<B, S>(c: Contract<B, S>, ds: seq<Delivery<B>>, n: nat, b: nat, batch: Batch)
    requires n <= |ds|
  {
    exists i: nat :: i < n && Opens(c, ds, i) && Opened(c, ds, i) == b && BatchOf(c, ds, i, batch)
  }

  // A first delivery exists wherever some valid one does.
  lemma {:induction false} FirstExists<B, S>(c: Contract<B, S>, ds: seq<Delivery<B>>, j: nat, n: nat) returns (i: nat)
    requires n < |ds| && j <= n && Valid(c, ds, j) && SameKey(c, ds, j, n)
    ensures i <= j && IsFirst(c, ds, i, n) && Opens(c, ds, i)
    decreases j
  {
    if k: nat :| k < j && Valid(c, ds, k) && SameKey(c, ds, k, n) {
      i := FirstExists(c, ds, k, n);
    } else {
      i := j;
    }
  }

  // The look-up finds the batch of the first delivery with the key, and none if there was none.
  lemma LookupFindsTheFirst<B, S>(c: Contract<B, S>, ds: seq<Delivery<B>>, n: nat, batches: seq<Batch>)
    requires n < |ds| && Remembers(c, ds, n, batches) && Valid(c, ds, n)
    ensures
      var found := FindBatch(batches, ds[n].student, c.key(Normal(c, ds, n)));
      && (found.None? <==> Opens(c, ds, n))
      && (found.Some? ==>
            exists i: nat :: i < n && IsFirst(c, ds, i, n) && Opened(c, ds, i) == found.value && BatchOf(c, ds, i, batches[found.value]))
  {
    var found := FindBatch(batches, ds[n].student, c.key(Normal(c, ds, n)));
    if !Opens(c, ds, n) {
      var i := FirstExists(c, ds, n, n);
      assert batches[Opened(c, ds, i)] in batches;
    }
    if found.Some? {
      assert HasOpening(c, ds, n, found.value, batches[found.value]);
      var i: nat :|
        i < n && Opens(c, ds, i) && Opened(c, ds, i) == found.value && BatchOf(c, ds, i, batches[found.value]);
      assert IsFirst(c, ds, i, n);
    }
  }

  lemma {:induction false} OpenedGrows<B, S>(c: Contract<B, S>, ds: seq<Delivery<B>>, i: nat, n: nat)
    requires i < n <= |ds| && Opens(c, ds, i)
    ensures Opened(c, ds, i) < Opened(c, ds, n)
  {
    hide Opens;
    if i < n - 1 {
      OpenedGrows(c, ds, i, n - 1);
    }
  }

  // The new batch is remembered together with the old ones, whatever its status.
  lemma OpeningIsRemembered<B, S>(c: Contract<B, S>, ds: seq<Delivery<B>>, n: nat, batches: seq<Batch>, batches': seq<Batch>)
    requires n < |ds| && Remembers(c, ds, n, batches) && Opens(c, ds, n)
    requires |batches'| == |batches| + 1 && batches'[..|batches|] == batches && BatchOf(c, ds, n, batches'[|batches|])
    ensures Remembers(c, ds, n + 1, batches')
  {
    hide Opens, BatchOf;
    assert forall b: nat :: b < |batches| ==> batches'[b] == batches'[..|batches|][b];
    forall b: nat | b < |batches'|
      ensures HasOpening(c, ds, n + 1, b, batches'[b])
    {
      if b < |batches| {
        assert HasOpening(c, ds, n, b, batches[b]);
      }
    }
  }

  lemma NothingOpened<B, S>(c: Contract<B, S>, ds: seq<Delivery<B>>, n: nat, batches: seq<Batch>)
    requires n < |ds| && Remembers(c, ds, n, batches) && !Opens(c, ds, n)
    ensures Remembers(c, ds, n + 1, batches)
  {
    hide Opens, BatchOf;
    forall b: nat | b < |batches|
      ensures HasOpening(c, ds, n + 1, b, batches[b])
    {
      assert HasOpening(c, ds, n, b, batches[b]);
    }
  }

  // One delivery: the table keeps remembering, the store follows the rule and so does the answer.
  lemma DeliveryFollowsTheRule<B(!new), S>(c: Contract<B, S>, store: S, ds: seq<Delivery<B>>, n: nat)
    requires n < |ds| && Injective(c.checksum)
    requires Remembers(c, ds, n, After(c, store, ds, n).batches) && After(c, store, ds, n).store == RuleStore(c, store, ds, n)
    ensures Remembers(c, ds, n + 1, After(c, store, ds, n + 1).batches)
    ensures After(c, store, ds, n + 1).store == RuleStore(c, store, ds, n + 1)
    ensures RuleAnswer(c, store, ds, n, AnswerTo(c, store, ds, n))
  {
    var s := After(c, store, ds, n);
    var s' := After(c, store, ds, n + 1);
    if !Valid(c, ds, n) {
      NothingOpened(c, ds, n, s.batches);
    } else {
      LookupFindsTheFirst(c, ds, n, s.batches);
      if Opens(c, ds, n) {
        OpeningIsRemembered(c, ds, n, s.batches, s'.batches);
      } else {
        NothingOpened(c, ds, n, s.batches);
      }
      hide FindBatch, Opens, IsFirst, Remembers, Opened;
    }
  }

  // The whole run: the final store and every answer are those of the rule.
  lemma {:induction false} ServiceRefinesTheRule<B(!new), S>(c: Contract<B, S>, store: S, ds: seq<Delivery<B>>, n: nat)
    requires n <= |ds| && Injective(c.checksum)
    ensures After(c, store, ds, n).store == RuleStore(c, store, ds, n)
    ensures Remembers(c, ds, n, After(c, store, ds, n).batches)
    ensures forall k: nat :: k < n ==> RuleAnswer(c, store, ds, k, AnswerTo(c, store, ds, k))
  {
    hide Remembers, After, RuleStore, RuleAnswer, AnswerTo;
    if n == 0 {
      NothingYet(c, store, ds);
    } else {
      ServiceRefinesTheRule(c, store, ds, n - 1);
      DeliveryFollowsTheRule(c, store, ds, n - 1);
    }
  }

  lemma NothingYet<B, S>(c: Contract<B, S>, store: S, ds: seq<Delivery<B>>)
    ensures After(c, store, ds, 0).store == RuleStore(c, store, ds, 0)
    ensures Remembers(c, ds, 0, After(c, store, ds, 0).batches)
  {
  }
}
