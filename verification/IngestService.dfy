/**
 The ingest service: one call normalises and validates a bundle, creates the batch of its idempotency
 key, merges the bundle and marks the batch. Generic in the bundle and the store, for both contract
 versions share the batch table and this sequence of steps.
 */
module IngestService {
  import opened Wrappers
  import opened Batches

  // What one contract version does with a bundle; a merge that yields no store is aborted.
  datatype Contract<!B, !S> = Contract(
    normal: B -> B, acceptable: B -> bool, key: B -> string, checksum: B -> string, merge: (S, string, B) -> Option<S>)

  datatype Answer = Rejected | Answered(reply: Reply)

  datatype State<S> = State(batches: seq<Batch>, store: S)

  // Whether each of the three statements takes effect and whether its caller learns that it did
  datatype Weather = Weather(
    createStored: bool, createAcknowledged: bool, mergeCommitted: bool, mergeAcknowledged: bool,
    markStored: bool, markAcknowledged: bool)

  predicate Possible(w: Weather) {
    && (w.createAcknowledged ==> w.createStored)
    && (w.mergeAcknowledged ==> w.mergeCommitted)
    && (w.markAcknowledged ==> w.markStored)
  }

  const CALM := Weather(true, true, true, true, true, true)

  function Marked(batches: seq<Batch>, b: nat): seq<Batch>
    requires b < |batches|
  {
    batches[b := batches[b].(status := BatchMerged)]
  }

  // What is left of a call once its batch exists
  function Finished<B, S>(c: Contract<B, S>, s: State<S>, student: string, n: B, b: nat, w: Weather): (State<S>, Reply)
    requires b < |s.batches|
  {
    var merged := c.merge(s.store, student, n);
    var stored := if merged.Some? && w.mergeCommitted then s.(store := merged.value) else s;
    if merged.None? || !w.mergeAcknowledged then (stored, Internal)
    else
      var marked := if w.markStored then stored.(batches := Marked(s.batches, b)) else stored;
      (marked, if w.markAcknowledged then Success(b) else Internal)
  }

  // A whole call, from the state it finds to the state it leaves and its answer
  function Ingested<B, S>(c: Contract<B, S>, s: State<S>, student: string, bundle: B, w: Weather): (State<S>, Answer) {
    var n := c.normal(bundle);
    if !c.acceptable(n) then (s, Rejected)
    else
      var found := FindBatch(s.batches, student, c.key(n));
      if found.None? then
        var created := if w.createStored then s.(batches := s.batches + [Batch(student, c.key(n), c.checksum(n), BatchAccepted)]) else s;
        if !w.createStored || !w.createAcknowledged then (created, Answered(Internal))
        else
          var (done, reply) := Finished(c, created, student, n, |s.batches|, w);
          (done, Answered(reply))
      else if !w.createAcknowledged then (s, Answered(Internal))
      else if s.batches[found.value].checksum != c.checksum(n) then (s, Answered(Conflict))
      else (s, Answered(AlreadyProcessed(found.value)))
  }

  datatype Creation = Inserted(batch: nat) | Existing(batch: nat) | Conflicting | CreationFailed

  // The repository's batch table and the tables behind the merge
  class Service<B(==), S> {
    const contract: Contract<B, S>
    var batches: seq<Batch>
    var store: S

    constructor (contract: Contract<B, S>, store: S)
      ensures this.contract == contract && Now() == State([], store)
    {
      this.contract := contract;
      this.store := store;
      batches := [];
    }

    function Now(): State<S>
      reads this
    {
      State(batches, store)
    }

    // CreateBatch and CreateBatchV2: insert unless the key is taken, else compare checksums
    method CreateBatch(student: string, key: string, checksum: string, stored: bool, acknowledged: bool) returns (r: Creation)
      requires acknowledged ==> stored
      modifies this`batches
      ensures
        var found := FindBatch(old(batches), student, key);
        && (found.None? && stored ==> batches == old(batches) + [Batch(student, key, checksum, BatchAccepted)])
        && (found.Some? || !stored ==> batches == old(batches))
        && (!acknowledged ==> r == CreationFailed)
        && (acknowledged && found.None? ==> r == Inserted(|old(batches)|))
        && (acknowledged && found.Some? ==>
              r == if old(batches)[found.value].checksum == checksum then Existing(found.value) else Conflicting)
    {
      var existing: Option<nat> := None;
      for i := 0 to |batches|
        invariant existing == FindBatch(batches[..i], student, key)
      {
        assert batches[..i + 1][..i] == batches[..i];
        if batches[i].student == student && batches[i].key == key {
          existing := Some(i);
        }
      }
      assert batches[..|batches|] == batches;
      if existing.None? {
        if stored {
          batches := batches + [Batch(student, key, checksum, BatchAccepted)];
        }
        r := if acknowledged then Inserted(|batches| - 1) else CreationFailed;
      } else if !acknowledged {
        r := CreationFailed;
      } else if batches[existing.value].checksum != checksum {
        r := Conflicting;
      } else {
        r := Existing(existing.value);
      }
    }

    method Merge(student: string, n: B, committed: bool, acknowledged: bool) returns (ok: bool)
      modifies this`store
      ensures
        var merged := contract.merge(old(store), student, n);
        && store == (if merged.Some? && committed then merged.value else old(store))
        && (ok <==> merged.Some? && acknowledged)
    {
      var merged := contract.merge(store, student, n);
      if merged.Some? && committed {
        store := merged.value;
      }
      ok := merged.Some? && acknowledged;
    }

    method MarkMerged(b: nat, stored: bool, acknowledged: bool) returns (ok: bool)
      requires b < |batches|
      modifies this`batches
      ensures batches == (if stored then Marked(old(batches), b) else old(batches))
      ensures ok == acknowledged
    {
      if stored {
        batches := batches[b := batches[b].(status := BatchMerged)];
      }
      ok := acknowledged;
    }

    // IngestBundle and IngestBundleV2
    method IngestBundle(student: string, bundle: B, w: Weather) returns (answer: Answer)
      requires Possible(w)
      modifies this`batches, this`store
      ensures (Now(), answer) == Ingested(contract, old(Now()), student, bundle, w)
    {
      var n := contract.normal(bundle);
      if !contract.acceptable(n) {
        return Rejected;
      }
      var creation := CreateBatch(student, contract.key(n), contract.checksum(n), w.createStored, w.createAcknowledged);
      match creation {
        case CreationFailed => return Answered(Internal);
        case Conflicting => return Answered(Conflict);
        case Existing(b) => return Answered(AlreadyProcessed(b));
        case Inserted(b) =>
          var merged := Merge(student, n, w.mergeCommitted, w.mergeAcknowledged);
          if !merged {
            return Answered(Internal);
          }
          var marked := MarkMerged(b, w.markStored, w.markAcknowledged);
          answer := Answered(if marked then Success(b) else Internal);
      }
    }
  }

  // ---------- A call is a path of the protocol ----------

  // The steps of call c of the protocol under the weather, for a bundle whose merge aborts or not
  function Served(s: System, c: nat, mergeable: bool, w: Weather): (s': System)
    requires c < |s.calls| && s.calls[c].pc == Start && Possible(w)
  {
    var s1 := Step(s, Event.CreateBatch(c, w.createStored, w.createAcknowledged));
    if !s1.calls[c].pc.Created? then s1
    else
      var s2 := Step(s1, Event.MergeBundle(c, mergeable && w.mergeCommitted, mergeable && w.mergeAcknowledged));
      if !s2.calls[c].pc.Committed? then s2
      else Step(s2, Event.MarkMerged(c, w.markStored, w.markAcknowledged))
  }

  // An ingest call is a path of legal steps of the protocol: the same batches, the same reply, and one
  // more committed merge exactly when the store took one.
  lemma IngestIsAPath<B, S>(c: Contract<B, S>, t: State<S>, student: string, bundle: B, w: Weather, s: System, call: nat)
    requires Possible(w) && call < |s.calls| && s.calls[call].pc == Start && s.batches == t.batches
    requires c.acceptable(c.normal(bundle))
    requires s.calls[call].request == Request(student, c.key(c.normal(bundle)), c.checksum(c.normal(bundle)))
    ensures
      var merged := c.merge(t.store, student, c.normal(bundle));
      var (t', answer) := Ingested(c, t, student, bundle, w);
      var s' := Served(s, call, merged.Some?, w);
      && answer.Answered? && s'.calls[call].pc == Done(answer.reply)
      && s'.batches == t'.batches
      && t'.store == (if s'.merges == s.merges then t.store else merged.value)
      && (s'.merges == s.merges || (merged.Some? && s'.merges == s.merges + [call]))
  {
    hide FindBatch;
  }
}
