/** The v1 normal form inside the ingest service: redelivering a bundle in another order is not a conflict. */
module V1Ingest {
  import opened Wrappers
  import Batches
  import opened IngestService
  import opened SequentialIngest
  import opened Normaliser
  import opened NormalForm
  import Lessons

  // The contract normalises as the v1 normaliser does, whatever order it visits the source ids in.
  ghost predicate NormalisesAsV1<S>(c: Contract<Bundle, S>, digest: string -> string) {
    forall b :: Normalises(b, c.normal(b), digest)
  }

  // The second bundle is the first with its lessons and its attendance in another order.
  ghost predicate Reordered(b: Bundle, b': Bundle, digest: string -> string) {
    && b' == b.(lessons := b'.lessons, attendance := b'.attendance)
    && multiset(b'.lessons) == multiset(b.lessons) && multiset(b'.attendance) == multiset(b.attendance)
    && Lessons.KeysDistinct(EachLesson(b.lessons, digest)) && DistinctOwnKeys(b.attendance)
    && Consistent(b.sourceIds)
  }

  lemma ReorderedNormalisesTheSame<S>(c: Contract<Bundle, S>, b: Bundle, b': Bundle, digest: string -> string)
    requires NormalisesAsV1(c, digest) && Reordered(b, b', digest)
    ensures c.normal(b') == c.normal(b)
  {
    hide Normalises, DistinctOwnKeys, Lessons.KeysDistinct, EachLesson, Consistent;
    OrderDoesNotMatter(b, b', c.normal(b), digest);
    OneNormalFormExactly(b', digest);
    assert Normalises(b', c.normal(b'), digest);
  }

  // A delivery equal to the one that opened its key is answered "already processed".
  lemma EqualNormalIsProcessed<S>(
      c: Contract<Bundle, S>, store: S, ds: seq<Delivery<Bundle>>, i: nat, n: nat, answer: Answer)
    requires i < n < |ds| && Opens(c, ds, i) && ds[n].student == ds[i].student
    requires Normal(c, ds, n) == Normal(c, ds, i) && RuleAnswer(c, store, ds, n, answer)
    ensures answer == Answered(Batches.AlreadyProcessed(Opened(c, ds, i))) && !Opens(c, ds, n)
  {
    hide Opened, RuleStore;
    assert Valid(c, ds, i) && SameKey(c, ds, i, n);
    OneFirst(c, ds, i, n);
  }

  lemma StoreStays<S>(c: Contract<Bundle, S>, store: S, ds: seq<Delivery<Bundle>>, n: nat)
    requires n < |ds| && Injective(c.checksum) && !Opens(c, ds, n)
    ensures After(c, store, ds, n + 1).store == After(c, store, ds, n).store
  {
    hide After, Opens, Injective, Opened;
    ServiceRefinesTheRule(c, store, ds, n + 1);
    ServiceRefinesTheRule(c, store, ds, n);
  }

  // A later delivery that reorders the one that opened its key is answered "already processed" and
  // leaves the store as it is.
  lemma ReorderedRedeliveryIsProcessed<S>(
      c: Contract<Bundle, S>, store: S, ds: seq<Delivery<Bundle>>, i: nat, n: nat, digest: string -> string)
    requires NormalisesAsV1(c, digest) && Injective(c.checksum)
    requires i < n < |ds| && Opens(c, ds, i)
    requires ds[n].student == ds[i].student && Reordered(ds[i].bundle, ds[n].bundle, digest)
    ensures AnswerTo(c, store, ds, n) == Answered(Batches.AlreadyProcessed(Opened(c, ds, i)))
    ensures After(c, store, ds, n + 1).store == After(c, store, ds, n).store
  {
    ReorderedNormalisesTheSame(c, ds[i].bundle, ds[n].bundle, digest);
    assert Normal(c, ds, n) == Normal(c, ds, i);
    hide Reordered, NormalisesAsV1, After, AnswerTo, Injective, RuleAnswer, Opens, Opened, Normal, RuleStore;
    ServiceRefinesTheRule(c, store, ds, n + 1);
    EqualNormalIsProcessed(c, store, ds, i, n, AnswerTo(c, store, ds, n));
    StoreStays(c, store, ds, n);
  }

  // Only the delivery that opens a key is first for it.
  lemma OneFirst<S>(c: Contract<Bundle, S>, ds: seq<Delivery<Bundle>>, i: nat, n: nat)
    requires i < n < |ds| && Opens(c, ds, i) && SameKey(c, ds, i, n)
    ensures forall k: nat :: k < n && IsFirst(c, ds, k, n) ==> k == i
  {
    forall k: nat | k < n && IsFirst(c, ds, k, n)
      ensures k == i
    {
      assert !(i < k);
      assert k < i ==> SameKey(c, ds, k, i);
    }
  }
}
