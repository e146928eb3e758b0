/** Attendance events of a v1 bundle: normal form, deduplication with the last event winning, and order. */
module Attendance {
  import opened Wrappers
  import opened Text
  import opened KeyedFold
  import opened StableSort

  datatype Event = Event(sourceEventKey: string, date: string, code: string, reason: string)

  function NormalEvent(e: Event): Event {
    Event(Trim(e.sourceEventKey), Trim(e.date), Fold(e.code), Trim(e.reason))
  }

  function EventKey(e: Event): string {
    var key := Trim(e.sourceEventKey);
    if key == "" then e.date + "|" + Lower(e.code) + "|" + Lower(Trim(e.reason)) else key
  }

  function Keyed(items: seq<Event>): (es: seq<Entry<Event>>)
    ensures |es| == |items|
    ensures forall i :: 0 <= i < |items| ==> es[i] == Entry(Some(EventKey(items[i])), items[i])
  {
    seq(|items|, i requires 0 <= i < |items| => Entry(Some(EventKey(items[i])), items[i]))
  }

  function Deduplicated(items: seq<Event>): seq<Event> {
    Values(PutAll([], Keyed(items), Last))
  }

  predicate KeysDistinct(items: seq<Event>) {
    forall i: nat, j: nat :: i < j < |items| ==> EventKey(items[i]) != EventKey(items[j])
  }

  method DeduplicateAttendance(items: seq<Event>) returns (out: seq<Event>)
    ensures out == Deduplicated(items)
  {
    hide Trim, Lower;
    if |items| <= 1 {
      DistinctIsFixed(items);
      return items;
    }
    var byKey: map<string, Event> := map[];
    var order: seq<string> := [];
    ghost var filed: seq<Entry<Event>> := [];
    assert filed == PutAll([], Keyed(items[..0]), Last) by {
      assert items[..0] == [];
    }
    hide Put, PutAll, Represents, Distinct;
    EmptyTable<Event>();
    for index := 0 to |items|
      invariant filed == PutAll([], Keyed(items[..index]), Last)
      invariant Distinct(filed) && Represents(byKey, order, filed)
    {
      var event := items[index];
      var key := Trim(event.sourceEventKey);
      if key == "" {
        key := event.date + "|" + Lower(event.code) + "|" + Lower(Trim(event.reason));
      }
      assert key == EventKey(event);
      assert Keyed(items[..index + 1]) == Keyed(items[..index]) + [Entry(Some(key), event)];
      PutAllNext([], Keyed(items[..index]), Entry(Some(key), event), Last);
      PutInMap(byKey, order, filed, key, event, Last);
      filed := Put(filed, Entry(Some(key), event), Last);
      if key !in byKey {
        order := order + [key];
      }
      byKey := byKey[key := event];
    }
    assert items[..|items|] == items;
    out := Listed(byKey, order, filed);
  }

  // Events with keys of their own are told apart by them; events without are told apart by day, code and
  // reason, whatever their case and padding.
  lemma EventKeysTellApart(a: Event, b: Event)
    ensures Trim(a.sourceEventKey) != "" && Trim(b.sourceEventKey) != "" ==>
              (EventKey(a) == EventKey(b) <==> Trim(a.sourceEventKey) == Trim(b.sourceEventKey))
    ensures Trim(a.sourceEventKey) == "" && Trim(b.sourceEventKey) == ""
            && Without('|', a.date) && Without('|', b.date) && Without('|', Lower(a.code)) && Without('|', Lower(b.code)) ==>
              (EventKey(a) == EventKey(b) <==>
               a.date == b.date && Lower(a.code) == Lower(b.code) && Fold(a.reason) == Fold(b.reason))
  {
    hide Trim, Lower, Without;
    if Trim(a.sourceEventKey) == "" && Trim(b.sourceEventKey) == "" && EventKey(a) == EventKey(b)
       && Without('|', a.date) && Without('|', b.date) && Without('|', Lower(a.code)) && Without('|', Lower(b.code)) {
      var s, t := (Lower(a.code) + "|") + Fold(a.reason), (Lower(b.code) + "|") + Fold(b.reason);
      assert EventKey(a) == (a.date + "|") + s && EventKey(b) == (b.date + "|") + t;
      DelimitedIsInjective('|', a.date, s, b.date, t);
      DelimitedIsInjective('|', Lower(a.code), Fold(a.reason), Lower(b.code), Fold(b.reason));
    }
  }

  lemma DistinctIsFixed(items: seq<Event>)
    requires KeysDistinct(items)
    ensures Deduplicated(items) == items
  {
    hide EventKey;
    assert [] + Keyed(items) == Keyed(items);
    PutAllOfFresh([], Keyed(items), Last);
  }

  lemma DeduplicatedEvents(items: seq<Event>)
    ensures KeysDistinct(Deduplicated(items))
    ensures Keyed(Deduplicated(items)) == PutAll([], Keyed(items), Last)
    ensures forall i: nat :: i < |Deduplicated(items)| ==> Deduplicated(items)[i] in items
  {
    var out := PutAll([], Keyed(items), Last);
    PutAllKeepsDistinct([], Keyed(items), Last);
    LastIsFromTheList(Keyed(items));
    hide PutAll, EventKey;
    forall i: nat | i < |out|
      ensures out[i].key == Some(EventKey(out[i].value)) && out[i].value in items
    {
      assert out[i] in out;
    }
  }

  // The event kept for a key is the last one delivered with it.
  lemma {:induction false} LastEventWins(items: seq<Event>, k: nat)
    requires k < |items| && forall j: nat :: k < j < |items| ==> EventKey(items[j]) != EventKey(items[k])
    ensures items[k] in Deduplicated(items)
  {
    var key := EventKey(items[k]);
    hide EventKey;
    LastOfItsKey(Keyed(items), k);
    PutAllMergesEachKey(Keyed(items), key, Last);
    hide PutAll, AllMerged;
    var out := PutAll([], Keyed(items), Last);
    var i: nat :| i < |out| && out[i] == Entry(Some(key), items[k]);
    assert Deduplicated(items)[i] == items[k];
  }

  lemma {:induction false} LastOfItsKey(es: seq<Entry<Event>>, k: nat)
    requires k < |es| && es[k].key.Some? && forall j: nat :: k < j < |es| ==> es[j].key != es[k].key
    ensures AllMerged(es, es[k].key.value, Last) == Some(es[k].value)
  {
    var n := |es| - 1;
    if k < n {
      LastOfItsKey(es[..n], k);
    }
  }

  predicate AnyEvent(e: Event) {
    true
  }

  lemma KeyedSplits(xs: seq<Event>, ys: seq<Event>)
    ensures Keyed(xs + ys) == Keyed(xs) + Keyed(ys)
  {
  }

  lemma DeduplicationIsPiecewise(xs: seq<Event>, ys: seq<Event>)
    ensures Deduplicated(xs + ys) == Deduplicated(Deduplicated(xs) + Deduplicated(ys))
  {
    assert Associative<Event>(Last, AnyEvent) && AllOk(Keyed(xs), AnyEvent) && AllOk(Keyed(ys), AnyEvent);
    hide PutAll, AllOk, Associative, KeysDistinct, Keyed, Values;
    DeduplicatedEvents(xs);
    DeduplicatedEvents(ys);
    PutAllOfConcatenation(Keyed(xs), Keyed(ys), Last, AnyEvent);
    KeyedSplits(xs, ys);
    KeyedSplits(Deduplicated(xs), Deduplicated(ys));
  }

  lemma NormalEventIsIdempotent(e: Event)
    ensures NormalEvent(NormalEvent(e)) == NormalEvent(e)
  {
    FoldIsIdempotent(e.code);
    TrimFixesExactlyUnpadded(Trim(e.sourceEventKey));
    TrimFixesExactlyUnpadded(Trim(e.date));
    TrimFixesExactlyUnpadded(Trim(e.reason));
    hide Trim, Fold, Unpadded;
  }

  // The order of sortAttendance
  predicate Before(a: Event, b: Event) {
    if a.date != b.date then Less(a.date, b.date)
    else if a.code != b.code then Less(a.code, b.code)
    else Less(a.sourceEventKey, b.sourceEventKey)
  }

  lemma BeforeIsAnOrder()
    ensures StrictWeakOrder(Before)
  {
    hide Less;
    forall a, b | Before(a, b)
      ensures !Before(b, a)
    {
      LessIsStrictTotalOrder(a.date, b.date, b.date);
      LessIsStrictTotalOrder(a.code, b.code, b.code);
      LessIsStrictTotalOrder(a.sourceEventKey, b.sourceEventKey, b.sourceEventKey);
    }
    forall a, b, c | !Before(a, b) && !Before(b, c)
      ensures !Before(a, c)
    {
      NotBeforeIsTransitive(a, b, c);
    }
  }

  lemma NotLessIsTransitive(a: string, b: string, c: string)
    ensures !Less(a, b) && !Less(b, c) ==> !Less(a, c)
    ensures Less(b, a) || Less(a, b) || a == b
    ensures !Less(a, b) && !Less(b, c) && a == c ==> a == b
  {
    hide Less;
    LessIsStrictTotalOrder(a, b, c);
    LessIsStrictTotalOrder(c, b, a);
    LessIsStrictTotalOrder(a, c, c);
  }

  lemma NotBeforeIsTransitive(a: Event, b: Event, c: Event)
    requires !Before(a, b) && !Before(b, c)
    ensures !Before(a, c)
  {
    hide Less;
    NotLessIsTransitive(a.date, b.date, c.date);
    NotLessIsTransitive(a.code, b.code, c.code);
    NotLessIsTransitive(a.sourceEventKey, b.sourceEventKey, c.sourceEventKey);
  }

  lemma TiesShareTheKey(a: Event, b: Event)
    requires Tied(a, b, Before)
    ensures a.sourceEventKey == b.sourceEventKey
  {
    hide Less;
    LessIsStrictTotalOrder(a.date, b.date, b.date);
    LessIsStrictTotalOrder(a.code, b.code, b.code);
    LessIsStrictTotalOrder(a.sourceEventKey, b.sourceEventKey, b.sourceEventKey);
  }
}
