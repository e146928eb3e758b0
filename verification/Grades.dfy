/**
 Grades of a v1 lesson: their normal form and their deduplication, which files grades without a key
 under a synthetic key made of their position.
 */
module Grades {
  import opened Wrappers
  import opened Text
  import opened KeyedFold

  datatype Grade = Grade(sourceGradeKey: string, value: string, mood: string, gradeType: string, isAbsent: bool)

  function NormalType(raw: string): string {
    if Lower(Trim(raw)) in {"regular", "absence", "behavior"} then Lower(Trim(raw)) else "regular"
  }

  function NormalGrade(g: Grade): Grade {
    Grade(Trim(g.sourceGradeKey), Trim(g.value), Trim(g.mood), NormalType(g.gradeType), g.isAbsent)
  }

  const SYNTHETIC := "index:"

  function SyntheticKey(index: nat, g: Grade): string {
    SYNTHETIC + Decimal(index) + ":" + Lower(Trim(g.gradeType)) + ":" + Trim(g.value)
  }

  function GradeKey(index: nat, g: Grade): string {
    var key := Trim(g.sourceGradeKey);
    if key == "" then SyntheticKey(index, g) else key
  }

  // The grades with a value, under their keys
  function Keyed(items: seq<Grade>): seq<Entry<Grade>> {
    if items == [] then []
    else
      var n := |items| - 1;
      Keyed(items[..n]) + if Blank(items[n].value) then [] else [Entry(Some(GradeKey(n, items[n])), items[n])]
  }

  function Deduplicated(items: seq<Grade>): seq<Grade> {
    if |items| <= 1 then items else Values(PutAll([], Keyed(items), Last))
  }

  // How a lesson's grades take in those of a later lesson with the same key
  function Combined(base: seq<Grade>, incoming: seq<Grade>): seq<Grade> {
    if incoming == [] then base else Deduplicated(base + incoming)
  }

  method DeduplicateGrades(items: seq<Grade>) returns (out: seq<Grade>)
    ensures out == Deduplicated(items)
  {
    if |items| <= 1 {
      return items;
    }
    var byKey: map<string, Grade> := map[];
    var order: seq<string> := [];
    ghost var filed: seq<Entry<Grade>> := [];
    assert filed == PutAll([], Keyed(items[..0]), Last) by {
      assert items[..0] == [];
    }
    hide Blank, GradeKey, Put, PutAll, Keyed, Represents, Distinct;
    EmptyTable<Grade>();
    for index := 0 to |items|
      invariant filed == PutAll([], Keyed(items[..index]), Last)
      invariant Distinct(filed) && Represents(byKey, order, filed)
    {
      KeyedNext(items, index);
      if !Blank(items[index].value) {
        var key := GradeKey(index, items[index]);
        PutAllNext([], Keyed(items[..index]), Entry(Some(key), items[index]), Last);
        PutInMap(byKey, order, filed, key, items[index], Last);
        if key !in byKey {
          order := order + [key];
        }
        byKey := byKey[key := items[index]];
        filed := Put(filed, Entry(Some(key), items[index]), Last);
      }
    }
    assert items[..|items|] == items;
    out := Listed(byKey, order, filed);
  }

  lemma KeyedNext(items: seq<Grade>, index: nat)
    requires index < |items|
    ensures Blank(items[index].value) ==> Keyed(items[..index + 1]) == Keyed(items[..index])
    ensures !Blank(items[index].value) ==>
              Keyed(items[..index + 1]) == Keyed(items[..index]) + [Entry(Some(GradeKey(index, items[index])), items[index])]
  {
    assert items[..index + 1][..index] == items[..index];
  }

  // ---------- Keys of their own and reserved keys ----------

  predicate HasOwnKey(g: Grade) {
    Trim(g.sourceGradeKey) != ""
  }

  predicate NoneBlank(items: seq<Grade>) {
    forall i: nat :: i < |items| ==> !Blank(items[i].value)
  }

  predicate OwnKeysDistinct(items: seq<Grade>) {
    forall i: nat, j: nat :: i < j < |items| && HasOwnKey(items[i]) && HasOwnKey(items[j]) ==>
      Trim(items[i].sourceGradeKey) != Trim(items[j].sourceGradeKey)
  }

  // No grade has a key of its own that looks synthetic.
  predicate NoReservedKeys(items: seq<Grade>) {
    forall i: nat :: i < |items| ==> !(SYNTHETIC <= Trim(items[i].sourceGradeKey))
  }

  // The synthetic key of some position is another grade's own key.
  ghost predicate Clash(items: seq<Grade>) {
    exists i: nat, j: nat :: i < |items| && j < |items| && Clashes(items, i, j)
  }

  predicate Clashes(items: seq<Grade>, i: nat, j: nat)
    requires i < |items| && j < |items|
  {
    !HasOwnKey(items[i]) && HasOwnKey(items[j]) && Trim(items[j].sourceGradeKey) == SyntheticKey(i, items[i])
  }

  // What deduplication settles: at most one grade, or grades with a value and distinct keys
  predicate Settled(items: seq<Grade>) {
    |items| <= 1 || (NoneBlank(items) && OwnKeysDistinct(items))
  }

  lemma SyntheticKeyShape(index: nat, g: Grade)
    ensures exists tail :: SyntheticKey(index, g) == SYNTHETIC + ((Decimal(index) + ":") + tail)
    ensures SYNTHETIC <= SyntheticKey(index, g)
  {
    hide Trim, Lower, Decimal;
    var tail := Lower(Trim(g.gradeType)) + ":" + Trim(g.value);
    assert SyntheticKey(index, g) == SYNTHETIC + ((Decimal(index) + ":") + tail);
  }

  lemma SyntheticKeysDiffer(i: nat, g: Grade, j: nat, h: Grade)
    requires i != j
    ensures SyntheticKey(i, g) != SyntheticKey(j, h)
  {
    hide SyntheticKey;
    SyntheticKeyShape(i, g);
    SyntheticKeyShape(j, h);
    var t :| SyntheticKey(i, g) == SYNTHETIC + ((Decimal(i) + ":") + t);
    var u :| SyntheticKey(j, h) == SYNTHETIC + ((Decimal(j) + ":") + u);
    DecimalIsInjective(i, j);
    DecimalIsPlain(i, ':');
    DecimalIsPlain(j, ':');
    hide Decimal;
    if SyntheticKey(i, g) == SyntheticKey(j, h) {
      assert (Decimal(i) + ":") + t == SyntheticKey(i, g)[|SYNTHETIC|..] == (Decimal(j) + ":") + u;
      DelimitedIsInjective(':', Decimal(i), t, Decimal(j), u);
    }
  }

  // ---------- Deduplicating once settles; deduplicating twice is harmless without a clash ----------

  // An entry deduplication files: a grade with a value, under its own key if it has one
  predicate Proper(e: Entry<Grade>) {
    !Blank(e.value.value) && e.key.Some? && (HasOwnKey(e.value) ==> e.key.value == Trim(e.value.sourceGradeKey))
  }

  lemma GradeKeyIsProper(index: nat, g: Grade)
    requires !Blank(g.value)
    ensures Proper(Entry(Some(GradeKey(index, g)), g))
  {
    hide Blank, Trim, SyntheticKey;
  }

  lemma {:induction false} KeyedEntries(items: seq<Grade>)
    ensures forall i: nat :: i < |Keyed(items)| ==> Proper(Keyed(items)[i]) && Keyed(items)[i].value in items
  {
    hide Blank, GradeKey, Proper;
    if items != [] {
      var n := |items| - 1;
      KeyedEntries(items[..n]);
      if !Blank(items[n].value) {
        GradeKeyIsProper(n, items[n]);
      }
      assert forall g :: g in items[..n] ==> g in items;
    }
  }

  lemma DeduplicatedIsSettled(items: seq<Grade>)
    ensures Settled(Deduplicated(items))
    ensures forall i: nat :: i < |Deduplicated(items)| ==> Deduplicated(items)[i] in items
    ensures |Deduplicated(items)| <= |items|
  {
    hide PutAll, Keyed, Proper, Distinct, NoneBlank, OwnKeysDistinct;
    if |items| > 1 {
      FiledIsProper(items);
      ProperIsSettled(PutAll([], Keyed(items), Last));
    }
  }

  lemma FiledIsProper(items: seq<Grade>)
    ensures
      var out := PutAll([], Keyed(items), Last);
      && Distinct(out) && |out| <= |items|
      && forall i: nat :: i < |out| ==> Proper(out[i]) && out[i].value in items
  {
    hide Keyed, PutAll, Proper, Distinct;
    var keyed := Keyed(items);
    var out := PutAll([], keyed, Last);
    assert Distinct<Grade>([]) by {
      EmptyTable<Grade>();
    }
    PutAllKeepsDistinct([], keyed, Last);
    FullPutAllIsDistinct(keyed, Last);
    KeyedIsNoLonger(items);
    LastIsFromTheList(keyed);
    KeyedEntries(items);
    forall i: nat | i < |out|
      ensures Proper(out[i]) && out[i].value in items
    {
      assert out[i] in out;
      var k: nat :| k < |keyed| && keyed[k] == out[i];
    }
  }

  lemma ProperIsSettled(out: seq<Entry<Grade>>)
    requires Distinct(out) && forall i: nat :: i < |out| ==> Proper(out[i])
    ensures NoneBlank(Values(out)) && OwnKeysDistinct(Values(out))
  {
    hide Blank, Trim;
  }

  lemma {:induction false} KeyedIsNoLonger(items: seq<Grade>)
    ensures |Keyed(items)| <= |items|
    ensures NoneBlank(items) ==> |Keyed(items)| == |items|
    ensures NoneBlank(items) ==> forall i: nat :: i < |items| ==> Keyed(items)[i] == Entry(Some(GradeKey(i, items[i])), items[i])
  {
    hide Blank, GradeKey;
    if items != [] {
      KeyedIsNoLonger(items[..|items| - 1]);
    }
  }

  ghost predicate KeysDistinct(items: seq<Grade>) {
    forall i: nat, j: nat :: i < j < |items| ==> GradeKey(i, items[i]) != GradeKey(j, items[j])
  }

  lemma KeysAreDistinctWithoutClash(items: seq<Grade>)
    requires OwnKeysDistinct(items)
    ensures KeysDistinct(items) <==> !Clash(items)
  {
    hide SyntheticKey, Trim;
    if Clash(items) {
      var i: nat, j: nat :| i < |items| && j < |items| && Clashes(items, i, j);
      assert GradeKey(i, items[i]) == GradeKey(j, items[j]);
    } else {
      forall i: nat, j: nat | i < j < |items|
        ensures GradeKey(i, items[i]) != GradeKey(j, items[j])
      {
        assert !Clashes(items, i, j) && !Clashes(items, j, i);
        SyntheticKeysDiffer(i, items[i], j, items[j]);
      }
    }
  }

  // On grades already settled, deduplication changes something exactly when a synthetic key clashes.
  lemma SettledIsFixedExactlyWithoutClash(items: seq<Grade>)
    requires Settled(items) && |items| > 1
    ensures Deduplicated(items) == items <==> !Clash(items)
  {
    KeysAreDistinctWithoutClash(items);
    if KeysDistinct(items) {
      DistinctKeysAreFixed(items);
    } else {
      RepeatedKeysShrink(items);
    }
    hide Deduplicated, Clash, KeysDistinct;
  }

  lemma DistinctKeysAreFixed(items: seq<Grade>)
    requires NoneBlank(items) && KeysDistinct(items)
    ensures Deduplicated(items) == items
  {
    var keyed := Keyed(items);
    KeyedIsNoLonger(items);
    hide NoneBlank, Keyed, GradeKey, PutAll;
    assert [] + keyed == keyed;
    PutAllOfFresh([], keyed, Last);
  }

  lemma RepeatedKeysShrink(items: seq<Grade>)
    requires NoneBlank(items) && !KeysDistinct(items)
    ensures |Deduplicated(items)| < |items|
  {
    var keyed := Keyed(items);
    KeyedIsNoLonger(items);
    hide NoneBlank, Keyed, GradeKey, PutAll;
    var i: nat, j: nat :| i < j < |items| && GradeKey(i, items[i]) == GradeKey(j, items[j]);
    assert keyed[i].key == keyed[j].key;
    FullPutAllIsDistinct(keyed, Last);
  }

  lemma NoReservedKeysNoClash(items: seq<Grade>)
    requires NoReservedKeys(items)
    ensures !Clash(items)
  {
    hide SyntheticKey;
    forall i: nat, j: nat | i < |items| && j < |items|
      ensures !Clashes(items, i, j)
    {
      SyntheticKeyShape(i, items[i]);
    }
  }

  // ---------- Keys without positions ----------

  // A grade under its own key, or under none
  function Own(g: Grade): (e: Entry<Grade>)
    ensures e.value == g
  {
    Entry(if HasOwnKey(g) then Some(Trim(g.sourceGradeKey)) else None, g)
  }

  function Filed(items: seq<Grade>): (es: seq<Entry<Grade>>)
    ensures |es| == |items|
    ensures forall i :: 0 <= i < |items| ==> es[i] == Own(items[i])
  {
    seq(|items|, i requires 0 <= i < |items| => Own(items[i]))
  }

  // Two folds hold the same grades, one under positional keys below the bound, the other under none.
  ghost predicate Positional(strict: seq<Entry<Grade>>, open: seq<Entry<Grade>>, bound: nat) {
    && |strict| == |open|
    && forall k: nat :: k < |open| ==> SameGrade(strict[k], open[k], bound)
  }

  ghost predicate SameGrade(strict: Entry<Grade>, open: Entry<Grade>, bound: nat) {
    && strict.value == open.value
    && (open.key.Some? ==> strict.key == open.key && !(SYNTHETIC <= open.key.value))
    && (open.key.None? ==> exists i: nat :: i < bound && strict.key == Some(SyntheticKey(i, open.value)))
  }

  lemma PositionsGrow(strict: seq<Entry<Grade>>, open: seq<Entry<Grade>>, bound: nat)
    requires Positional(strict, open, bound)
    ensures Positional(strict, open, bound + 1)
  {
    hide SyntheticKey;
  }

  lemma SyntheticIsNew(strict: seq<Entry<Grade>>, open: seq<Entry<Grade>>, bound: nat, g: Grade)
    requires Positional(strict, open, bound)
    ensures Find(strict, SyntheticKey(bound, g)).None?
  {
    hide SyntheticKey;
    forall k: nat | k < |strict|
      ensures strict[k].key != Some(SyntheticKey(bound, g))
    {
      assert SameGrade(strict[k], open[k], bound);
      SyntheticKeyShape(bound, g);
      if open[k].key.None? {
        var i: nat :| i < bound && strict[k].key == Some(SyntheticKey(i, open[k].value));
        SyntheticKeysDiffer(i, open[k].value, bound, g);
      }
    }
  }

  lemma FindsCoincide(strict: seq<Entry<Grade>>, open: seq<Entry<Grade>>, bound: nat, key: string)
    requires Positional(strict, open, bound) && Distinct(strict) && !(SYNTHETIC <= key)
    ensures Find(strict, key) == Find(open, key)
  {
    forall k: nat | k < |open|
      ensures strict[k].key == Some(key) <==> open[k].key == Some(key)
    {
      OwnKeyIsNotSynthetic(strict[k], open[k], bound, key);
    }
    hide SameGrade, Positional, Find;
    if Find(open, key).Some? {
      FindIsThePosition(strict, Find(open, key).value);
    }
  }

  lemma PutOwnKeyStaysPositional(strict: seq<Entry<Grade>>, open: seq<Entry<Grade>>, bound: nat, g: Grade)
    requires Positional(strict, open, bound) && Distinct(strict) && HasOwnKey(g)
    requires !(SYNTHETIC <= Trim(g.sourceGradeKey))
    ensures Positional(Put(strict, Own(g), Last), Put(open, Own(g), Last), bound)
  {
    assert SameGrade(Own(g), Own(g), bound);
    hide SameGrade, Trim, Distinct, Find;
    FindsCoincide(strict, open, bound, Trim(g.sourceGradeKey));
  }

  lemma PutStaysPositional(strict: seq<Entry<Grade>>, open: seq<Entry<Grade>>, bound: nat, g: Grade)
    requires Positional(strict, open, bound) && Distinct(strict)
    requires !(SYNTHETIC <= Trim(g.sourceGradeKey))
    ensures Positional(Put(strict, Entry(Some(GradeKey(bound, g)), g), Last), Put(open, Own(g), Last), bound + 1)
  {
    hide SyntheticKey, Lower, Trim;
    if HasOwnKey(g) {
      PutOwnKeyStaysPositional(strict, open, bound, g);
      PositionsGrow(Put(strict, Own(g), Last), Put(open, Own(g), Last), bound);
    } else {
      PositionsGrow(strict, open, bound);
      SyntheticIsNew(strict, open, bound, g);
      assert SameGrade(Entry(Some(SyntheticKey(bound, g)), g), Own(g), bound + 1);
      hide SameGrade;
    }
  }

  lemma OwnKeyIsNotSynthetic(strict: Entry<Grade>, open: Entry<Grade>, bound: nat, key: string)
    requires SameGrade(strict, open, bound) && !(SYNTHETIC <= key)
    ensures strict.key == Some(key) <==> open.key == Some(key)
  {
    if open.key.None? {
      var i: nat :| i < bound && strict.key == Some(SyntheticKey(i, open.value));
      SyntheticKeyShape(i, open.value);
    }
  }

  lemma {:induction false} PutAllStaysPositional(items: seq<Grade>)
    requires NoneBlank(items) && NoReservedKeys(items)
    ensures Positional(PutAll([], Keyed(items), Last), PutAll([], Filed(items), Last), |items|)
  {
    if items == [] {
      NothingIsPositional();
    } else {
      hide Blank, GradeKey, Put, Trim, Positional;
      var n := |items| - 1;
      var before := items[..n];
      PutAllStaysPositional(before);
      assert Filed(items)[..n] == Filed(before);
      assert Keyed(items) == Keyed(before) + [Entry(Some(GradeKey(n, items[n])), items[n])];
      PutAllNext([], Keyed(before), Entry(Some(GradeKey(n, items[n])), items[n]), Last);
      PutAllKeepsDistinct([], Keyed(before), Last);
      PutStaysPositional(PutAll([], Keyed(before), Last), PutAll([], Filed(before), Last), n, items[n]);
    }
  }

  lemma NothingIsPositional()
    ensures Positional([], [], 0)
  {
  }

  // Without reserved keys, grades without a key are kept apart and positions do not matter.
  lemma PositionsDoNotMatter(items: seq<Grade>)
    requires NoneBlank(items) && NoReservedKeys(items)
    ensures Deduplicated(items) == Values(PutAll([], Filed(items), Last))
  {
    if |items| == 1 {
      SingleFiled(items);
    } else {
      PutAllStaysPositional(items);
      SameValues(PutAll([], Keyed(items), Last), PutAll([], Filed(items), Last), |items|);
    }
    hide PutAll, Keyed, Own, Positional, NoneBlank, NoReservedKeys;
  }

  lemma SingleFiled(items: seq<Grade>)
    requires |items| == 1
    ensures Values(PutAll([], Filed(items), Last)) == items
  {
    hide Trim;
    assert Filed(items)[..0] == [];
    assert PutAll([], Filed(items), Last) == [Own(items[0])];
  }

  lemma SameValues(strict: seq<Entry<Grade>>, open: seq<Entry<Grade>>, bound: nat)
    requires Positional(strict, open, bound)
    ensures Values(strict) == Values(open)
  {
    hide SyntheticKey;
  }

  // ---------- Which grades are kept ----------

  // The grade stands under a key that no later grade with a value has.
  predicate LastOfItsKey(items: seq<Grade>, k: nat) {
    && k < |items| && !Blank(items[k].value)
    && forall j: nat :: k < j < |items| && !Blank(items[j].value) ==> GradeKey(j, items[j]) != GradeKey(k, items[k])
  }

  lemma {:induction false} LastIsMerged(items: seq<Grade>, k: nat)
    requires LastOfItsKey(items, k)
    ensures AllMerged(Keyed(items), GradeKey(k, items[k]), Last) == Some(items[k])
  {
    hide Blank, GradeKey;
    var n := |items| - 1;
    var before := items[..n];
    if k < n {
      assert LastOfItsKey(before, k);
      LastIsMerged(before, k);
    }
    if !Blank(items[n].value) {
      assert Keyed(items)[..|Keyed(items)| - 1] == Keyed(before);
    } else {
      assert Keyed(items) == Keyed(before);
    }
  }

  // Deduplication keeps a grade with a value unless a later one has its key; without reserved keys it so
  // keeps every grade without a key.
  lemma LastGradeIsKept(items: seq<Grade>, k: nat)
    requires LastOfItsKey(items, k)
    ensures items[k] in Deduplicated(items)
  {
    LastIsMerged(items, k);
    PutAllMergesEachKey(Keyed(items), GradeKey(k, items[k]), Last);
    hide Blank, GradeKey, Keyed, PutAll, AllMerged, LastOfItsKey;
    if |items| > 1 {
      var out := PutAll([], Keyed(items), Last);
      var i: nat :| i < |out| && out[i] == Entry(Some(GradeKey(k, items[k])), items[k]);
      assert Deduplicated(items)[i] == items[k];
    }
  }

  lemma UnkeyedGradesAreKept(items: seq<Grade>, k: nat)
    requires NoReservedKeys(items) && k < |items| && !Blank(items[k].value) && !HasOwnKey(items[k])
    ensures items[k] in Deduplicated(items)
  {
    hide Blank, SyntheticKey, Deduplicated;
    forall j: nat | k < j < |items|
      ensures GradeKey(j, items[j]) != GradeKey(k, items[k])
    {
      SyntheticKeysDiffer(k, items[k], j, items[j]);
      SyntheticKeyShape(k, items[k]);
    }
    hide Trim;
    LastGradeIsKept(items, k);
  }

  // ---------- Combining is associative on clean grades ----------

  // Deduplicated grades, all with a value, none with a reserved key
  predicate Clean(items: seq<Grade>) {
    NoneBlank(items) && NoReservedKeys(items) && OwnKeysDistinct(items)
  }

  lemma FiledDistinct(items: seq<Grade>)
    ensures Distinct(Filed(items)) <==> OwnKeysDistinct(items)
  {
    hide Trim;
  }

  lemma CombinedIsFiling(a: seq<Grade>, b: seq<Grade>)
    requires Clean(a) && Clean(b)
    ensures Filed(Combined(a, b)) == PutAll(Filed(a), Filed(b), Last)
    ensures Clean(Combined(a, b))
  {
    hide *;
    CombinedValues(a, b);
    FiledTogether(a, b);
    FiledOutput(a + b);
  }

  // Filing clean grades changes nothing.
  lemma CleanIsFiled(a: seq<Grade>)
    requires Clean(a)
    ensures PutAll([], Filed(a), Last) == Filed(a)
  {
    assert Distinct(Filed(a)) by {
      FiledDistinct(a);
    }
    hide *;
    assert [] + Filed(a) == Filed(a);
    PutAllOfFresh([], Filed(a), Last);
  }

  lemma CombinedValues(a: seq<Grade>, b: seq<Grade>)
    requires Clean(a) && Clean(b)
    ensures Combined(a, b) == Values(PutAll([], Filed(a + b), Last))
    ensures NoneBlank(a + b) && NoReservedKeys(a + b)
  {
    hide Blank, Trim, PutAll, OwnKeysDistinct, Own;
    assert NoneBlank(a + b) && NoReservedKeys(a + b);
    if b == [] {
      assert a + b == a;
      FiledTogether(a, b);
      assert Values(Filed(a)) == a;
    } else {
      PositionsDoNotMatter(a + b);
    }
  }

  lemma FiledOutput(items: seq<Grade>)
    requires NoneBlank(items) && NoReservedKeys(items)
    ensures
      var out := PutAll([], Filed(items), Last);
      Filed(Values(out)) == out && Clean(Values(out))
  {
    hide Own, NoneBlank, NoReservedKeys, OwnKeysDistinct, PutAll, Distinct;
    var out := PutAll([], Filed(items), Last);
    assert Distinct<Grade>([]) by {
      EmptyTable<Grade>();
    }
    PutAllKeepsDistinct([], Filed(items), Last);
    LastIsFromTheList(Filed(items));
    assert forall i: nat :: i < |out| ==> out[i] in out;
    FromFiled(items, out);
    FiledDistinct(Values(out));
  }

  lemma FiledTogether(a: seq<Grade>, b: seq<Grade>)
    requires Clean(a)
    ensures PutAll([], Filed(a + b), Last) == PutAll(Filed(a), Filed(b), Last)
    ensures b == [] ==> PutAll(Filed(a), Filed(b), Last) == Filed(a)
  {
    assert Distinct(Filed(a)) by {
      FiledDistinct(a);
    }
    hide *;
    assert [] + Filed(a) == Filed(a);
    PutAllOfFresh([], Filed(a), Last);
    FiledSplits(a, b);
    PutAllSplits([], Filed(a), Filed(b), Last);
    PutAllOfNothing(Filed(a), Last);
    assert b == [] ==> Filed(b) == [];
  }

  lemma FiledSplits(a: seq<Grade>, b: seq<Grade>)
    ensures Filed(a + b) == Filed(a) + Filed(b)
  {
    hide Own;
  }

  // Entries drawn from filed grades are filed grades.
  lemma FromFiled(items: seq<Grade>, es: seq<Entry<Grade>>)
    requires NoneBlank(items) && NoReservedKeys(items)
    requires forall i: nat :: i < |es| ==> es[i] in Filed(items)
    ensures Filed(Values(es)) == es && NoneBlank(Values(es)) && NoReservedKeys(Values(es))
  {
    hide Blank, Trim;
    forall i: nat | i < |es|
      ensures es[i] == Own(es[i].value) && !Blank(es[i].value.value) && !(SYNTHETIC <= Trim(es[i].value.sourceGradeKey))
    {
      var k :| 0 <= k < |items| && Filed(items)[k] == es[i];
    }
  }

  lemma CombinedIsAssociative(a: seq<Grade>, b: seq<Grade>, c: seq<Grade>)
    requires Clean(a) && Clean(b) && Clean(c)
    ensures Combined(Combined(a, b), c) == Combined(a, Combined(b, c))
  {
    CombinedIsFiling(a, b);
    CombinedIsFiling(b, c);
    CombinedIsFiling(Combined(a, b), c);
    CombinedIsFiling(a, Combined(b, c));
    FiledDistinct(a);
    FiledDistinct(b);
    hide Combined, Clean, Own;
    var fa, fb, fc := Filed(a), Filed(b), Filed(c);
    assert [] + fb == fb;
    PutAllOfFresh([], fb, Last);
    PutAllSplits([], fb, fc, Last);
    LastIsAssociative();
    Absorption(fa, fb + fc, Last, AnyGrade);
    PutAllSplits(fa, fb, fc, Last);
    FiledIsInjective(Combined(Combined(a, b), c), Combined(a, Combined(b, c)));
  }

  predicate AnyGrade(g: Grade) {
    true
  }

  lemma LastIsAssociative()
    ensures Associative<Grade>(Last, AnyGrade)
  {
  }

  lemma FiledIsInjective(a: seq<Grade>, b: seq<Grade>)
    requires Filed(a) == Filed(b)
    ensures a == b
  {
    assert forall i: nat :: i < |a| ==> a[i] == Filed(a)[i].value && b[i] == Filed(b)[i].value;
  }

  // ---------- Normal grades ----------

  function NormalGrades(items: seq<Grade>): (out: seq<Grade>)
    ensures |out| == |items|
    ensures forall i :: 0 <= i < |items| ==> out[i] == NormalGrade(items[i])
  {
    seq(|items|, i requires 0 <= i < |items| => NormalGrade(items[i]))
  }

  predicate AllNormal(items: seq<Grade>) {
    forall i: nat :: i < |items| ==> NormalGrade(items[i]) == items[i]
  }

  lemma NormalGradeIsIdempotent(g: Grade)
    ensures NormalGrade(NormalGrade(g)) == NormalGrade(g)
    ensures Trim(NormalGrade(g).sourceGradeKey) == Trim(g.sourceGradeKey)
  {
    TrimFixesExactlyUnpadded(Trim(g.sourceGradeKey));
    TrimFixesExactlyUnpadded(Trim(g.value));
    TrimFixesExactlyUnpadded(Trim(g.mood));
    NormalTypeIsIdempotent(g.gradeType);
    hide Trim, NormalType;
  }

  lemma NormalTypeIsIdempotent(raw: string)
    ensures NormalType(NormalType(raw)) == NormalType(raw)
  {
    FoldIsIdempotent(raw);
    RegularIsNormal();
    hide Trim, Lower;
  }

  lemma RegularIsNormal()
    ensures Lower(Trim("regular")) == "regular"
  {
    assert Trim("regular") == "regular" by {
      hide Trim;
      TrimFixesExactlyUnpadded("regular");
    }
    hide Trim, Unpadded;
    assert forall i :: 0 <= i < 7 ==> LowerChar("regular"[i]) == "regular"[i];
    hide LowerChar;
    assert Lower("regular") == "regular";
  }

  // The grades a normalised lesson may hold
  predicate NormalList(items: seq<Grade>) {
    Settled(items) && AllNormal(items)
  }

  lemma DeduplicatedStaysNormal(items: seq<Grade>)
    requires AllNormal(items)
    ensures NormalList(Deduplicated(items))
  {
    DeduplicatedIsSettled(items);
    hide Settled, Deduplicated, NormalGrade;
    forall i: nat | i < |Deduplicated(items)|
      ensures NormalGrade(Deduplicated(items)[i]) == Deduplicated(items)[i]
    {
      var k :| 0 <= k < |items| && items[k] == Deduplicated(items)[i];
    }
  }

  lemma CombinedStaysNormal(base: seq<Grade>, incoming: seq<Grade>)
    requires NormalList(base) && NormalList(incoming)
    ensures NormalList(Combined(base, incoming))
  {
    hide Settled, Deduplicated, NormalGrade;
    if incoming != [] {
      DeduplicatedStaysNormal(base + incoming);
    }
  }

  lemma NormalisingGrades(items: seq<Grade>)
    ensures NormalList(Deduplicated(NormalGrades(items)))
  {
    hide NormalGrade, NormalList;
    forall i: nat | i < |items|
      ensures NormalGrade(NormalGrades(items)[i]) == NormalGrades(items)[i]
    {
      NormalGradeIsIdempotent(items[i]);
    }
    DeduplicatedStaysNormal(NormalGrades(items));
  }

  // Normalising the grades of a normalised lesson again changes them exactly when a synthetic key clashes.
  lemma NormalisingGradesAgain(items: seq<Grade>)
    requires NormalList(items)
    ensures Deduplicated(NormalGrades(items)) == items <==> |items| <= 1 || !Clash(items)
  {
    hide NormalGrade, Clash;
    assert NormalGrades(items) == items;
    if |items| > 1 {
      SettledIsFixedExactlyWithoutClash(items);
    }
    hide Settled;
  }

  // Deduplicating once need not be enough: dropping a grade without a value moves the next one, which
  // has no key, onto the position that the reserved key of a third one names.
  lemma ShiftOntoReservedKey(blank: Grade, unkeyed: Grade, reserved: Grade)
    requires Blank(blank.value) && !Blank(unkeyed.value) && !Blank(reserved.value)
    requires !HasOwnKey(unkeyed) && Trim(reserved.sourceGradeKey) == SyntheticKey(0, unkeyed)
    ensures Deduplicated([blank, unkeyed, reserved]) == [unkeyed, reserved]
    ensures Deduplicated([unkeyed, reserved]) == [reserved]
  {
    hide Trim, SyntheticKey, Blank;
    var first, shifted := Entry(Some(SyntheticKey(1, unkeyed)), unkeyed), Entry(Some(SyntheticKey(0, unkeyed)), unkeyed);
    var second := Entry(Some(SyntheticKey(0, unkeyed)), reserved);
    assert GradeKey(1, unkeyed) == SyntheticKey(1, unkeyed) && GradeKey(0, unkeyed) == SyntheticKey(0, unkeyed);
    assert GradeKey(2, reserved) == SyntheticKey(0, unkeyed) == GradeKey(1, reserved) by {
      SyntheticIsNotEmpty(0, unkeyed);
    }
    hide *;
    SyntheticKeysDiffer(1, unkeyed, 0, unkeyed);
    ShiftFirstPass([blank, unkeyed, reserved], first, second);
    ShiftSecondPass([unkeyed, reserved], shifted, second);
  }

  lemma SyntheticIsNotEmpty(index: nat, g: Grade)
    ensures SyntheticKey(index, g) != ""
  {
    SyntheticKeyShape(index, g);
  }

  lemma ShiftFirstPass(all: seq<Grade>, first: Entry<Grade>, second: Entry<Grade>)
    requires |all| == 3 && Blank(all[0].value) && !Blank(all[1].value) && !Blank(all[2].value)
    requires first == Entry(Some(GradeKey(1, all[1])), all[1]) && second == Entry(Some(GradeKey(2, all[2])), all[2])
    requires first.key != second.key
    ensures Deduplicated(all) == [all[1], all[2]]
  {
    hide Blank, GradeKey, Keyed, PutAll, Put, Distinct;
    KeyedOfThree(all, first, second);
    var two := [first, second];
    assert [] + two == two;
    assert Distinct(two) by {
      TwoAreDistinct(first, second);
    }
    PutAllOfFresh([], two, Last);
  }

  lemma TwoAreDistinct(first: Entry<Grade>, second: Entry<Grade>)
    requires first.key != second.key
    ensures Distinct([first, second])
  {
  }

  lemma KeyedOfThree(all: seq<Grade>, first: Entry<Grade>, second: Entry<Grade>)
    requires |all| == 3 && Blank(all[0].value) && !Blank(all[1].value) && !Blank(all[2].value)
    requires first == Entry(Some(GradeKey(1, all[1])), all[1]) && second == Entry(Some(GradeKey(2, all[2])), all[2])
    ensures Keyed(all) == [first, second]
  {
    hide *;
    KeyedOfNone(all);
    KeyedNext(all, 0);
    KeyedNext(all, 1);
    KeyedNext(all, 2);
    assert all[..3] == all;
    assert Keyed(all[..1]) == [];
    assert Keyed(all[..2]) == [first];
  }

  lemma KeyedOfNone(items: seq<Grade>)
    ensures Keyed(items[..0]) == []
  {
  }

  lemma ShiftSecondPass(rest: seq<Grade>, first: Entry<Grade>, second: Entry<Grade>)
    requires |rest| == 2 && !Blank(rest[0].value) && !Blank(rest[1].value)
    requires first == Entry(Some(GradeKey(0, rest[0])), rest[0]) && second == Entry(Some(GradeKey(1, rest[1])), rest[1])
    requires first.key == second.key
    ensures Deduplicated(rest) == [rest[1]]
  {
    hide Blank, GradeKey;
    assert Keyed(rest) == [first] + [second] by {
      KeyedNext(rest, 0);
      KeyedNext(rest, 1);
      assert rest[..0] == [] && rest[..2] == rest;
    }
    PutAllOfFresh([], [first], Last);
    PutAllNext([], [first], second, Last);
    assert Put([first], second, Last) == [second];
    hide PutAll, Keyed, Put;
  }

  lemma ReservedKeyDefeatsIdempotence()
    ensures
      var blank, unkeyed := Grade("", "", "", "regular", false), Grade("", "5", "", "regular", false);
      var reserved := Grade("index:0:regular:5", "4", "", "regular", false);
      && Deduplicated([blank, unkeyed, reserved]) == [unkeyed, reserved]
      && Deduplicated([unkeyed, reserved]) == [reserved]
  {
    var blank, unkeyed := Grade("", "", "", "regular", false), Grade("", "5", "", "regular", false);
    var reserved := Grade("index:0:regular:5", "4", "", "regular", false);
    hide Trim, Lower, Decimal, SyntheticKey, Deduplicated;
    ConcreteKeys(unkeyed, reserved);
    ConcreteValues(blank, unkeyed, reserved);
    ShiftOntoReservedKey(blank, unkeyed, reserved);
  }

  lemma ConcreteKeys(unkeyed: Grade, reserved: Grade)
    requires unkeyed.sourceGradeKey == "" && unkeyed.value == "5" && unkeyed.gradeType == "regular"
    requires reserved.sourceGradeKey == "index:0:regular:5"
    ensures !HasOwnKey(unkeyed) && Trim(reserved.sourceGradeKey) == SyntheticKey(0, unkeyed)
  {
    assert Trim("index:0:regular:5") == "index:0:regular:5" by {
      hide Trim;
      TrimFixesExactlyUnpadded("index:0:regular:5");
    }
    assert !HasOwnKey(unkeyed) by {
      hide Trim;
      TrimFixesExactlyUnpadded("");
    }
    assert SyntheticKey(0, unkeyed) == "index:0:regular:5" by {
      hide Trim, Lower, Decimal;
      FirstRegularFive(unkeyed);
      assert SYNTHETIC + "0" + ":" + "regular" + ":" + "5" == "index:0:regular:5";
    }
    hide *;
  }

  lemma FirstRegularFive(g: Grade)
    requires g.value == "5" && g.gradeType == "regular"
    ensures SyntheticKey(0, g) == SYNTHETIC + "0" + ":" + "regular" + ":" + "5"
  {
    hide Trim, Lower, Decimal;
    TrimFixesExactlyUnpadded("5");
    RegularIsNormal();
    DecimalOfZero();
  }

  lemma DecimalOfZero()
    ensures Decimal(0) == "0"
  {
  }

  lemma ConcreteValues(blank: Grade, unkeyed: Grade, reserved: Grade)
    requires blank.value == "" && unkeyed.value == "5" && reserved.value == "4"
    ensures Blank(blank.value) && !Blank(unkeyed.value) && !Blank(reserved.value)
  {
    TrimFixesExactlyUnpadded("5");
    TrimFixesExactlyUnpadded("4");
    TrimFixesExactlyUnpadded("");
    hide Trim;
  }
}
