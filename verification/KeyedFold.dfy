/**
 Deduplication by key: a map from key to merged value together with the order in which the keys first
 appeared, folded over a list.
 */
module KeyedFold {
  import opened Wrappers

  // A value and the key it is filed under; a value without a key is never merged with another.
  datatype Entry<T> = Entry(key: Option<string>, value: T)

  // The position at which a key is filed
  function Find<T>(acc: seq<Entry<T>>, key: string): (found: Option<nat>)
    ensures found.Some? ==> found.value < |acc| && acc[found.value].key == Some(key)
    ensures found.None? ==> forall i: nat :: i < |acc| ==> acc[i].key != Some(key)
  {
    if acc == [] then None
    else
      var n := |acc| - 1;
      if acc[n].key == Some(key) then Some(n) else Find(acc[..n], key)
  }

  // File one entry: merge it into the value under its key, or append it.
  function Put<T>(acc: seq<Entry<T>>, e: Entry<T>, merge: (T, T) -> T): seq<Entry<T>> {
    if e.key.None? then acc + [e]
    else
      var found := Find(acc, e.key.value);
      if found.None? then acc + [e]
      else acc[found.value := Entry(e.key, merge(acc[found.value].value, e.value))]
  }

  function PutAll<T>(acc: seq<Entry<T>>, es: seq<Entry<T>>, merge: (T, T) -> T): seq<Entry<T>> {
    if es == [] then acc
    else
      var n := |es| - 1;
      Put(PutAll(acc, es[..n], merge), es[n], merge)
  }

  function Values<T>(es: seq<Entry<T>>): (values: seq<T>)
    ensures |values| == |es|
    ensures forall i :: 0 <= i < |es| ==> values[i] == es[i].value
  {
    seq(|es|, i requires 0 <= i < |es| => es[i].value)
  }

  // No key is filed twice.
  ghost predicate Distinct<T>(es: seq<Entry<T>>) {
    forall i: nat, j: nat :: i < j < |es| ==> es[i].key.None? || es[i].key != es[j].key
  }

  // The keys filed are the same, at the same positions.
  ghost predicate SameKeys<T>(es: seq<Entry<T>>, fs: seq<Entry<T>>) {
    |es| == |fs| && forall i: nat :: i < |es| ==> es[i].key == fs[i].key
  }

  // Merging is associative on the values of interest, which it does not leave.
  ghost predicate Associative<T(!new)>(merge: (T, T) -> T, ok: T -> bool) {
    && Closed(merge, ok)
    && (forall a, b, c :: ok(a) && ok(b) && ok(c) ==> merge(merge(a, b), c) == merge(a, merge(b, c)))
  }

  ghost predicate Closed<T(!new)>(merge: (T, T) -> T, ok: T -> bool) {
    forall a, b :: ok(a) && ok(b) ==> ok(merge(a, b))
  }

  ghost predicate AllOk<T>(es: seq<Entry<T>>, ok: T -> bool) {
    forall i: nat :: i < |es| ==> ok(es[i].value)
  }

  // ---------- Elementary facts ----------

  lemma PutKeepsDistinct<T>(acc: seq<Entry<T>>, e: Entry<T>, merge: (T, T) -> T)
    requires Distinct(acc)
    ensures Distinct(Put(acc, e, merge))
    ensures |acc| <= |Put(acc, e, merge)| && SameKeys(acc, Put(acc, e, merge)[..|acc|])
  {
  }

  lemma {:induction false} PutAllKeepsDistinct<T>(acc: seq<Entry<T>>, es: seq<Entry<T>>, merge: (T, T) -> T)
    requires Distinct(acc)
    ensures Distinct(PutAll(acc, es, merge))
  {
    if es != [] {
      var n := |es| - 1;
      PutAllKeepsDistinct(acc, es[..n], merge);
      PutKeepsDistinct(PutAll(acc, es[..n], merge), es[n], merge);
    }
  }

  lemma FindIsThePosition<T>(acc: seq<Entry<T>>, i: nat)
    requires Distinct(acc) && i < |acc| && acc[i].key.Some?
    ensures Find(acc, acc[i].key.value) == Some(i)
  {
  }

  lemma {:induction false} PutAllSplits<T>(acc: seq<Entry<T>>, xs: seq<Entry<T>>, ys: seq<Entry<T>>, merge: (T, T) -> T)
    ensures PutAll(acc, xs + ys, merge) == PutAll(PutAll(acc, xs, merge), ys, merge)
  {
    if ys == [] {
      assert xs + ys == xs;
    } else {
      var n := |ys| - 1;
      assert (xs + ys)[..|xs + ys| - 1] == xs + ys[..n];
      PutAllSplits(acc, xs, ys[..n], merge);
    }
  }

  lemma PutAllOfNothing<T>(acc: seq<Entry<T>>, merge: (T, T) -> T)
    ensures PutAll(acc, [], merge) == acc
  {
  }

  lemma PutAllNext<T>(acc: seq<Entry<T>>, es: seq<Entry<T>>, e: Entry<T>, merge: (T, T) -> T)
    ensures PutAll(acc, es + [e], merge) == Put(PutAll(acc, es, merge), e, merge)
  {
    assert (es + [e])[..|es|] == es;
  }

  // Entries with distinct keys, none of them filed yet, are just appended.
  lemma {:induction false} PutAllOfFresh<T>(acc: seq<Entry<T>>, es: seq<Entry<T>>, merge: (T, T) -> T)
    requires Distinct(acc + es)
    ensures PutAll(acc, es, merge) == acc + es
  {
    if es == [] {
      assert acc + es == acc;
    } else {
      var n := |es| - 1;
      var shorter := acc + es[..n];
      assert acc + es == shorter + [es[n]] && shorter == (acc + es)[..|shorter|];
      assert forall i: nat :: i < |shorter| ==> (acc + es)[i] == shorter[i];
      PutAllOfFresh(acc, es[..n], merge);
      assert (acc + es)[|shorter|] == es[n];
    }
  }

  // ---------- Absorption ----------

  // An entry for a key already filed may be filed before or after any later entry of another key.
  lemma PutsCommute<T>(acc: seq<Entry<T>>, e: Entry<T>, f: Entry<T>, merge: (T, T) -> T)
    requires Distinct(acc) && e.key.Some? && Find(acc, e.key.value).Some? && e.key != f.key
    ensures Put(Put(acc, e, merge), f, merge) == Put(Put(acc, f, merge), e, merge)
  {
    var i := Find(acc, e.key.value).value;
    var once := Put(acc, e, merge);
    PutKeepsDistinct(acc, e, merge);
    PutKeepsDistinct(acc, f, merge);
    FindIsThePosition(Put(acc, f, merge), i);
    if f.key.Some? && Find(acc, f.key.value).Some? {
      var j := Find(acc, f.key.value).value;
      FindIsThePosition(once, j);
    } else if f.key.Some? {
      assert Find(once, f.key.value).None?;
    }
  }

  lemma {:induction false} PutMovesPast<T>(acc: seq<Entry<T>>, e: Entry<T>, fs: seq<Entry<T>>, merge: (T, T) -> T)
    requires Distinct(acc) && e.key.Some? && Find(acc, e.key.value).Some?
    requires forall i: nat :: i < |fs| ==> fs[i].key != e.key
    ensures PutAll(Put(acc, e, merge), fs, merge) == Put(PutAll(acc, fs, merge), e, merge)
    ensures Find(PutAll(acc, fs, merge), e.key.value).Some?
  {
    hide Put, Find, Distinct;
    if fs != [] {
      var n := |fs| - 1;
      assert forall i: nat :: i < n ==> fs[..n][i] == fs[i];
      PutMovesPast(acc, e, fs[..n], merge);
      var before := PutAll(acc, fs[..n], merge);
      PutAllKeepsDistinct(acc, fs[..n], merge);
      PutsCommute(before, e, fs[n], merge);
      FiledStaysFiled(before, fs[n], e.key.value, merge);
    }
  }

  lemma FiledStaysFiled<T>(acc: seq<Entry<T>>, e: Entry<T>, key: string, merge: (T, T) -> T)
    requires Find(acc, key).Some?
    ensures Find(Put(acc, e, merge), key).Some?
  {
    var i := Find(acc, key).value;
    assert Put(acc, e, merge)[i].key == Some(key);
  }

  lemma {:induction false} PutAllKeepsOk<T(!new)>(acc: seq<Entry<T>>, es: seq<Entry<T>>, merge: (T, T) -> T, ok: T -> bool)
    requires Closed(merge, ok) && AllOk(acc, ok) && AllOk(es, ok)
    ensures AllOk(PutAll(acc, es, merge), ok)
  {
    if es != [] {
      PutAllKeepsOk(acc, es[..|es| - 1], merge, ok);
    }
  }

  // Filing a value and then another under the same key is filing their merge.
  lemma PutsMerge<T(!new)>(acc: seq<Entry<T>>, key: Option<string>, v: T, w: T, merge: (T, T) -> T, ok: T -> bool)
    requires Associative(merge, ok) && AllOk(acc, ok) && ok(v) && ok(w)
    requires key.Some? && Distinct(acc)
    ensures Put(Put(acc, Entry(key, v), merge), Entry(key, w), merge) == Put(acc, Entry(key, merge(v, w)), merge)
    ensures Find(Put(acc, Entry(key, v), merge), key.value).Some?
  {
    var once := Put(acc, Entry(key, v), merge);
    PutKeepsDistinct(acc, Entry(key, v), merge);
    var found := Find(acc, key.value);
    FindIsThePosition(once, if found.Some? then found.value else |acc|);
  }

  // Folding a list to which one more entry was put is folding the list and then putting the entry.
  lemma PutAllThenPut<T(!new)>(acc: seq<Entry<T>>, zs: seq<Entry<T>>, y: Entry<T>, merge: (T, T) -> T, ok: T -> bool)
    requires Associative(merge, ok) && Distinct(acc) && Distinct(zs)
    requires AllOk(acc, ok) && AllOk(zs, ok) && ok(y.value)
    ensures PutAll(acc, Put(zs, y, merge), merge) == Put(PutAll(acc, zs, merge), y, merge)
  {
    if y.key.Some? && Find(zs, y.key.value).Some? {
      PutAllThenMerge(acc, zs, Find(zs, y.key.value).value, y, merge, ok);
    } else {
      assert Put(zs, y, merge)[..|zs|] == zs;
    }
  }

  lemma PutAllThenMerge<T(!new)>(acc: seq<Entry<T>>, zs: seq<Entry<T>>, i: nat, y: Entry<T>, merge: (T, T) -> T, ok: T -> bool)
    requires Associative(merge, ok) && Distinct(acc) && Distinct(zs)
    requires AllOk(acc, ok) && AllOk(zs, ok) && ok(y.value)
    requires i < |zs| && y.key.Some? && zs[i].key == y.key && Find(zs, y.key.value) == Some(i)
    ensures PutAll(acc, Put(zs, y, merge), merge) == Put(PutAll(acc, zs, merge), y, merge)
  {
    var merged := Entry(y.key, merge(zs[i].value, y.value));
    var pre, post := zs[..i], zs[i + 1..];
    assert Put(zs, y, merge) == pre + [merged] + post;
    assert zs == pre + [zs[i]] + post;
    assert forall k: nat :: k < |post| ==> post[k].key != y.key;
    assert AllOk(pre, ok) && zs[i] == Entry(y.key, zs[i].value) && ok(zs[i].value);
    hide Put, Find, Distinct, AllOk, PutAll;
    var filed := PutAll(acc, pre, merge);
    PutAllKeepsDistinct(acc, pre, merge);
    PutAllKeepsOk(acc, pre, merge, ok);
    PutsMerge(filed, y.key, zs[i].value, y.value, merge, ok);
    PutKeepsDistinct(filed, zs[i], merge);
    PutMovesPast(Put(filed, zs[i], merge), y, post, merge);
    PutAllAround(acc, pre, merged, post, merge);
    PutAllAround(acc, pre, zs[i], post, merge);
  }

  lemma PutAllAround<T>(acc: seq<Entry<T>>, pre: seq<Entry<T>>, e: Entry<T>, post: seq<Entry<T>>, merge: (T, T) -> T)
    ensures PutAll(acc, pre + [e] + post, merge) == PutAll(Put(PutAll(acc, pre, merge), e, merge), post, merge)
  {
    PutAllSplits(acc, pre + [e], post, merge);
    assert (pre + [e])[..|pre|] == pre;
  }

  // Deduplicating what is filed later first makes no difference.
  lemma {:induction false} Absorption<T(!new)>(acc: seq<Entry<T>>, ys: seq<Entry<T>>, merge: (T, T) -> T, ok: T -> bool)
    requires Associative(merge, ok) && Distinct(acc) && AllOk(acc, ok) && AllOk(ys, ok)
    ensures PutAll(acc, PutAll([], ys, merge), merge) == PutAll(acc, ys, merge)
  {
    if ys != [] {
      var n := |ys| - 1;
      Absorption(acc, ys[..n], merge, ok);
      PutAllKeepsDistinct([], ys[..n], merge);
      PutAllKeepsOk([], ys[..n], merge, ok);
      PutAllThenPut(acc, PutAll([], ys[..n], merge), ys[n], merge, ok);
    }
  }

  // Deduplication of a concatenation can be done piecewise.
  lemma PutAllOfConcatenation<T(!new)>(xs: seq<Entry<T>>, ys: seq<Entry<T>>, merge: (T, T) -> T, ok: T -> bool)
    requires Associative(merge, ok) && AllOk(xs, ok) && AllOk(ys, ok)
    ensures PutAll([], xs + ys, merge) == PutAll([], PutAll([], xs, merge) + PutAll([], ys, merge), merge)
  {
    var dx, dy := PutAll([], xs, merge), PutAll([], ys, merge);
    PutAllKeepsDistinct([], xs, merge);
    PutAllKeepsOk([], xs, merge, ok);
    assert [] + dx == dx;
    PutAllOfFresh([], dx, merge);
    PutAllSplits([], xs, ys, merge);
    PutAllSplits([], dx, dy, merge);
    Absorption(dx, ys, merge, ok);
  }

  // ---------- What is filed under a key ----------

  // All values filed under the key, merged from the left
  function AllMerged<T>(es: seq<Entry<T>>, key: string, merge: (T, T) -> T): Option<T> {
    if es == [] then None
    else
      var n := |es| - 1;
      var before := AllMerged(es[..n], key, merge);
      if es[n].key != Some(key) then before
      else if before.None? then Some(es[n].value)
      else Some(merge(before.value, es[n].value))
  }

  lemma {:induction false} PutAllMergesEachKey<T>(es: seq<Entry<T>>, key: string, merge: (T, T) -> T)
    ensures
      var out := PutAll([], es, merge);
      var merged := AllMerged(es, key, merge);
      && (merged.None? ==> forall i: nat :: i < |out| ==> out[i].key != Some(key))
      && (merged.Some? ==> Entry(Some(key), merged.value) in out)
  {
    if es != [] {
      var n := |es| - 1;
      PutAllMergesEachKey(es[..n], key, merge);
      PutAllKeepsDistinct([], es[..n], merge);
      PutMergesOneKey(PutAll([], es[..n], merge), es[n], key, merge);
    }
  }

  lemma PutMergesOneKey<T>(acc: seq<Entry<T>>, e: Entry<T>, key: string, merge: (T, T) -> T)
    requires Distinct(acc)
    ensures
      var out := Put(acc, e, merge);
      && (e.key != Some(key) ==>
            && (forall v :: Entry(Some(key), v) in acc ==> Entry(Some(key), v) in out)
            && (Find(acc, key).None? ==> Find(out, key).None?))
      && (e.key == Some(key) && Find(acc, key).None? ==> e in out)
      && (forall v :: e.key == Some(key) && Entry(Some(key), v) in acc ==> Entry(Some(key), merge(v, e.value)) in out)
  {
    var out := Put(acc, e, merge);
    forall v | Entry(Some(key), v) in acc
      ensures e.key != Some(key) ==> Entry(Some(key), v) in out
      ensures e.key == Some(key) ==> Entry(Some(key), merge(v, e.value)) in out
    {
      var i: nat :| i < |acc| && acc[i] == Entry(Some(key), v);
      FindIsThePosition(acc, i);
      assert out[i] in out;
    }
    if Find(acc, key).None? && e.key == Some(key) {
      assert out[|acc|] in out;
    }
  }

  // ---------- The map and the order list ----------

  // The entries are filed as a map from key to value and the list of keys in order of appearance.
  ghost predicate Represents<T>(byKey: map<string, T>, order: seq<string>, es: seq<Entry<T>>) {
    && |order| == |es|
    && (forall i: nat :: i < |es| ==> order[i] in byKey && es[i] == Entry(Some(order[i]), byKey[order[i]]))
    && (forall key :: key in byKey ==> key in order)
  }

  lemma PutInMap<T>(byKey: map<string, T>, order: seq<string>, es: seq<Entry<T>>, key: string, v: T, merge: (T, T) -> T)
    requires Represents(byKey, order, es) && Distinct(es)
    ensures key in byKey ==> Represents(byKey[key := merge(byKey[key], v)], order, Put(es, Entry(Some(key), v), merge))
    ensures key !in byKey ==> Represents(byKey[key := v], order + [key], Put(es, Entry(Some(key), v), merge))
    ensures Distinct(Put(es, Entry(Some(key), v), merge))
  {
    PutKeepsDistinct(es, Entry(Some(key), v), merge);
    if key in byKey {
      var i: nat :| i < |order| && order[i] == key;
      FindIsThePosition(es, i);
    }
  }

  lemma EmptyTable<T>()
    ensures Represents<T>(map[], [], []) && Distinct<T>([])
  {
  }

  // The values in order of first appearance
  method Listed<T>(byKey: map<string, T>, order: seq<string>, ghost es: seq<Entry<T>>) returns (out: seq<T>)
    requires Represents(byKey, order, es)
    ensures out == Values(es)
  {
    out := [];
    for k := 0 to |order|
      invariant out == Values(es)[..k]
    {
      out := out + [byKey[order[k]]];
    }
  }

  // A fold that loses no entry met no key twice.
  lemma {:induction false} FullPutAllIsDistinct<T>(es: seq<Entry<T>>, merge: (T, T) -> T)
    ensures |PutAll([], es, merge)| <= |es|
    ensures |PutAll([], es, merge)| == |es| ==> Distinct(es) && PutAll([], es, merge) == es
  {
    if es != [] {
      var n := |es| - 1;
      FullPutAllIsDistinct(es[..n], merge);
    }
  }

  // Every entry of a fold that keeps the last value is one of the list.
  lemma {:induction false} LastIsFromTheList<T>(es: seq<Entry<T>>)
    ensures forall e :: e in PutAll([], es, Last) ==> e in es
  {
    if es != [] {
      LastIsFromTheList(es[..|es| - 1]);
    }
  }

  function Last<T>(earlier: T, later: T): T {
    later
  }
}
