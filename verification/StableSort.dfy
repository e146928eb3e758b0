/** The contract of a stable sort, the one list that meets it, and when the order of the input does not matter. */
module StableSort {

  ghost predicate StrictWeakOrder<T(!new)>(less: (T, T) -> bool) {
    && (forall a, b :: less(a, b) ==> !less(b, a))
    && (forall a, b, c :: !less(a, b) && !less(b, c) ==> !less(a, c))
  }

  ghost predicate Sorted<T>(xs: seq<T>, less: (T, T) -> bool) {
    forall i: nat, j: nat :: i < j < |xs| ==> !less(xs[j], xs[i])
  }

  predicate Tied<T>(a: T, b: T, less: (T, T) -> bool) {
    !less(a, b) && !less(b, a)
  }

  // The elements that tie with e, in their order
  function Ties<T>(xs: seq<T>, e: T, less: (T, T) -> bool): seq<T> {
    if xs == [] then []
    else (if Tied(xs[0], e, less) then [xs[0]] else []) + Ties(xs[1..], e, less)
  }

  // What sort.SliceStable promises: a sorted permutation in which ties keep their order
  ghost predicate IsStableSort<T(!new)>(xs: seq<T>, out: seq<T>, less: (T, T) -> bool) {
    && multiset(out) == multiset(xs)
    && Sorted(out, less)
    && forall e :: Ties(out, e, less) == Ties(xs, e, less)
  }

  function Insert<T>(x: T, xs: seq<T>, less: (T, T) -> bool): (out: seq<T>)
    ensures multiset(out) == multiset(xs) + multiset{x}
  {
    if xs == [] || !less(xs[0], x) then [x] + xs
    else
      assert xs == [xs[0]] + xs[1..];
      [xs[0]] + Insert(x, xs[1..], less)
  }

  function Sort<T>(xs: seq<T>, less: (T, T) -> bool): (out: seq<T>)
    ensures multiset(out) == multiset(xs)
  {
    if xs == [] then []
    else
      assert xs == [xs[0]] + xs[1..];
      Insert(xs[0], Sort(xs[1..], less), less)
  }

  lemma {:induction false} InsertSorts<T(!new)>(x: T, xs: seq<T>, less: (T, T) -> bool)
    requires StrictWeakOrder(less) && Sorted(xs, less)
    ensures Sorted(Insert(x, xs, less), less)
  {
    if xs != [] && less(xs[0], x) {
      InsertSorts(x, xs[1..], less);
      var rest := Insert(x, xs[1..], less);
      forall j: nat | j < |rest|
        ensures !less(rest[j], xs[0])
      {
        assert rest[j] in multiset(xs[1..]) + multiset{x};
      }
    }
  }

  lemma {:induction false} InsertKeepsTies<T(!new)>(x: T, xs: seq<T>, e: T, less: (T, T) -> bool)
    requires StrictWeakOrder(less) && Sorted(xs, less)
    ensures Ties(Insert(x, xs, less), e, less) == Ties([x] + xs, e, less)
  {
    assert ([x] + xs)[1..] == xs;
    if xs != [] && less(xs[0], x) {
      InsertKeepsTies(x, xs[1..], e, less);
      assert ([x] + xs[1..])[1..] == xs[1..];
      assert ([xs[0]] + Insert(x, xs[1..], less))[1..] == Insert(x, xs[1..], less);
      assert !(Tied(x, e, less) && Tied(xs[0], e, less));
    }
  }

  lemma {:induction false} SortIsAStableSort<T(!new)>(xs: seq<T>, less: (T, T) -> bool)
    requires StrictWeakOrder(less)
    ensures IsStableSort(xs, Sort(xs, less), less)
  {
    if xs != [] {
      var rest := Sort(xs[1..], less);
      SortIsAStableSort(xs[1..], less);
      InsertSorts(xs[0], rest, less);
      forall e
        ensures Ties(Sort(xs, less), e, less) == Ties(xs, e, less)
      {
        InsertKeepsTies(xs[0], rest, e, less);
        assert ([xs[0]] + rest)[1..] == rest;
      }
    }
  }

  // Two lists sorted by the same order with the same ties are the same list.
  lemma {:induction false} StableSortsAgree<T(!new)>(xs: seq<T>, ys: seq<T>, less: (T, T) -> bool)
    requires StrictWeakOrder(less) && Sorted(xs, less) && Sorted(ys, less)
    requires multiset(xs) == multiset(ys)
    requires forall e :: Ties(xs, e, less) == Ties(ys, e, less)
    ensures xs == ys
  {
    if xs == [] || ys == [] {
      assert |xs| == |multiset(xs)| == |multiset(ys)| == |ys|;
    } else {
      HeadsAgree(xs, ys, less);
      TailsMatch(xs, ys);
      forall e
        ensures Ties(xs[1..], e, less) == Ties(ys[1..], e, less)
      {
        assert Ties(xs, e, less) == Ties(ys, e, less);
        var head := if Tied(xs[0], e, less) then [xs[0]] else [];
        assert Ties(xs[1..], e, less) == Ties(xs, e, less)[|head|..];
        assert Ties(ys[1..], e, less) == Ties(ys, e, less)[|head|..];
      }
      StableSortsAgree(xs[1..], ys[1..], less);
      assert xs == [xs[0]] + xs[1..] && ys == [ys[0]] + ys[1..];
    }
  }

  lemma HeadsAgree<T(!new)>(xs: seq<T>, ys: seq<T>, less: (T, T) -> bool)
    requires StrictWeakOrder(less) && Sorted(xs, less) && Sorted(ys, less)
    requires multiset(xs) == multiset(ys) && xs != [] && ys != []
    requires forall e :: Ties(xs, e, less) == Ties(ys, e, less)
    ensures xs[0] == ys[0]
  {
    assert xs[0] in multiset(ys) && ys[0] in multiset(xs);
    var i: nat :| i < |ys| && ys[i] == xs[0];
    var j: nat :| j < |xs| && xs[j] == ys[0];
    assert Tied(xs[0], ys[0], less);
    assert Ties(xs, xs[0], less)[0] == xs[0];
    assert Ties(ys, xs[0], less)[0] == ys[0];
  }

  // The model of the stable sort is the only list that keeps the promise.
  lemma StableSortIsUnique<T(!new)>(xs: seq<T>, out: seq<T>, less: (T, T) -> bool)
    requires StrictWeakOrder(less)
    ensures IsStableSort(xs, out, less) <==> out == Sort(xs, less)
  {
    SortIsAStableSort(xs, less);
    if IsStableSort(xs, out, less) {
      StableSortsAgree(out, Sort(xs, less), less);
    }
  }

  lemma SortFixesExactlySorted<T(!new)>(xs: seq<T>, less: (T, T) -> bool)
    requires StrictWeakOrder(less)
    ensures Sort(xs, less) == xs <==> Sorted(xs, less)
  {
    StableSortIsUnique(xs, xs, less);
  }

  // Where no two different elements tie, the sorted list does not depend on the order of the input.
  lemma SortForgetsOrder<T(!new)>(xs: seq<T>, ys: seq<T>, less: (T, T) -> bool)
    requires StrictWeakOrder(less) && multiset(xs) == multiset(ys)
    requires NoTies(xs, less)
    ensures Sort(xs, less) == Sort(ys, less)
  {
    SortIsAStableSort(xs, less);
    SortIsAStableSort(ys, less);
    var sx, sy := Sort(xs, less), Sort(ys, less);
    assert forall i: nat :: i < |sx| ==> sx[i] in multiset(sx) && sx[i] in multiset(xs) && sx[i] in xs;
    SortedListsAgree(sx, sy, less);
  }

  ghost predicate NoTies<T(!new)>(xs: seq<T>, less: (T, T) -> bool) {
    forall i: nat, j: nat :: i < |xs| && j < |xs| && Tied(xs[i], xs[j], less) ==> xs[i] == xs[j]
  }

  lemma FirstsAgree<T(!new)>(xs: seq<T>, ys: seq<T>, less: (T, T) -> bool)
    requires Sorted(xs, less) && Sorted(ys, less) && multiset(xs) == multiset(ys)
    requires xs != [] && ys != [] && NoTies(xs, less)
    ensures xs[0] == ys[0]
  {
    assert xs[0] in multiset(ys) && ys[0] in multiset(xs);
    var i: nat :| i < |ys| && ys[i] == xs[0];
    var j: nat :| j < |xs| && xs[j] == ys[0];
    if i != 0 && j != 0 {
      assert Tied(xs[0], xs[j], less);
    }
  }

  lemma TailsMatch<T>(xs: seq<T>, ys: seq<T>)
    requires xs != [] && ys != [] && xs[0] == ys[0] && multiset(xs) == multiset(ys)
    ensures multiset(xs[1..]) == multiset(ys[1..])
  {
    assert xs == [xs[0]] + xs[1..] && ys == [ys[0]] + ys[1..];
    assert multiset(xs[1..]) == multiset(xs) - multiset{xs[0]};
    assert multiset(ys[1..]) == multiset(ys) - multiset{ys[0]};
  }

  lemma {:induction false} SortedListsAgree<T(!new)>(xs: seq<T>, ys: seq<T>, less: (T, T) -> bool)
    requires Sorted(xs, less) && Sorted(ys, less) && multiset(xs) == multiset(ys) && NoTies(xs, less)
    ensures xs == ys
  {
    if xs == [] || ys == [] {
      assert |xs| == |multiset(xs)| == |multiset(ys)| == |ys|;
    } else {
      FirstsAgree(xs, ys, less);
      TailsMatch(xs, ys);
      assert Sorted(xs[1..], less) && Sorted(ys[1..], less) && NoTies(xs[1..], less);
      hide Sorted, NoTies;
      SortedListsAgree(xs[1..], ys[1..], less);
      assert xs == [xs[0]] + xs[1..] && ys == [ys[0]] + ys[1..];
    }
  }
}
