/** Applying a function to every element of a list. */
module Lists {

  function Mapped<S, T>(f: S -> T, xs: seq<S>): (ys: seq<T>)
    ensures |ys| == |xs|
    ensures forall i :: 0 <= i < |xs| ==> ys[i] == f(xs[i])
  {
    seq(|xs|, i requires 0 <= i < |xs| => f(xs[i]))
  }

  lemma MappedAround<S, T>(f: S -> T, pre: seq<S>, x: S, post: seq<S>)
    ensures multiset(Mapped(f, pre + [x] + post)) == multiset(Mapped(f, pre + post)) + multiset{f(x)}
  {
    assert Mapped(f, pre + [x] + post) == Mapped(f, pre) + [f(x)] + Mapped(f, post);
    assert Mapped(f, pre + post) == Mapped(f, pre) + Mapped(f, post);
  }

  lemma Removed<S>(pre: seq<S>, x: S, post: seq<S>)
    ensures multiset(pre + post) == multiset(pre + [x] + post) - multiset{x}
  {
  }

  // Reordering the arguments reorders the results.
  lemma {:induction false} MappedPermutes<S, T>(f: S -> T, xs: seq<S>, ys: seq<S>)
    requires multiset(xs) == multiset(ys)
    ensures multiset(Mapped(f, xs)) == multiset(Mapped(f, ys))
    decreases |xs|, 1
  {
    if xs == [] {
      assert |ys| == |multiset(xs)|;
    } else {
      assert xs[0] in multiset(ys);
      var j: nat :| j < |ys| && ys[j] == xs[0];
      Rotated(f, xs, xs[0], xs[1..], ys, ys[..j], ys[j + 1..]);
    }
  }

  lemma {:induction false} Rotated<S, T>(f: S -> T, xs: seq<S>, x: S, rest: seq<S>, ys: seq<S>, pre: seq<S>, post: seq<S>)
    requires multiset(xs) == multiset(ys) && xs == [x] + rest && ys == pre + [x] + post
    ensures multiset(Mapped(f, xs)) == multiset(Mapped(f, ys))
    decreases |xs|, 0
  {
    assert xs == [] + [x] + rest && [] + rest == rest;
    Removed([], x, rest);
    Removed(pre, x, post);
    hide Mapped;
    MappedPermutes(f, rest, pre + post);
    MappedAround(f, [], x, rest);
    MappedAround(f, pre, x, post);
  }
}
