/** Sequence functions shared by the decoders and the store. */
module Seqs {
  import opened Options

  /** The values present, in order. */
  function Somes<T>(xs: seq<Option<T>>): seq<T> {
    if xs == [] then []
    else Somes(xs[..|xs| - 1]) + (if xs[|xs| - 1].Some? then [xs[|xs| - 1].value] else [])
  }

  lemma SomesStep<T>(xs: seq<Option<T>>, k: nat)
    requires k < |xs|
    ensures Somes(xs[..k + 1]) == Somes(xs[..k]) + (if xs[k].Some? then [xs[k].value] else [])
  {
    assert xs[..k + 1][..k] == xs[..k];
  }

  lemma {:induction false} SomesMember<T>(xs: seq<Option<T>>, x: T)
    ensures x in Somes(xs) <==> Some(x) in xs
  {
    if xs != [] {
      SomesMember(xs[..|xs| - 1], x);
      assert xs == xs[..|xs| - 1] + [xs[|xs| - 1]];
    }
  }

  /** What f yields for each element, one after the other. */
  function FlatMap<T, U>(xs: seq<T>, f: T -> seq<U>): seq<U> {
    if xs == [] then [] else FlatMap(xs[..|xs| - 1], f) + f(xs[|xs| - 1])
  }

  lemma FlatMapStep<T, U>(xs: seq<T>, f: T -> seq<U>, k: nat)
    requires k < |xs|
    ensures FlatMap(xs[..k + 1], f) == FlatMap(xs[..k], f) + f(xs[k])
  {
    assert xs[..k + 1][..k] == xs[..k];
  }

  lemma {:induction false} FlatMapSplits<T, U>(xs: seq<T>, ys: seq<T>, f: T -> seq<U>)
    ensures FlatMap(xs + ys, f) == FlatMap(xs, f) + FlatMap(ys, f)
  {
    if ys == [] {
      assert xs + ys == xs;
    } else {
      var n := |ys| - 1;
      assert (xs + ys)[..|xs| + n] == xs + ys[..n];
      FlatMapSplits(xs, ys[..n], f);
    }
  }

  lemma {:induction false} FlatMapMember<T, U>(xs: seq<T>, f: T -> seq<U>, u: U)
    ensures u in FlatMap(xs, f) <==> exists x :: x in xs && u in f(x)
  {
    if xs != [] {
      var n := |xs| - 1;
      FlatMapMember(xs[..n], f, u);
      assert xs == xs[..n] + [xs[n]];
    }
  }

  lemma FlatMapOne<T, U>(x: T, f: T -> seq<U>)
    ensures FlatMap([x], f) == f(x)
  {
    assert [x][..0] == [];
    assert FlatMap([x][..0], f) == [];
  }

  lemma FlatMapMiddle<T, U>(front: seq<T>, x: T, back: seq<T>, f: T -> seq<U>)
    ensures FlatMap(front + ([x] + back), f) == FlatMap(front, f) + (f(x) + FlatMap(back, f))
  {
    FlatMapSplits(front, [x] + back, f);
    FlatMapSplits([x], back, f);
    FlatMapOne(x, f);
  }

  lemma MultisetMiddle<U>(a: seq<U>, b: seq<U>, c: seq<U>)
    ensures multiset(a + (b + c)) == multiset(a + c) + multiset(b)
  {
  }

  /** Every occurrence splits a sequence in front, element and back. */
  lemma SplitAt<T>(xs: seq<T>, x: T) returns (front: seq<T>, back: seq<T>)
    requires x in xs
    ensures xs == front + ([x] + back)
    ensures multiset(front + back) == multiset(xs) - multiset{x}
  {
    var k :| 0 <= k < |xs| && xs[k] == x;
    front, back := xs[..k], xs[k + 1..];
    assert xs == front + ([x] + back);
    MultisetMiddle(front, [x], back);
  }

  /** What is not dropped, in order. */
  function Reject<T>(xs: seq<T>, drop: T -> bool): seq<T> {
    if xs == [] then []
    else Reject(xs[..|xs| - 1], drop) + (if drop(xs[|xs| - 1]) then [] else [xs[|xs| - 1]])
  }

  lemma {:induction false} RejectCount<T>(xs: seq<T>, drop: T -> bool, x: T)
    ensures multiset(Reject(xs, drop))[x] == if drop(x) then 0 else multiset(xs)[x]
  {
    if xs != [] {
      var front, last := xs[..|xs| - 1], xs[|xs| - 1];
      RejectCount(front, drop, x);
      assert xs == front + [last];
      assert multiset(xs)[x] == multiset(front)[x] + (if x == last then 1 else 0);
    }
  }

  /** Reordering the elements only reorders what they yield. */
  lemma {:induction false} FlatMapPermutes<T, U>(xs: seq<T>, ys: seq<T>, f: T -> seq<U>)
    requires multiset(xs) == multiset(ys)
    ensures multiset(FlatMap(xs, f)) == multiset(FlatMap(ys, f))
    decreases |xs|
  {
    if xs == [] {
      assert |multiset(ys)| == 0;
    } else {
      var n := |xs| - 1;
      var x := xs[n];
      assert xs == xs[..n] + [x];
      assert x in multiset(xs);
      assert x in multiset(ys);
      var front, back := SplitAt(ys, x);
      assert multiset(xs[..n]) == multiset(xs) - multiset{x};
      FlatMapPermutes(xs[..n], front + back, f);
      FlatMapMiddle(front, x, back, f);
      FlatMapSplits(front, back, f);
      MultisetMiddle(FlatMap(front, f), f(x), FlatMap(back, f));
    }
  }

  ghost predicate NoRepeats<T>(xs: seq<T>) {
    forall j, k | 0 <= j < k < |xs| :: xs[j] != xs[k]
  }
}
