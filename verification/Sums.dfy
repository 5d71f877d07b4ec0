/** Sums over sequences: rearranging, and splitting by a key. */
module Sums {
  import opened Basics

  function Sum<T>(xs: seq<T>, w: T -> nat): nat {
    if xs == [] then 0 else Sum(xs[..|xs| - 1], w) + w(xs[|xs| - 1])
  }

  lemma SumSnoc<T>(xs: seq<T>, x: T, w: T -> nat)
    ensures Sum(xs + [x], w) == Sum(xs, w) + w(x)
  {
    assert (xs + [x])[..|xs|] == xs;
  }

  lemma {:induction false} SumConcat<T>(xs: seq<T>, ys: seq<T>, w: T -> nat)
    ensures Sum(xs + ys, w) == Sum(xs, w) + Sum(ys, w)
  {
    if ys == [] {
      assert xs + ys == xs;
    } else {
      assert (xs + ys)[..|xs + ys| - 1] == xs + ys[..|ys| - 1];
      SumConcat(xs, ys[..|ys| - 1], w);
    }
  }

  lemma {:induction false} SumSame<T>(xs: seq<T>, v: T -> nat, w: T -> nat)
    requires forall i | 0 <= i < |xs| :: v(xs[i]) == w(xs[i])
    ensures Sum(xs, v) == Sum(xs, w)
  {
    if xs != [] { SumSame(xs[..|xs| - 1], v, w); }
  }

  lemma {:induction false} SumNone<T>(xs: seq<T>, w: T -> nat)
    requires forall i | 0 <= i < |xs| :: w(xs[i]) == 0
    ensures Sum(xs, w) == 0
  {
    if xs != [] { SumNone(xs[..|xs| - 1], w); }
  }

  lemma {:induction false} SumWithout<T>(xs: seq<T>, k: nat, w: T -> nat)
    requires k < |xs|
    ensures Sum(xs, w) == Sum(Without(xs, k), w) + w(xs[k])
  {
    var last := |xs| - 1;
    if k == last {
      assert Without(xs, k) == xs[..last];
    } else {
      SumWithout(xs[..last], k, w);
      assert Without(xs, k)[..last - 1] == Without(xs[..last], k);
    }
  }

  lemma {:induction false} SumUpdate<T>(xs: seq<T>, k: nat, y: T, w: T -> nat)
    requires k < |xs|
    ensures Sum(xs[k := y], w) + w(xs[k]) == Sum(xs, w) + w(y)
  {
    var last := |xs| - 1;
    if k == last {
      assert xs[k := y][..last] == xs[..last];
    } else {
      SumUpdate(xs[..last], k, y, w);
      assert xs[k := y][..last] == xs[..last][k := y];
    }
  }

  lemma {:induction false} SumPermuted<T>(a: seq<T>, b: seq<T>, w: T -> nat)
    requires multiset(a) == multiset(b)
    ensures Sum(a, w) == Sum(b, w)
    decreases |a|
  {
    if a == [] {
      assert |multiset(a)| == |multiset(b)| == |b|;
    } else {
      var k := RemoveShared(a, b);
      SumWithout(b, k, w);
      SumPermuted(a[..|a| - 1], Without(b, k), w);
    }
  }

  /** The part of the sum that belongs to one key. */
  function Share<T>(xs: seq<T>, w: T -> nat, key: T -> string): string -> nat {
    (n: string) => Sum(xs, Only(w, key, n))
  }

  function Only<T>(w: T -> nat, key: T -> string, n: string): T -> nat {
    (x: T) => if key(x) == n then w(x) else 0
  }

  predicate Distinct(names: seq<string>) { forall i, j | 0 <= i < j < |names| :: names[i] != names[j] }

  /** One more element adds its weight at the one name that is its key. */
  lemma {:induction false} ShareSnoc<T>(names: seq<string>, xs: seq<T>, x: T, w: T -> nat, key: T -> string)
    requires Distinct(names)
    ensures Sum(names, Share(xs + [x], w, key)) ==
            Sum(names, Share(xs, w, key)) + if key(x) in names then w(x) else 0
  {
    if names != [] {
      var most, n := names[..|names| - 1], names[|names| - 1];
      ShareSnoc(most, xs, x, w, key);
      SumSnoc(xs, x, Only(w, key, n));
      assert key(x) in names <==> key(x) in most || key(x) == n;
    }
  }

  /** Splitting a sum by a key loses and repeats nothing. */
  lemma {:induction false} SharesAddUp<T>(names: seq<string>, xs: seq<T>, w: T -> nat, key: T -> string)
    requires Distinct(names) && forall i | 0 <= i < |xs| :: key(xs[i]) in names
    ensures Sum(names, Share(xs, w, key)) == Sum(xs, w)
  {
    if xs == [] {
      NothingToShare(names, xs, w, key);
    } else {
      var most, x := xs[..|xs| - 1], xs[|xs| - 1];
      SharesAddUp(names, most, w, key);
      ShareSnoc(names, most, x, w, key);
      assert most + [x] == xs;
    }
  }

  lemma {:induction false} NothingToShare<T>(names: seq<string>, xs: seq<T>, w: T -> nat, key: T -> string)
    requires xs == []
    ensures Sum(names, Share(xs, w, key)) == 0
  {
    if names != [] { NothingToShare(names[..|names| - 1], xs, w, key); }
  }
}
