/** Small shared vocabulary: optional values, results, and facts about sequences. */
module Basics {
  datatype Option<+T> = None | Some(value: T) {
    predicate IsFailure() { None? }

    function PropagateFailure<U>(): Option<U>
      requires None?
    {
      None
    }

    function Extract(): T
      requires Some?
    {
      value
    }
  }

  datatype Result<+T, +E> = Ok(value: T) | Err(error: E)

  const INT32_MAX := 0x7FFF_FFFF
  const INT64_MAX := 0x7FFF_FFFF_FFFF_FFFF
  const UINT64_MAX := 0xFFFF_FFFF_FFFF_FFFF

  function Min(a: int, b: int): int { if a <= b then a else b }

  function Max(a: int, b: int): int { if a >= b then a else b }

  /** Index of the first occurrence of x, or |xs| when there is none (std::find). */
  function Find<T(==)>(xs: seq<T>, x: T): (r: nat)
    ensures r <= |xs|
    ensures r < |xs| ==> xs[r] == x
    ensures forall j | 0 <= j < r :: xs[j] != x
  {
    if xs == [] then 0
    else if xs[0] == x then 0
    else
      var k := Find(xs[1..], x);
      assert forall j | 0 <= j < k + 1 :: xs[j] != x by {
        forall j | 0 <= j < k + 1 ensures xs[j] != x {
          if j > 0 { assert xs[j] == xs[1..][j - 1]; }
        }
      }
      k + 1
  }

  function Without<T>(xs: seq<T>, k: nat): seq<T>
    requires k < |xs|
  {
    xs[..k] + xs[k + 1..]
  }

  lemma WithoutCounts<T>(xs: seq<T>, k: nat)
    requires k < |xs|
    ensures multiset(Without(xs, k)) == multiset(xs) - multiset{xs[k]}
  {
    assert xs == xs[..k] + [xs[k]] + xs[k + 1..];
  }

  /** Taking the same element out of two rearrangements of each other. */
  lemma RemoveShared<T>(a: seq<T>, b: seq<T>) returns (k: nat)
    requires a != [] && multiset(a) == multiset(b)
    ensures k < |b| && b[k] == a[|a| - 1]
    ensures multiset(a[..|a| - 1]) == multiset(Without(b, k))
  {
    var x := a[|a| - 1];
    assert x in multiset(b);
    k :| 0 <= k < |b| && b[k] == x;
    WithoutCounts(b, k);
    WithoutCounts(a, |a| - 1);
    assert Without(a, |a| - 1) == a[..|a| - 1];
  }
}
