/** Facts about sequences and sizes that both bracket models share. */
module Sequences {

  /** No element occurs twice in `s`, stated through its multiset so that
      permutations and sub-multisets inherit it directly. */
  ghost predicate Distinct<T(!new)>(s: seq<T>)
  {
    forall x :: multiset(s)[x] <= 1
  }

  /** The positional form of distinctness: no two positions hold the same value. */
  ghost predicate DistinctAt<T>(s: seq<T>)
  {
    forall i, j :: 0 <= i < j < |s| ==> s[i] != s[j]
  }

  /** The positional form implies the multiset form. */
  lemma {:induction false} DistinctAtIsDistinct<T(!new)>(s: seq<T>)
    requires DistinctAt(s)
    ensures Distinct(s)
  {
    if s != [] {
      var init, last := s[..|s| - 1], s[|s| - 1];
      assert s == init + [last];
      assert DistinctAt(init);
      DistinctAtIsDistinct(init);
      assert forall i :: 0 <= i < |init| ==> init[i] != last by {
        forall i | 0 <= i < |init| ensures init[i] != last {
          assert s[i] != s[|s| - 1];
        }
      }
      assert last !in init;
      assert multiset(init)[last] == 0;
    }
  }

  /** Taking elements away from a sequence without duplicates keeps it so. */
  lemma DistinctSub<T(!new)>(s: seq<T>, t: seq<T>)
    requires Distinct(s) && multiset(t) <= multiset(s)
    ensures Distinct(t)
  {
    forall x ensures multiset(t)[x] <= 1 {
      assert multiset(t)[x] <= multiset(s)[x];
    }
  }

  /** An element of a sequence whose multiset lies within that of `u` is in `u`. */
  lemma InSub<T>(x: T, s: seq<T>, u: seq<T>)
    requires x in s && multiset(s) <= multiset(u)
    ensures x in u
  {
    assert x in multiset(s);
  }

  /** `n` is 1, 2, 4, 8, ... */
  predicate IsPow2(n: int)
    decreases n
  {
    n == 1 || (n >= 2 && n % 2 == 0 && IsPow2(n / 2))
  }

  /** A power of two other than 1 halves to a power of two. */
  lemma HalfOfPow2(n: int)
    requires IsPow2(n) && n >= 2
    ensures IsPow2(n / 2) && n % 2 == 0 && n / 2 >= 1
  {
  }
}
