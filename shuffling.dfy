/**
  The Fisher–Yates shuffle of `shuffle` in caifan-tournament/components/Tournament.tsx
  (and the loop of the same shape behind Python's `random.shuffle`).  The random
  source is replaced by a sequence of draws: at step `i` (from the last index down
  to 1) the swap partner is `draws[i]`, a number between 0 and `i`, which is exactly
  the range of `Math.floor(Math.random() * (i + 1))`.
*/
module Shuffling {

  /** `draws` supplies one admissible swap partner for each of `n` positions. */
  predicate ValidDraws(draws: seq<int>, n: nat)
  {
    |draws| == n && forall i :: 0 <= i < n ==> 0 <= draws[i] <= i
  }

  /** `s` with the elements at `i` and `j` exchanged. */
  function Swap<T>(s: seq<T>, i: int, j: int): (r: seq<T>)
    requires 0 <= i < |s| && 0 <= j < |s|
    ensures |r| == |s|
  {
    s[i := s[j]][j := s[i]]
  }

  lemma SwapPermutes<T>(s: seq<T>, i: int, j: int)
    requires 0 <= i < |s| && 0 <= j < |s|
    ensures multiset(Swap(s, i, j)) == multiset(s)
  {
  }

  /** What the shuffle loop leaves behind when it starts at index `i` on `s`. */
  function Steps<T>(s: seq<T>, draws: seq<int>, i: int): (r: seq<T>)
    requires i < |s| && i < |draws|
    requires forall k :: 0 <= k <= i ==> 0 <= draws[k] <= k
    ensures |r| == |s|
    decreases i
  {
    if i <= 0 then s else Steps(Swap(s, i, draws[i]), draws, i - 1)
  }

  /** The permutation that the draws select. */
  function Shuffled<T>(s: seq<T>, draws: seq<int>): (r: seq<T>)
    requires ValidDraws(draws, |s|)
    ensures |r| == |s|
  {
    Steps(s, draws, |s| - 1)
  }

  lemma {:induction false} StepsPermutes<T>(s: seq<T>, draws: seq<int>, i: int)
    requires i < |s| && i < |draws|
    requires forall k :: 0 <= k <= i ==> 0 <= draws[k] <= k
    ensures |Steps(s, draws, i)| == |s|
    ensures multiset(Steps(s, draws, i)) == multiset(s)
    decreases i
  {
    if i > 0 {
      var swapped := Swap(s, i, draws[i]);
      StepsPermutes(swapped, draws, i - 1);
      assert Steps(s, draws, i) == Steps(swapped, draws, i - 1);
      SwapPermutes(s, i, draws[i]);
    }
  }

  /** Whatever the draws, the shuffle is a permutation of its input. */
  lemma ShuffledPermutes<T>(s: seq<T>, draws: seq<int>)
    requires ValidDraws(draws, |s|)
    ensures |Shuffled(s, draws)| == |s|
    ensures multiset(Shuffled(s, draws)) == multiset(s)
  {
    StepsPermutes(s, draws, |s| - 1);
  }

  /** A swap inside `p` leaves a suffix `q` where it was. */
  lemma SwapInPrefix<T>(p: seq<T>, q: seq<T>, i: int, j: int)
    requires 0 <= i < |p| && 0 <= j < |p|
    ensures Swap(p + q, i, j) == Swap(p, i, j) + q
  {
    var whole, front := Swap(p + q, i, j), Swap(p, i, j);
    assert |whole| == |front + q|;
    forall k | 0 <= k < |whole| ensures whole[k] == (front + q)[k] {
      if k < |p| {
        assert (p + q)[k] == p[k];
      } else {
        assert (p + q)[k] == q[k - |p|];
      }
    }
  }

  /** The steps up to index `i` touch only the first `i + 1` positions and read
      only the first `i + 1` draws. */
  lemma {:induction false} StepsOnPrefix<T>(p: seq<T>, q: seq<T>, d: seq<int>, e: seq<int>, i: int)
    requires i < |p| && i < |d| && i < |e|
    requires forall k :: 0 <= k <= i ==> d[k] == e[k] && 0 <= d[k] <= k
    ensures Steps(p + q, d, i) == Steps(p, e, i) + q
    decreases i
  {
    if i > 0 {
      var j := d[i];
      var whole, front := Swap(p + q, i, j), Swap(p, i, j);
      SwapInPrefix(p, q, i, j);
      StepsOnPrefix(front, q, d, e, i - 1);
      calc {
        Steps(p + q, d, i);
        Steps(whole, d, i - 1);
        Steps(front + q, d, i - 1);
        Steps(front, e, i - 1) + q;
        Steps(p, e, i) + q;
      }
    } else {
      assert Steps(p + q, d, i) == p + q;
      assert Steps(p, e, i) == p;
    }
  }

  /** One more draw in front: swapping the last position with `j` and then
      shuffling the rest. */
  lemma ShuffledExtend<T>(s: seq<T>, j: int, e: seq<int>)
    requires |s| >= 1 && 0 <= j < |s| && ValidDraws(e, |s| - 1)
    ensures ValidDraws(e + [j], |s|)
    ensures Shuffled(s, e + [j]) == Shuffled(Swap(s, |s| - 1, j)[..|s| - 1], e) + [s[j]]
  {
    var n, d := |s|, e + [j];
    var s1 := Swap(s, n - 1, j);
    var p := s1[..n - 1];
    assert s1[n - 1] == s[j];
    SplitLast(s1);
    if n >= 2 {
      StepsOnPrefix(p, [s[j]], d, e, n - 2);
      assert Shuffled(s, d) == Steps(s1, d, n - 2);
    } else {
      assert s == s1;
    }
  }

  /** A non-empty sequence is its front followed by its last element. */
  lemma SplitLast<T>(s: seq<T>)
    requires |s| >= 1
    ensures s == s[..|s| - 1] + [s[|s| - 1]]
  {
  }

  /** Equal multisets stay equal once the same last element is dropped. */
  lemma DropLast<T>(p: seq<T>, u: seq<T>, x: T)
    requires multiset(p + [x]) == multiset(u + [x])
    ensures multiset(p) == multiset(u)
  {
    assert multiset(p + [x]) == multiset(p) + multiset{x};
    assert multiset(u + [x]) == multiset(u) + multiset{x};
    forall y ensures multiset(p)[y] == multiset(u)[y] {
      assert (multiset(p) + multiset{x})[y] == (multiset(u) + multiset{x})[y];
    }
  }

  /** Some swap brings the last element of a permutation `t` of `s` into place. */
  lemma LastIntoPlace<T>(s: seq<T>, t: seq<T>) returns (j: int)
    requires multiset(s) == multiset(t) && |s| >= 1
    ensures |t| == |s| && 0 <= j < |s| && s[j] == t[|s| - 1]
    ensures multiset(Swap(s, |s| - 1, j)[..|s| - 1]) == multiset(t[..|s| - 1])
  {
    var n := |s|;
    assert |t| == n by { assert |multiset(s)| == |s| && |multiset(t)| == |t|; }
    var x := t[n - 1];
    assert x in s by { assert x in multiset(t); }
    j :| 0 <= j < n && s[j] == x;
    var s1 := Swap(s, n - 1, j);
    SwapPermutes(s, n - 1, j);
    assert s1[n - 1] == x;
    SplitLast(s1);
    SplitLast(t);
    DropLast(s1[..n - 1], t[..n - 1], x);
  }

  /** Every ordering of the input is the outcome of some admissible draws, which
      the lemma returns: the shuffle can produce any permutation. */
  lemma {:induction false} EveryOrderReachable<T>(s: seq<T>, t: seq<T>) returns (d: seq<int>)
    requires multiset(s) == multiset(t)
    ensures ValidDraws(d, |s|) && Shuffled(s, d) == t
    decreases |s|
  {
    if |s| == 0 {
      assert t == [] by { assert |multiset(t)| == |t|; }
      d := [];
    } else {
      var n := |s|;
      var j := LastIntoPlace(s, t);
      var p := Swap(s, n - 1, j)[..n - 1];
      var e := EveryOrderReachable(p, t[..n - 1]);
      ShuffledExtend(s, j, e);
      d := e + [j];
      calc {
        Shuffled(s, e + [j]);
        Shuffled(p, e) + [s[j]];
        t[..n - 1] + [t[n - 1]];
        t;
      }
    }
  }

  /** The `shuffle` function: copy the input into a fresh array, then swap from the
      back, position `i` with position `draws[i]`.  The input is a value, so it is
      left as it was; `ShuffledPermutes` shows the result is a permutation of it. */
  method Shuffle<T>(arr: seq<T>, draws: seq<int>) returns (r: seq<T>)
    requires ValidDraws(draws, |arr|)
    ensures r == Shuffled(arr, draws) && |r| == |arr|
  {
    var a := new T[|arr|](k requires 0 <= k < |arr| => arr[k]);
    assert a[..] == arr;
    var i := a.Length - 1;
    while i > 0
      invariant -1 <= i < a.Length
      invariant Steps(a[..], draws, i) == Shuffled(arr, draws)
    {
      var j := draws[i];
      ghost var before := a[..];
      var held := a[i];
      a[i] := a[j];
      a[j] := held;
      assert a[..] == Swap(before, i, j);
      i := i - 1;
    }
    r := a[..];
    ShuffledPermutes(arr, draws);
  }
}
