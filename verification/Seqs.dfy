/** Small notions shared by the list and table modules. */
module Seqs {
  /** No element occurs twice. */
  ghost predicate NoRepeats<T>(s: seq<T>) {
    forall i, j :: 0 <= i < j < |s| ==> s[i] != s[j]
  }

  /** `s` without its element at `d`. */
  ghost function Without<T>(s: seq<T>, d: nat): seq<T>
    requires d < |s|
  {
    s[..d] + s[d + 1..]
  }

  function Min(a: int, b: int): int {
    if a < b then a else b
  }

  /** lo, lo + 1, ..., lo + n - 1. */
  function Consecutive(lo: nat, n: nat): seq<nat> {
    seq(n, i requires 0 <= i < n => lo + i)
  }

  lemma ConsecutiveSplit(lo: nat, m: nat, n: nat)
    ensures Consecutive(lo, m + n) == Consecutive(lo, m) + Consecutive(lo + m, n)
    ensures multiset(Consecutive(lo, m + n)) == multiset(Consecutive(lo, m)) + multiset(Consecutive(lo + m, n))
  {
  }

  ghost function Image<T, U>(a: set<T>, f: T -> U): set<U> {
    set x | x in a :: f(x)
  }

  /** An image is no larger than the set, and as large if no two elements have the same image. */
  lemma {:induction false} ImageSize<T, U>(a: set<T>, f: T -> U)
    ensures |Image(a, f)| <= |a|
    ensures (forall x, y | x in a && y in a && f(x) == f(y) :: x == y) ==> |Image(a, f)| == |a|
    decreases a
  {
    if x :| x in a {
      var b := a - {x};
      ImageSize(b, f);
      assert Image(a, f) == Image(b, f) + {f(x)};
    } else {
      assert Image(a, f) == {};
    }
  }
}
