/** Stack distances of a memory trace, defined without reference to any algorithm. */
module Trace {
  import opened Seqs

  /** `STACKDIST_INFINITE` and `NAIVE_INFINITE`: `UINT64_MAX`. */
  const INFINITE := 0xFFFF_FFFF_FFFF_FFFF

  /** One call of the callback. */
  datatype Event = Event(index: nat, distance: int)

  /** The index of the last access to `x` before `n`, or -1. */
  function Last(p: seq<int>, x: int, n: nat): (k: int)
    requires n <= |p|
    ensures -1 <= k < n && (k >= 0 ==> p[k] == x)
    ensures forall j :: k < j < n ==> p[j] != x
  {
    if n == 0 then -1 else if p[n - 1] == x then n - 1 else Last(p, x, n - 1)
  }

  /** The addresses accessed at indices in [lo, hi). */
  function Accessed(p: seq<int>, lo: nat, hi: nat): set<int>
    requires hi <= |p|
  {
    set k | lo <= k < hi :: p[k]
  }

  /** The stack distance of access `i`: the number of distinct addresses accessed since the last
      access to the same address. */
  function Distance(p: seq<int>, i: nat): nat
    requires i < |p|
  {
    var last := Last(p, p[i], i);
    if last < 0 then INFINITE else |Accessed(p, last + 1, i)|
  }

  function Distances(p: seq<int>): (out: seq<Event>)
    ensures |out| == |p|
    ensures forall i :: 0 <= i < |p| ==> out[i] == Event(i, Distance(p, i))
  {
    seq(|p|, i requires 0 <= i < |p| => Event(i, Distance(p, i)))
  }

  // --------------------------------------------------- the move-to-front list

  function Remove(s: seq<int>, x: int): (r: seq<int>)
    ensures forall y :: y in r ==> y in s
  {
    if s == [] then [] else if s[0] == x then s[1..] else [s[0]] + Remove(s[1..], x)
  }

  /** The list of the naive algorithm after the first `n` accesses, most recent first. */
  function Recent(p: seq<int>, n: nat): seq<int>
    requires n <= |p|
  {
    if n == 0 then [] else [p[n - 1]] + Remove(Recent(p, n - 1), p[n - 1])
  }

  /** `s` lists the addresses accessed before `n`, each once, by decreasing last access. */
  ghost predicate ByRecency(s: seq<int>, p: seq<int>, n: nat)
    requires n <= |p|
  {
    NoRepeats(s) &&
    (forall x :: x in s <==> Last(p, x, n) >= 0) &&
    (forall i, j :: 0 <= i < j < |s| ==> Last(p, s[i], n) > Last(p, s[j], n))
  }

  /** Removing the element at position `d`. */
  lemma {:induction false} RemoveAt(s: seq<int>, x: int, d: nat)
    requires d < |s| && s[d] == x && forall i :: 0 <= i < d ==> s[i] != x
    ensures Remove(s, x) == s[..d] + s[d + 1..]
  {
    if d > 0 {
      RemoveAt(s[1..], x, d - 1);
      assert [s[0]] + s[1..][..d - 1] == s[..d];
    }
  }

  lemma {:induction false} RemoveAbsent(s: seq<int>, x: int)
    requires x !in s
    ensures Remove(s, x) == s
  {
    if s != [] {
      RemoveAbsent(s[1..], x);
    }
  }

  /** In a list with distinct elements, either `x` is absent or it has one position. */
  lemma {:induction false} RemoveDistinct(s: seq<int>, x: int)
    requires NoRepeats(s)
    ensures x !in s ==> Remove(s, x) == s
    ensures x in s ==> exists d :: 0 <= d < |s| && s[d] == x && Remove(s, x) == s[..d] + s[d + 1..]
  {
    if x in s {
      var d :| 0 <= d < |s| && s[d] == x;
      RemoveAt(s, x, d);
    } else {
      RemoveAbsent(s, x);
    }
  }

  lemma {:induction false} LastStep(p: seq<int>, x: int, n: nat)
    requires n < |p|
    ensures Last(p, x, n + 1) == if p[n] == x then n else Last(p, x, n)
  {
  }

  ghost predicate Decreasing(s: seq<int>, p: seq<int>, n: nat)
    requires n <= |p|
  {
    forall i, j :: 0 <= i < j < |s| ==> Last(p, s[i], n) > Last(p, s[j], n)
  }

  lemma {:induction false} DropKeeps(s: seq<int>, d: nat, p: seq<int>, n: nat)
    requires d < |s| && NoRepeats(s) && n <= |p| && Decreasing(s, p, n)
    ensures var r := s[..d] + s[d + 1..];
      NoRepeats(r) && Decreasing(r, p, n) && forall y :: y in r <==> y in s && y != s[d]
  {
    var r := s[..d] + s[d + 1..];
    assert forall i :: 0 <= i < |r| ==> r[i] == s[if i < d then i else i + 1];
    forall y ensures y in r <==> y in s && y != s[d] {
      if y in s && y != s[d] {
        var k :| 0 <= k < |s| && s[k] == y;
        assert r[if k < d then k else k - 1] == y;
      }
    }
  }

  lemma {:induction false} RemoveKeeps(s: seq<int>, x: int, p: seq<int>, n: nat)
    requires NoRepeats(s) && n <= |p| && Decreasing(s, p, n)
    ensures var r := Remove(s, x);
      NoRepeats(r) && Decreasing(r, p, n) && forall y :: y in r <==> y in s && y != x
  {
    RemoveDistinct(s, x);
    if x in s {
      var d :| 0 <= d < |s| && s[d] == x && Remove(s, x) == s[..d] + s[d + 1..];
      DropKeeps(s, d, p, n);
    }
  }

  /** An address not in the list, accessed next, precedes all of it. */
  lemma FrontKeeps(r: seq<int>, p: seq<int>, n: nat)
    requires n < |p| && NoRepeats(r) && Decreasing(r, p, n) && p[n] !in r
    ensures NoRepeats([p[n]] + r) && Decreasing([p[n]] + r, p, n + 1)
  {
    hide Last;
    var s := [p[n]] + r;
    LastStep(p, p[n], n);
    forall i | 0 <= i < |r|
      ensures s[i + 1] == r[i] != p[n] && Last(p, r[i], n + 1) == Last(p, r[i], n) < n
    {
      LastStep(p, r[i], n);
    }
    forall i, j | 0 <= i < j < |s|
      ensures s[i] != s[j] && Last(p, s[i], n + 1) > Last(p, s[j], n + 1)
    {
      assert s[j] == r[j - 1];
      if i > 0 {
        assert s[i] == r[i - 1];
      }
    }
  }

  /** Moving the accessed address to the front keeps the list ordered by recency. */
  lemma {:induction false} MoveToFront(s: seq<int>, p: seq<int>, n: nat)
    requires n < |p| && ByRecency(s, p, n)
    ensures ByRecency([p[n]] + Remove(s, p[n]), p, n + 1)
  {
    hide Last, Remove, NoRepeats;
    var x, r := p[n], Remove(s, p[n]);
    RemoveKeeps(s, x, p, n);
    FrontKeeps(r, p, n);
    forall y
      ensures y in [x] + r <==> Last(p, y, n + 1) >= 0
    {
      LastStep(p, y, n);
    }
  }

  lemma {:induction false} RecentByRecency(p: seq<int>, n: nat)
    requires n <= |p|
    ensures ByRecency(Recent(p, n), p, n)
  {
    if n > 0 {
      RecentByRecency(p, n - 1);
      MoveToFront(Recent(p, n - 1), p, n - 1);
    }
  }

  lemma {:induction false} DistinctCount(s: seq<int>)
    requires NoRepeats(s)
    ensures |set x | x in s| == |s|
  {
    if s != [] {
      DistinctCount(s[1..]);
      assert (set x | x in s) == {s[0]} + (set x | x in s[1..]);
    }
  }

  /** The position of an address in the recency list is its stack distance. */
  lemma {:induction false} DepthIsDistance(s: seq<int>, p: seq<int>, i: nat, d: nat)
    requires i < |p| && ByRecency(s, p, i) && d < |s| && s[d] == p[i]
    ensures Distance(p, i) == d && Last(p, p[i], i) >= 0
  {
    var last := Last(p, p[i], i);
    DistinctCount(s[..d]);
    forall y ensures y in Accessed(p, last + 1, i) <==> y in s[..d] {
      AboveIsRecent(s, p, i, d, y);
    }
    assert Accessed(p, last + 1, i) == set x | x in s[..d];
  }

  /** The addresses in front of position `d` are those accessed since the one at `d`. */
  lemma {:induction false} AboveIsRecent(s: seq<int>, p: seq<int>, i: nat, d: nat, y: int)
    requires i <= |p| && ByRecency(s, p, i) && d < |s|
    ensures y in Accessed(p, Last(p, s[d], i) + 1, i) <==> y in s[..d]
  {
    var last := Last(p, s[d], i);
    if y in s[..d] {
      var k :| 0 <= k < d && s[..d][k] == y;
      assert s[k] == y;
      assert last + 1 <= Last(p, y, i) < i;
    }
    if y in Accessed(p, last + 1, i) {
      var k :| last + 1 <= k < i && p[k] == y;
      assert Last(p, y, i) >= k;
      var e :| 0 <= e < |s| && s[e] == y;
      assert e < d;
      assert s[..d][e] == y;
    }
  }

  /** An address not in the recency list has not been accessed. */
  lemma {:induction false} Unseen(vs: seq<int>, p: seq<int>, i: nat)
    requires i < |p| && ByRecency(vs, p, i) && p[i] !in vs
    ensures Distance(p, i) == INFINITE
  {
  }
}
