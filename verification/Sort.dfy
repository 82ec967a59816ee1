/** The in-place merge sort of uthash.h over the application-order list.

    Positions in the list before the sort stand for its entries, so that stability can be stated: of
    two entries that compare equal, the one with the smaller position comes first. */
module Sort {
  import opened Seqs
  import opened Uthash

  /** What the comparison function sees of an entry. */
  datatype Item = Item(k: int, v: int)

  type Compare = (Item, Item) -> int

  ghost predicate TotalPreorder(cmp: Compare) {
    (forall x, y :: cmp(x, y) <= 0 || cmp(y, x) <= 0) &&
    forall x, y, z :: cmp(x, y) <= 0 && cmp(y, z) <= 0 ==> cmp(x, z) <= 0
  }

  // -------------------------------------------------------------- pure sorting

  predicate Within(it: seq<Item>, s: seq<nat>) {
    forall i: nat | i < |s| :: s[i] < |it|
  }

  /** Position `x` belongs before position `y`. */
  ghost predicate Precedes(cmp: Compare, it: seq<Item>, x: nat, y: nat)
    requires x < |it| && y < |it|
  {
    cmp(it[x], it[y]) <= 0 && (cmp(it[y], it[x]) <= 0 ==> x < y)
  }

  ghost predicate Sorted(cmp: Compare, it: seq<Item>, s: seq<nat>) {
    Within(it, s) && forall i: nat, j: nat | i < j < |s| :: Precedes(cmp, it, s[i], s[j])
  }

  /** Merging two runs; of equal items the one of `a` comes first. */
  ghost function Merge(cmp: Compare, it: seq<Item>, a: seq<nat>, b: seq<nat>): seq<nat>
    requires Within(it, a) && Within(it, b)
    decreases |a| + |b|
  {
    if a == [] then b
    else if b == [] then a
    else if cmp(it[a[0]], it[b[0]]) <= 0 then [a[0]] + Merge(cmp, it, a[1..], b)
    else [b[0]] + Merge(cmp, it, a, b[1..])
  }

  /** One pass: runs of length `w` are merged in pairs. */
  ghost function Pass(cmp: Compare, it: seq<Item>, s: seq<nat>, w: nat): seq<nat>
    requires w > 0 && Within(it, s)
  {
    if s == [] then [] else
      var m := Min(w, |s|);
      var t := s[m..];
      var k := Min(w, |t|);
      Merge(cmp, it, s[..m], t[..k]) + Pass(cmp, it, t[k..], w)
  }

  /** `a` holds the consecutive positions from `lo` on, in sorted order. */
  ghost predicate IsRun(cmp: Compare, it: seq<Item>, a: seq<nat>, lo: nat) {
    Sorted(cmp, it, a) && multiset(a) == multiset(Consecutive(lo, |a|))
  }

  /** `s` holds the positions from `lo` on, as runs of length `w`. */
  ghost predicate Runs(cmp: Compare, it: seq<Item>, s: seq<nat>, w: nat, lo: nat)
    requires w > 0
    decreases |s|
  {
    s == [] ||
    var m := Min(w, |s|);
    IsRun(cmp, it, s[..m], lo) && Runs(cmp, it, s[m..], w, lo + m)
  }

  lemma PrecedesTrans(cmp: Compare, it: seq<Item>, x: nat, y: nat, z: nat)
    requires TotalPreorder(cmp) && x < |it| && y < |it| && z < |it|
    requires Precedes(cmp, it, x, y) && Precedes(cmp, it, y, z)
    ensures Precedes(cmp, it, x, z)
  {
  }

  lemma Head(a: seq<nat>)
    requires a != []
    ensures multiset(a) == multiset{a[0]} + multiset(a[1..])
  {
    assert a == [a[0]] + a[1..];
  }

  lemma Cons(x: nat, s: seq<nat>)
    ensures multiset([x] + s) == multiset{x} + multiset(s)
  {
  }

  lemma {:induction false} MergeElements(cmp: Compare, it: seq<Item>, a: seq<nat>, b: seq<nat>)
    requires Within(it, a) && Within(it, b)
    ensures multiset(Merge(cmp, it, a, b)) == multiset(a) + multiset(b)
    ensures |Merge(cmp, it, a, b)| == |a| + |b|
    decreases |a| + |b|
  {
    if a != [] && b != [] {
      if cmp(it[a[0]], it[b[0]]) <= 0 {
        MergeElements(cmp, it, a[1..], b);
        Head(a);
        Cons(a[0], Merge(cmp, it, a[1..], b));
      } else {
        MergeElements(cmp, it, a, b[1..]);
        Head(b);
        Cons(b[0], Merge(cmp, it, a, b[1..]));
      }
    }
  }

  /** A merge holds the elements of both runs. */
  lemma MergeHolds(cmp: Compare, it: seq<Item>, a: seq<nat>, b: seq<nat>)
    requires Within(it, a) && Within(it, b)
    ensures multiset(Merge(cmp, it, a, b)) == multiset(a) + multiset(b)
    ensures Within(it, Merge(cmp, it, a, b)) && |Merge(cmp, it, a, b)| == |a| + |b|
  {
    hide Merge;
    MergeElements(cmp, it, a, b);
    var m := Merge(cmp, it, a, b);
    forall i: nat | i < |m|
      ensures m[i] < |it|
    {
      assert m[i] in multiset(m);
      assert m[i] in a || m[i] in b;
    }
  }

  lemma PrependSorted(cmp: Compare, it: seq<Item>, x: nat, s: seq<nat>)
    requires Sorted(cmp, it, s) && x < |it|
    requires forall y | y in s :: y < |it| && Precedes(cmp, it, x, y)
    ensures Sorted(cmp, it, [x] + s)
  {
  }

  lemma InMerge(cmp: Compare, it: seq<Item>, a: seq<nat>, b: seq<nat>, y: nat)
    requires Within(it, a) && Within(it, b) && y in Merge(cmp, it, a, b)
    ensures y in a || y in b
  {
    MergeHolds(cmp, it, a, b);
    assert y in multiset(Merge(cmp, it, a, b));
  }

  ghost predicate Below(a: seq<nat>, b: seq<nat>) {
    forall i: nat, j: nat | i < |a| && j < |b| :: a[i] < b[j]
  }

  /** Merging sorted runs, the first of earlier positions, gives a sorted run. */
  lemma {:induction false} MergeSorted(cmp: Compare, it: seq<Item>, a: seq<nat>, b: seq<nat>)
    requires TotalPreorder(cmp) && Sorted(cmp, it, a) && Sorted(cmp, it, b)
    requires Below(a, b)
    ensures Sorted(cmp, it, Merge(cmp, it, a, b))
    decreases |a| + |b|
  {
    if a != [] && b != [] {
      if cmp(it[a[0]], it[b[0]]) <= 0 {
        MergeSorted(cmp, it, a[1..], b);
        forall y | y in Merge(cmp, it, a[1..], b)
          ensures y < |it| && Precedes(cmp, it, a[0], y)
        {
          InMerge(cmp, it, a[1..], b, y);
          FirstPrecedes(cmp, it, a, b, y);
        }
        PrependSorted(cmp, it, a[0], Merge(cmp, it, a[1..], b));
      } else {
        MergeSorted(cmp, it, a, b[1..]);
        forall y | y in Merge(cmp, it, a, b[1..])
          ensures y < |it| && Precedes(cmp, it, b[0], y)
        {
          InMerge(cmp, it, a, b[1..], y);
          SecondPrecedes(cmp, it, a, b, y);
        }
        PrependSorted(cmp, it, b[0], Merge(cmp, it, a, b[1..]));
      }
    }
  }

  lemma FirstPrecedes(cmp: Compare, it: seq<Item>, a: seq<nat>, b: seq<nat>, y: nat)
    requires TotalPreorder(cmp) && Sorted(cmp, it, a) && Sorted(cmp, it, b) && a != [] && b != []
    requires cmp(it[a[0]], it[b[0]]) <= 0 && Below(a, b)
    requires y in a[1..] || y in b
    ensures y < |it| && Precedes(cmp, it, a[0], y)
  {
    hide TotalPreorder;
    if y in b {
      assert Precedes(cmp, it, a[0], b[0]);
      var j: nat :| j < |b| && b[j] == y;
      if j > 0 {
        PrecedesTrans(cmp, it, a[0], b[0], y);
      }
    } else {
      var j: nat :| j < |a[1..]| && a[1..][j] == y;
      assert a[j + 1] == y;
    }
  }

  lemma SecondPrecedes(cmp: Compare, it: seq<Item>, a: seq<nat>, b: seq<nat>, y: nat)
    requires TotalPreorder(cmp) && Sorted(cmp, it, a) && Sorted(cmp, it, b) && a != [] && b != []
    requires cmp(it[a[0]], it[b[0]]) > 0 && (y in a || y in b[1..])
    ensures y < |it| && Precedes(cmp, it, b[0], y)
  {
    if y in a {
      assert Precedes(cmp, it, b[0], a[0]);
      var j: nat :| j < |a| && a[j] == y;
      if j > 0 {
        PrecedesTrans(cmp, it, b[0], a[0], y);
      }
    } else {
      var j: nat :| j < |b[1..]| && b[1..][j] == y;
      assert b[j + 1] == y;
    }
  }

  lemma Unfold(cmp: Compare, it: seq<Item>, s: seq<nat>, w: nat, lo: nat)
    requires w > 0 && Runs(cmp, it, s, w, lo) && s != []
    ensures var m := Min(w, |s|);
      IsRun(cmp, it, s[..m], lo) && Runs(cmp, it, s[m..], w, lo + m)
  {
  }

  lemma Fold(cmp: Compare, it: seq<Item>, a: seq<nat>, rest: seq<nat>, w: nat, lo: nat)
    requires w > 0 && a != [] && |a| == Min(w, |a| + |rest|)
    requires IsRun(cmp, it, a, lo) && Runs(cmp, it, rest, w, lo + |a|)
    ensures Runs(cmp, it, a + rest, w, lo)
  {
    hide IsRun;
    var s := a + rest;
    assert s[..|a|] == a && s[|a|..] == rest;
  }

  lemma SortedWithin(cmp: Compare, it: seq<Item>, s: seq<nat>)
    requires Sorted(cmp, it, s)
    ensures Within(it, s)
  {
  }

  lemma WithinConcat(it: seq<Item>, a: seq<nat>, b: seq<nat>)
    requires Within(it, a) && Within(it, b)
    ensures Within(it, a + b) && multiset(a + b) == multiset(a) + multiset(b)
  {
  }

  lemma {:induction false} RunsWithin(cmp: Compare, it: seq<Item>, s: seq<nat>, w: nat, lo: nat)
    requires w > 0 && Runs(cmp, it, s, w, lo)
    ensures Within(it, s) && multiset(s) == multiset(Consecutive(lo, |s|))
    decreases |s|
  {
    hide Runs, Sorted, Within, Consecutive;
    if s == [] {
      NoRange(it, lo);
    } else {
      var m := Min(w, |s|);
      Unfold(cmp, it, s, w, lo);
      RunsWithin(cmp, it, s[m..], w, lo + m);
      ConsecutiveSplit(lo, m, |s| - m);
      SortedWithin(cmp, it, s[..m]);
      WithinConcat(it, s[..m], s[m..]);
      assert s == s[..m] + s[m..];
    }
  }

  lemma NoRange(it: seq<Item>, lo: nat)
    ensures Within(it, []) && Consecutive(lo, 0) == []
  {
  }

  lemma RangeBelow(a: seq<nat>, b: seq<nat>, lo: nat)
    requires multiset(a) == multiset(Consecutive(lo, |a|)) && multiset(b) == multiset(Consecutive(lo + |a|, |b|))
    ensures Below(a, b)
  {
    forall i: nat, j: nat | i < |a| && j < |b|
      ensures a[i] < b[j]
    {
      InRange(a, lo, a[i]);
      InRange(b, lo + |a|, b[j]);
    }
  }

  lemma InRange(s: seq<nat>, lo: nat, x: nat)
    requires multiset(s) == multiset(Consecutive(lo, |s|)) && x in s
    ensures lo <= x < lo + |s|
  {
    assert x in multiset(s);
    assert x in Consecutive(lo, |s|);
  }

  /** Merging two adjacent runs gives one over the positions of both. */
  lemma RunPair(cmp: Compare, it: seq<Item>, a: seq<nat>, b: seq<nat>, lo: nat)
    requires TotalPreorder(cmp) && IsRun(cmp, it, a, lo) && IsRun(cmp, it, b, lo + |a|)
    ensures Within(it, a) && Within(it, b)
    ensures |Merge(cmp, it, a, b)| == |a| + |b| && IsRun(cmp, it, Merge(cmp, it, a, b), lo)
  {
    hide TotalPreorder, Sorted, Consecutive, Below, Within, Merge;
    SortedWithin(cmp, it, a);
    SortedWithin(cmp, it, b);
    RangeBelow(a, b, lo);
    MergeSorted(cmp, it, a, b);
    MergeHolds(cmp, it, a, b);
    ConsecutiveSplit(lo, |a|, |b|);
  }

  /** The second run, empty if the first is the whole list. */
  lemma SecondRun(cmp: Compare, it: seq<Item>, s: seq<nat>, w: nat, lo: nat)
    requires w > 0 && Runs(cmp, it, s, w, lo)
    ensures var m := Min(w, |s|);
      IsRun(cmp, it, s[..m], lo) && Runs(cmp, it, s[m..], w, lo + m)
  {
    hide IsRun, Runs;
    if s == [] {
      NoRun(cmp, it, lo);
      NoRuns(cmp, it, w, lo);
    } else {
      Unfold(cmp, it, s, w, lo);
    }
  }

  lemma PassStep(cmp: Compare, it: seq<Item>, s: seq<nat>, w: nat)
    requires w > 0 && Within(it, s) && s != []
    ensures var m := Min(w, |s|); var t := s[m..]; var k := Min(w, |t|);
      Within(it, s[..m]) && Within(it, t[..k]) && Within(it, t[k..]) &&
      Pass(cmp, it, s, w) == Merge(cmp, it, s[..m], t[..k]) + Pass(cmp, it, t[k..], w)
  {
    hide Merge;
  }

  /** A pass doubles the length of the runs. */
  lemma {:induction false} PassDoubles(cmp: Compare, it: seq<Item>, s: seq<nat>, w: nat, lo: nat)
    requires TotalPreorder(cmp) && w > 0 && Runs(cmp, it, s, w, lo)
    ensures Within(it, s) && |Pass(cmp, it, s, w)| == |s|
    ensures Runs(cmp, it, Pass(cmp, it, s, w), 2 * w, lo)
    decreases |s|
  {
    hide TotalPreorder, IsRun, Runs, Merge, Within, Pass;
    RunsWithin(cmp, it, s, w, lo);
    if s == [] {
      NoRuns(cmp, it, w, lo);
      NoRuns(cmp, it, 2 * w, lo);
    } else {
      var m := Min(w, |s|);
      var t := s[m..];
      var k := Min(w, |t|);
      var a, b, rest := s[..m], t[..k], t[k..];
      SecondRun(cmp, it, s, w, lo);
      SecondRun(cmp, it, t, w, lo + m);
      RunPair(cmp, it, a, b, lo);
      PassDoubles(cmp, it, rest, w, lo + m + k);
      PassStep(cmp, it, s, w);
      Fold(cmp, it, Merge(cmp, it, a, b), Pass(cmp, it, rest, w), 2 * w, lo);
    }
  }

  lemma NoRuns(cmp: Compare, it: seq<Item>, w: nat, lo: nat)
    requires w > 0
    ensures Runs(cmp, it, [], w, lo) && Within(it, []) && Pass(cmp, it, [], w) == []
  {
  }

  lemma NoRun(cmp: Compare, it: seq<Item>, lo: nat)
    ensures IsRun(cmp, it, [], lo)
  {
    assert Consecutive(lo, 0) == [];
  }

  /** A list is made of runs of length 1. */
  lemma {:induction false} SingleRuns(cmp: Compare, it: seq<Item>, lo: nat, n: nat)
    requires lo + n <= |it|
    ensures Runs(cmp, it, Consecutive(lo, n), 1, lo)
    decreases n
  {
    if n > 0 {
      SingleRuns(cmp, it, lo + 1, n - 1);
      assert Consecutive(lo, n)[..1] == Consecutive(lo, 1) && Consecutive(lo, n)[1..] == Consecutive(lo + 1, n - 1);
    }
  }

  /** Once a run is as long as the list, the list is sorted. */
  lemma OneRun(cmp: Compare, it: seq<Item>, s: seq<nat>, w: nat)
    requires w >= |s| && w > 0 && Runs(cmp, it, s, w, 0)
    ensures Sorted(cmp, it, s) && multiset(s) == multiset(Consecutive(0, |s|))
  {
    RunsWithin(cmp, it, s, w, 0);
    if s != [] {
      assert s[..|s|] == s;
    }
  }

  // ------------------------------------------------------------------ the list

  /** Positions in `ix` are distinct and below `n`. */
  ghost predicate Positions(n: nat, ix: seq<nat>) {
    (forall i: nat | i < |ix| :: ix[i] < n) && forall i: nat, j: nat | i < j < |ix| :: ix[i] != ix[j]
  }

  ghost predicate Disjoint(a: seq<nat>, b: seq<nat>) {
    forall i: nat, j: nat | i < |a| && j < |b| :: a[i] != b[j]
  }

  /** The merged part, the run being merged, and the rest of the list share no entry. */
  ghost predicate Apart(n: nat, out: seq<nat>, run: seq<nat>, rest: seq<nat>) {
    Positions(n, out) && Positions(n, run) && Positions(n, rest) &&
    Disjoint(out, run) && Disjoint(out, rest) && Disjoint(run, rest)
  }

  ghost function Get(ix: seq<nat>, i: int): int {
    if 0 <= i < |ix| then ix[i] else -1
  }

  /** Links as positions; -1 stands for null. */
  ghost predicate Links(n: nat, nx: seq<int>) {
    |nx| == n && forall i: nat | i < n :: -1 <= nx[i] < n
  }

  /** The next links follow `run`; the last one may lead anywhere. */
  ghost predicate Part(nx: seq<int>, run: seq<nat>) {
    forall i: nat | i + 1 < |run| && run[i] < |nx| :: nx[run[i]] == run[i + 1]
  }

  /** The next links follow `rest` to the end of the list. */
  ghost predicate Ends(nx: seq<int>, rest: seq<nat>) {
    forall i: nat | i < |rest| && rest[i] < |nx| :: nx[rest[i]] == Get(rest, i + 1)
  }

  /** The previous links follow `out` back. */
  ghost predicate Back(pv: seq<int>, out: seq<nat>) {
    forall i: nat | i < |out| && out[i] < |pv| :: pv[out[i]] == Get(out, i - 1)
  }

  ghost function NextAfter(nx: seq<int>, out: seq<nat>, x: nat): seq<int> {
    if out != [] && out[|out| - 1] < |nx| then nx[out[|out| - 1] := x] else nx
  }

  ghost function PrevAfter(pv: seq<int>, out: seq<nat>, x: nat): seq<int> {
    if x < |pv| then pv[x := Get(out, |out| - 1)] else pv
  }

  lemma AllBut(n: nat, out: seq<nat>, x: nat)
    requires Positions(n, out + [x])
    ensures x < n && forall i: nat | i < |out| :: out[i] != x && out[i] < n
  {
    var all := out + [x];
    assert all[|out|] == x && forall i: nat | i < |out| :: all[i] == out[i];
  }

  lemma AppendNext(n: nat, nx: seq<int>, out: seq<nat>, x: nat)
    requires Links(n, nx) && Positions(n, out + [x]) && Positions(n, out) && Part(nx, out)
    ensures Links(n, NextAfter(nx, out, x)) && Part(NextAfter(nx, out, x), out + [x])
  {
    AllBut(n, out, x);
    hide Positions;
    var all, nx' := out + [x], NextAfter(nx, out, x);
    forall i: nat | i + 1 < |all|
      ensures nx'[all[i]] == all[i + 1]
    {
      if i + 1 < |out| {
        OtherPlace(n, out, i, |out| - 1);
      }
    }
  }

  lemma OtherPlace(n: nat, out: seq<nat>, i: nat, j: nat)
    requires Positions(n, out) && i < j < |out|
    ensures out[i] != out[j]
  {
  }

  lemma AppendPrev(n: nat, pv: seq<int>, out: seq<nat>, x: nat)
    requires Links(n, pv) && Positions(n, out + [x]) && Back(pv, out)
    ensures Links(n, PrevAfter(pv, out, x)) && Back(PrevAfter(pv, out, x), out + [x])
  {
    AllBut(n, out, x);
    hide Positions;
    var all, pv' := out + [x], PrevAfter(pv, out, x);
    forall i: nat | i < |all|
      ensures pv'[all[i]] == Get(all, i - 1)
    {
      if i < |out| {
        assert all[i] == out[i] && pv[out[i]] == Get(out, i - 1) == Get(all, i - 1);
      }
    }
  }

  /** Linking `x` behind `out` leaves the other parts alone. */
  lemma AppendRest(n: nat, nx: seq<int>, out: seq<nat>, x: nat, run: seq<nat>, rest: seq<nat>)
    requires Links(n, nx) && Apart(n, out + [x], run, rest) && Part(nx, run) && Ends(nx, rest)
    ensures Part(NextAfter(nx, out, x), run) && Ends(NextAfter(nx, out, x), rest)
  {
    if out != [] {
      assert (out + [x])[|out| - 1] == out[|out| - 1];
    }
  }

  lemma TakeRun(n: nat, out: seq<nat>, run: seq<nat>, rest: seq<nat>)
    requires Apart(n, out, run, rest) && run != []
    ensures Apart(n, out + [run[0]], run[1..], rest)
  {
  }

  lemma TakeRest(n: nat, out: seq<nat>, run: seq<nat>, rest: seq<nat>)
    requires Apart(n, out, run, rest) && rest != []
    ensures Apart(n, out + [rest[0]], run, rest[1..])
  {
  }

  // ------------------------------------------------------------------ the heap

  /** The links of the entries are `nx` and `pv`. */
  ghost predicate Heap(s0: seq<Entry>, nx: seq<int>, pv: seq<int>)
    reads s0`next, s0`prev
  {
    NoRepeats(s0) && Links(|s0|, nx) && Links(|s0|, pv) &&
    forall i: nat | i < |s0| :: s0[i].next == At(s0, nx[i]) && s0[i].prev == At(s0, pv[i])
  }

  /** Links `e` behind the list built so far. */
  method Append(list: Entry?, tail: Entry?, e: Entry, ghost s0: seq<Entry>, ghost out: seq<nat>, ghost x: nat,
                ghost nx: seq<int>, ghost pv: seq<int>)
    returns (list': Entry?)
    requires Heap(s0, nx, pv) && Positions(|s0|, out + [x]) && x < |s0| && e == s0[x]
    requires list == At(s0, Get(out, 0)) && tail == At(s0, Get(out, |out| - 1))
    modifies s0`next, s0`prev
    ensures Heap(s0, NextAfter(nx, out, x), PrevAfter(pv, out, x))
    ensures list' == At(s0, Get(out + [x], 0))
  {
    assert forall i: nat | i < |out| :: (out + [x])[i] == out[i];
    list' := list;
    if tail != null {
      tail.next := e;
    } else {
      list' := e;
    }
    e.prev := tail;
  }

  /** In the middle of a merge: `out` is built, `run` is what is left of the first run, `rest` is the
      list from the second run on. */
  ghost predicate Merging(n: nat, nx: seq<int>, pv: seq<int>, out: seq<nat>, run: seq<nat>, rest: seq<nat>) {
    Links(n, nx) && Links(n, pv) && Apart(n, out, run, rest) &&
    Part(nx, out) && Back(pv, out) && Part(nx, run) && Ends(nx, rest)
  }

  lemma MergingRun(n: nat, nx: seq<int>, pv: seq<int>, out: seq<nat>, run: seq<nat>, rest: seq<nat>)
    requires Merging(n, nx, pv, out, run, rest) && run != []
    ensures var x := run[0];
      x < n && Positions(n, out + [x]) && (|run| > 1 ==> nx[x] == run[1]) &&
      Merging(n, NextAfter(nx, out, x), PrevAfter(pv, out, x), out + [x], run[1..], rest)
  {
    TakeRun(n, out, run, rest);
    AppendNext(n, nx, out, run[0]);
    AppendPrev(n, pv, out, run[0]);
    AppendRest(n, nx, out, run[0], run[1..], rest);
  }

  lemma MergingRest(n: nat, nx: seq<int>, pv: seq<int>, out: seq<nat>, run: seq<nat>, rest: seq<nat>)
    requires Merging(n, nx, pv, out, run, rest) && rest != []
    ensures var x := rest[0];
      x < n && Positions(n, out + [x]) && nx[x] == Get(rest, 1) == Get(rest[1..], 0) &&
      Merging(n, NextAfter(nx, out, x), PrevAfter(pv, out, x), out + [x], run, rest[1..])
  {
    TakeRest(n, out, run, rest);
    AppendNext(n, nx, out, rest[0]);
    AppendPrev(n, pv, out, rest[0]);
    assert Ends(nx, rest[1..]);
    AppendRest(n, nx, out, rest[0], run, rest[1..]);
  }

  ghost predicate Items(s0: seq<Entry>, it: seq<Item>)
    reads s0`k, s0`v
  {
    |it| == |s0| && forall i: nat | i < |s0| :: it[i] == Item(s0[i].k, s0[i].v)
  }

  lemma MergeFirst(cmp: Compare, it: seq<Item>, out: seq<nat>, a: seq<nat>, b: seq<nat>)
    requires Within(it, a) && Within(it, b) && a != [] && (b == [] || cmp(it[a[0]], it[b[0]]) <= 0)
    ensures Within(it, a[1..]) && out + Merge(cmp, it, a, b) == out + [a[0]] + Merge(cmp, it, a[1..], b)
  {
    var m := Merge(cmp, it, a[1..], b);
    assert Merge(cmp, it, a, b) == [a[0]] + m;
    Regroup(out, a[0], m);
  }

  lemma Regroup(a: seq<nat>, x: nat, b: seq<nat>)
    ensures a + ([x] + b) == a + [x] + b
  {
  }

  lemma MergeSecond(cmp: Compare, it: seq<Item>, out: seq<nat>, a: seq<nat>, b: seq<nat>)
    requires Within(it, a) && Within(it, b) && b != [] && (a == [] || cmp(it[a[0]], it[b[0]]) > 0)
    ensures Within(it, b[1..]) && out + Merge(cmp, it, a, b) == out + [b[0]] + Merge(cmp, it, a, b[1..])
  {
    var m := Merge(cmp, it, a, b[1..]);
    assert Merge(cmp, it, a, b) == [b[0]] + m;
    Regroup(out, b[0], m);
  }

  lemma MergeNone(cmp: Compare, it: seq<Item>)
    ensures Within(it, []) && Merge(cmp, it, [], []) == []
  {
  }

  lemma ApartWithin(it: seq<Item>, nx: seq<int>, pv: seq<int>, out: seq<nat>, run: seq<nat>, rest: seq<nat>, k: nat)
    requires Merging(|it|, nx, pv, out, run, rest) && k <= |rest|
    ensures Within(it, run) && Within(it, rest[..k])
  {
  }

  /** The element the merge loop takes: the first of `run`, unless `rest` offers a smaller one. */
  predicate TakesRun(cmp: Compare, it: seq<Item>, run: seq<nat>, b: seq<nat>)
    requires Within(it, run) && Within(it, b)
  {
    run != [] && (b == [] || cmp(it[run[0]], it[b[0]]) <= 0)
  }

  /** The choice and removal of the next element, before it is linked behind the result. */
  method Take(cmp: Compare, p: Entry?, psize: nat, q: Entry?, qsize: nat,
              ghost s0: seq<Entry>, ghost it: seq<Item>, ghost nx: seq<int>, ghost pv: seq<int>,
              ghost out: seq<nat>, ghost run: seq<nat>, ghost rest: seq<nat>, ghost k: nat)
    returns (e: Entry, p': Entry?, psize': nat, q': Entry?, qsize': nat)
    requires Heap(s0, nx, pv) && Items(s0, it) && Merging(|s0|, nx, pv, out, run, rest)
    requires psize == |run| && (run != [] ==> p == At(s0, run[0])) && q == At(s0, Get(rest, 0))
    requires k == Min(qsize, |rest|) && (psize > 0 || k > 0)
    requires Within(it, run) && Within(it, rest[..k])
    ensures if TakesRun(cmp, it, run, rest[..k]) then
        e == At(s0, run[0]) && psize' == psize - 1 && (psize' > 0 ==> p' == At(s0, run[1])) &&
        q' == q && qsize' == qsize
      else
        k > 0 && e == At(s0, rest[0]) && psize' == psize && p' == p && q' == At(s0, Get(rest, 1)) && qsize' == qsize - 1
  {
    p', psize', q', qsize' := p, psize, q, qsize;
    if run != [] {
      MergingRun(|s0|, nx, pv, out, run, rest);
    }
    if rest != [] {
      MergingRest(|s0|, nx, pv, out, run, rest);
    }
    if psize == 0 {
      e := q;
      q' := q.next;
      qsize' := qsize - 1;
    } else if qsize == 0 || q == null {
      e := p;
      p' := p.next;
      psize' := psize - 1;
    } else if cmp(Item(p.k, p.v), Item(q.k, q.v)) <= 0 {
      e := p;
      p' := p.next;
      psize' := psize - 1;
    } else {
      e := q;
      q' := q.next;
      qsize' := qsize - 1;
    }
  }

  /** The inner loop: merges `run` with the first `insize` of `rest`. */
  method MergeRuns(cmp: Compare, insize: nat, p0: Entry, psize0: nat, q0: Entry?, list0: Entry?, tail0: Entry?,
                   ghost s0: seq<Entry>, ghost it: seq<Item>, ghost nx0: seq<int>, ghost pv0: seq<int>,
                   ghost out0: seq<nat>, ghost run0: seq<nat>, ghost rest0: seq<nat>)
    returns (q: Entry?, list: Entry?, tail: Entry?,
             ghost nx: seq<int>, ghost pv: seq<int>, ghost out: seq<nat>, ghost rest: seq<nat>)
    requires Heap(s0, nx0, pv0) && Items(s0, it) && Merging(|s0|, nx0, pv0, out0, run0, rest0)
    requires psize0 == |run0| > 0 && p0 == At(s0, run0[0]) && q0 == At(s0, Get(rest0, 0))
    requires list0 == At(s0, Get(out0, 0)) && tail0 == At(s0, Get(out0, |out0| - 1))
    modifies s0`next, s0`prev
    ensures rest == rest0[Min(insize, |rest0|)..] && Within(it, run0) && Within(it, rest0[..Min(insize, |rest0|)])
    ensures out == out0 + Merge(cmp, it, run0, rest0[..Min(insize, |rest0|)])
    ensures Heap(s0, nx, pv) && Items(s0, it) && Merging(|s0|, nx, pv, out, [], rest)
    ensures q == At(s0, Get(rest, 0)) && list == At(s0, Get(out, 0)) && tail == At(s0, Get(out, |out| - 1))
  {
    hide Heap, Items, Merging, Merge, Within, NextAfter, PrevAfter;
    var p: Entry?, psize, qsize := p0, psize0, insize;
    q, list, tail, nx, pv, out, rest := q0, list0, tail0, nx0, pv0, out0, rest0;
    ghost var run, k := run0, Min(insize, |rest0|);
    ApartWithin(it, nx, pv, out, run, rest, k) by { ItemsSize(s0, it); }
    ghost var all := out0 + Merge(cmp, it, run0, rest0[..k]);
    while psize > 0 || (qsize > 0 && q != null)
      invariant Heap(s0, nx, pv) && Items(s0, it) && Merging(|s0|, nx, pv, out, run, rest)
      invariant psize == |run| && (run != [] ==> p == At(s0, run[0])) && q == At(s0, Get(rest, 0))
      invariant list == At(s0, Get(out, 0)) && tail == At(s0, Get(out, |out| - 1))
      invariant k == Min(qsize, |rest|) && rest[k..] == rest0[Min(insize, |rest0|)..]
      invariant Within(it, run) && Within(it, rest[..k]) && out + Merge(cmp, it, run, rest[..k]) == all
      decreases |run| + |rest|
    {
      var e;
      ghost var fromRun := TakesRun(cmp, it, run, rest[..k]);
      ghost var x := if fromRun then run[0] else rest[0];
      e, p, psize, q, qsize := Take(cmp, p, psize, q, qsize, s0, it, nx, pv, out, run, rest, k);
      if fromRun {
        MergingRun(|s0|, nx, pv, out, run, rest);
        MergeFirst(cmp, it, out, run, rest[..k]);
        run := run[1..];
      } else {
        MergingRest(|s0|, nx, pv, out, run, rest);
        MergeSecond(cmp, it, out, run, rest[..k]);
        assert rest[..k][1..] == rest[1..][..k - 1];
        rest, k := rest[1..], k - 1;
      }
      list := Append(list, tail, e, s0, out, x, nx, pv);
      nx, pv, out := NextAfter(nx, out, x), PrevAfter(pv, out, x), out + [x];
      tail := e;
    }
    if rest != [] {
      MergingRest(|s0|, nx, pv, out, run, rest);
    }
    MergeNone(cmp, it);
    assert run == [] && rest[..k] == [] && rest[k..] == rest;
  }

  lemma ItemsSize(s0: seq<Entry>, it: seq<Item>)
    requires Items(s0, it)
    ensures |it| == |s0|
  {
  }

  // ------------------------------------------------------------------ one pass

  lemma SplitRun(n: nat, nx: seq<int>, pv: seq<int>, out: seq<nat>, rest: seq<nat>, k: nat)
    requires Merging(n, nx, pv, out, [], rest) && k <= |rest|
    ensures Merging(n, nx, pv, out, rest[..k], rest[k..])
  {
    var a, b := rest[..k], rest[k..];
    forall i: nat | i < |b|
      ensures nx[b[i]] == Get(b, i + 1)
    {
      assert b[i] == rest[k + i];
    }
  }

  lemma NextOf(n: nat, nx: seq<int>, pv: seq<int>, out: seq<nat>, rest: seq<nat>, i: nat)
    requires Merging(n, nx, pv, out, [], rest) && i < |rest|
    ensures rest[i] < n && nx[rest[i]] == Get(rest, i + 1) && (i + 1 < |rest| ==> rest[i + 1] < n)
  {
  }

  lemma HeapAt(s0: seq<Entry>, nx: seq<int>, pv: seq<int>, i: nat)
    requires Heap(s0, nx, pv) && i < |s0|
    ensures |nx| == |pv| == |s0| && s0[i].next == At(s0, nx[i]) && s0[i].prev == At(s0, pv[i])
    ensures -1 <= nx[i] < |s0| && -1 <= pv[i] < |s0|
  {
  }

  /** The counting loop: steps past the first `insize` elements of the list. */
  method Skip(p: Entry, insize: nat, ghost s0: seq<Entry>, ghost nx: seq<int>, ghost pv: seq<int>,
              ghost out: seq<nat>, ghost rest: seq<nat>)
    returns (q: Entry?, psize: nat)
    requires Heap(s0, nx, pv) && Merging(|s0|, nx, pv, out, [], rest)
    requires rest != [] && p == At(s0, rest[0]) && insize > 0
    ensures psize == Min(insize, |rest|) && q == At(s0, Get(rest, psize))
  {
    hide Heap, Merging;
    q, psize := p, 0;
    var i := 0;
    while i < insize
      invariant 0 <= i == psize <= insize && i < |rest| && q == At(s0, rest[i])
      decreases insize - i
    {
      NextOf(|s0|, nx, pv, out, rest, i);
      HeapAt(s0, nx, pv, rest[i]);
      psize := psize + 1;
      q := q.next;
      if q == null {
        break;
      }
      i := i + 1;
    }
  }

  lemma Nonempty(n: nat, nx: seq<int>, pv: seq<int>, out: seq<nat>, rest: seq<nat>)
    requires Merging(n, nx, pv, out, [], rest)
    ensures Positions(n, out) && Positions(n, rest) && Links(n, nx) && Back(pv, out)
    ensures rest != [] ==> rest[0] < n
    ensures out != [] ==> out[0] < n && out[|out| - 1] < n
  {
  }

  /** Ending the list behind `out`. */
  lemma EndOut(n: nat, nx: seq<int>, pv: seq<int>, out: seq<nat>)
    requires Merging(n, nx, pv, out, [], []) && out != []
    ensures var nx' := nx[out[|out| - 1] := -1];
      Ends(nx', out) && Merging(n, nx', pv, [], [], out) && Back(pv, out)
  {
    var nx' := nx[out[|out| - 1] := -1];
    forall i: nat | i < |out|
      ensures nx'[out[i]] == Get(out, i + 1)
    {
      if i + 1 < |out| {
        OtherPlace(n, out, i, |out| - 1);
      }
    }
  }

  method Terminate(tail: Entry, ghost s0: seq<Entry>, ghost nx: seq<int>, ghost pv: seq<int>, ghost x: nat)
    requires Heap(s0, nx, pv) && x < |s0| && tail == s0[x]
    modifies s0`next
    ensures Heap(s0, nx[x := -1], pv)
  {
    tail.next := null;
  }

  lemma {:induction false} PassLength(cmp: Compare, it: seq<Item>, s: seq<nat>, w: nat)
    requires w > 0 && Within(it, s)
    ensures |Pass(cmp, it, s, w)| == |s| && Pass(cmp, it, [], w) == [] && Within(it, [])
    ensures Within(it, Pass(cmp, it, s, w)) && multiset(Pass(cmp, it, s, w)) == multiset(s)
    decreases |s|
  {
    hide Merge, Within, Pass;
    NoRuns(cmp, it, w, 0);
    if s != [] {
      PassStep(cmp, it, s, w);
      var m := Min(w, |s|);
      var t := s[m..];
      var k := Min(w, |t|);
      MergeHolds(cmp, it, s[..m], t[..k]);
      PassLength(cmp, it, t[k..], w);
      WithinConcat(it, Merge(cmp, it, s[..m], t[..k]), Pass(cmp, it, t[k..], w));
      Pieces(s, m);
      Pieces(t, k);
    }
  }

  lemma Pieces(s: seq<nat>, m: nat)
    requires m <= |s|
    ensures multiset(s) == multiset(s[..m]) + multiset(s[m..])
  {
    assert s == s[..m] + s[m..];
  }

  /** One round of the pass: counts off a run and merges it with the next. */
  method MergePair(cmp: Compare, insize: nat, p: Entry, list0: Entry?, tail0: Entry?,
                   ghost s0: seq<Entry>, ghost it: seq<Item>, ghost nx0: seq<int>, ghost pv0: seq<int>,
                   ghost out0: seq<nat>, ghost rest0: seq<nat>)
    returns (q: Entry?, list: Entry?, tail: Entry?,
             ghost nx: seq<int>, ghost pv: seq<int>, ghost out: seq<nat>, ghost rest: seq<nat>)
    requires Heap(s0, nx0, pv0) && Items(s0, it) && Merging(|s0|, nx0, pv0, out0, [], rest0)
    requires insize > 0 && rest0 != [] && p == At(s0, rest0[0]) && Within(it, rest0)
    requires list0 == At(s0, Get(out0, 0)) && tail0 == At(s0, Get(out0, |out0| - 1))
    modifies s0`next, s0`prev
    ensures Within(it, rest) && out + Pass(cmp, it, rest, insize) == out0 + Pass(cmp, it, rest0, insize)
    ensures |rest| == |rest0| - Min(2 * insize, |rest0|)
    ensures Heap(s0, nx, pv) && Items(s0, it) && Merging(|s0|, nx, pv, out, [], rest)
    ensures q == At(s0, Get(rest, 0)) && list == At(s0, Get(out, 0)) && tail == At(s0, Get(out, |out| - 1))
  {
    hide Heap, Items, Merging, Merge, Within, Pass;
    var psize;
    q, psize := Skip(p, insize, s0, nx0, pv0, out0, rest0);
    PassStep(cmp, it, rest0, insize);
    SplitRun(|s0|, nx0, pv0, out0, rest0, psize);
    ghost var run, others := rest0[..psize], rest0[psize..];
    q, list, tail, nx, pv, out, rest :=
      MergeRuns(cmp, insize, p, psize, q, list0, tail0, s0, it, nx0, pv0, out0, run, others);
  }

  /** The end of a pass. */
  method EndPass(last: Entry?, ghost s0: seq<Entry>, ghost it: seq<Item>, ghost nx0: seq<int>, ghost pv: seq<int>,
                 ghost out: seq<nat>)
    returns (tail: Entry, ghost nx: seq<int>)
    requires Heap(s0, nx0, pv) && Items(s0, it) && Merging(|s0|, nx0, pv, out, [], [])
    requires out != [] && last == At(s0, Get(out, |out| - 1))
    modifies s0`next
    ensures Heap(s0, nx, pv) && Items(s0, it) && Merging(|s0|, nx, pv, [], [], out) && Ends(nx, out) && Back(pv, out)
    ensures tail == last
  {
    hide Heap, Merging;
    Nonempty(|s0|, nx0, pv, out, []);
    tail := last;
    ghost var x := out[|out| - 1];
    Terminate(tail, s0, nx0, pv, x);
    EndOut(|s0|, nx0, pv, out);
    nx := nx0[x := -1];
  }

  lemma Ends0(s0: seq<Entry>, nx: seq<int>, pv: seq<int>, out: seq<nat>, rest: seq<nat>)
    requires Merging(|s0|, nx, pv, out, [], rest)
    ensures At(s0, Get(rest, 0)) == null <==> rest == []
    ensures rest != [] ==> At(s0, Get(rest, 0)) == At(s0, rest[0])
    ensures out != [] ==> At(s0, Get(out, 0)) != null && At(s0, Get(out, |out| - 1)) != null
  {
  }

  lemma NothingYet(s0: seq<Entry>, s: seq<nat>)
    ensures At(s0, Get([], 0)) == null == At(s0, Get([], -1))
    ensures s != [] ==> Get(s, 0) == s[0]
  {
  }

  /** One pass over the list: pairs of runs of length `insize` are merged. */
  method OnePass(cmp: Compare, insize: nat, list0: Entry, ghost s0: seq<Entry>, ghost it: seq<Item>,
                 ghost nx0: seq<int>, ghost pv0: seq<int>, ghost rest0: seq<nat>)
    returns (list: Entry, tail: Entry, nmerges: nat, ghost nx: seq<int>, ghost pv: seq<int>, ghost out: seq<nat>)
    requires Heap(s0, nx0, pv0) && Items(s0, it) && Merging(|s0|, nx0, pv0, [], [], rest0)
    requires insize > 0 && rest0 != [] && list0 == At(s0, rest0[0]) && Within(it, rest0)
    modifies s0`next, s0`prev
    ensures out == Pass(cmp, it, rest0, insize) && out != []
    ensures Heap(s0, nx, pv) && Items(s0, it) && Merging(|s0|, nx, pv, [], [], out) && Ends(nx, out) && Back(pv, out)
    ensures list == At(s0, Get(out, 0)) && tail == At(s0, Get(out, |out| - 1))
    ensures nmerges <= 1 <==> |rest0| <= 2 * insize
  {
    hide Heap, Items, Merging, Within, Pass, Ends, Back, Get, At;
    NothingYet(s0, rest0);
    var p: Entry?, head, last := list0, null, null;
    nmerges := 0;
    nx, pv, out := nx0, pv0, [];
    ghost var rest := rest0;
    while p != null
      invariant Heap(s0, nx, pv) && Items(s0, it) && Merging(|s0|, nx, pv, out, [], rest)
      invariant p == At(s0, Get(rest, 0)) && Within(it, rest)
      invariant head == At(s0, Get(out, 0)) && last == At(s0, Get(out, |out| - 1))
      invariant out + Pass(cmp, it, rest, insize) == Pass(cmp, it, rest0, insize)
      invariant if nmerges == 0 then rest == rest0
        else if nmerges == 1 then |rest| == |rest0| - Min(2 * insize, |rest0|)
        else |rest0| > 2 * insize
      decreases |rest|
    {
      nmerges := nmerges + 1;
      Ends0(s0, nx, pv, out, rest);
      p, head, last, nx, pv, out, rest := MergePair(cmp, insize, p, head, last, s0, it, nx, pv, out, rest);
    }
    Ends0(s0, nx, pv, out, rest);
    PassLength(cmp, it, rest0, insize);
    assert rest == [] && out == Pass(cmp, it, rest0, insize);
    list := head;
    tail, nx := EndPass(last, s0, it, nx, pv, out);
  }

  // ------------------------------------------------------------------ the sort

  /** The entries at the given positions. */
  ghost function Entries(s: seq<Entry>, ix: seq<nat>): (r: seq<Entry>)
    requires forall i: nat | i < |ix| :: ix[i] < |s|
    ensures |r| == |ix| && forall i: nat | i < |ix| :: r[i] == s[ix[i]]
  {
    seq(|ix|, i requires 0 <= i < |ix| => s[ix[i]])
  }

  ghost function ItemsOf(s: seq<Entry>): (it: seq<Item>)
    reads s
    ensures Items(s, it)
  {
    seq(|s|, i requires 0 <= i < |s| reads s => Item(s[i].k, s[i].v))
  }

  ghost predicate Permutes(ix: seq<nat>, n: nat) {
    multiset(ix) == multiset(Consecutive(0, n)) && Positions(n, ix)
  }

  /** `s'` is a permutation of `s` in which, if `cmp` is a total preorder, no entry comes before a
      smaller one and equal ones keep their order. */
  ghost predicate StableSort(cmp: Compare, it: seq<Item>, s: seq<Entry>, s': seq<Entry>) {
    |it| == |s| && exists ix: seq<nat> ::
      Permutes(ix, |s|) && (TotalPreorder(cmp) ==> Sorted(cmp, it, ix)) && s' == Entries(s, ix)
  }

  lemma LinksOf(s0: seq<Entry>, nx: seq<int>, pv: seq<int>)
    requires NoRepeats(s0) && OrderLinked(s0) && |nx| == |pv| == |s0|
    requires forall i: nat | i < |s0| :: nx[i] == (if i + 1 < |s0| then i + 1 else -1) && pv[i] == i - 1
    ensures Heap(s0, nx, pv) && Merging(|s0|, nx, pv, [], [], Consecutive(0, |s0|))
  {
    forall i: nat | i < |s0|
      ensures s0[i].next == At(s0, nx[i]) && s0[i].prev == At(s0, pv[i])
    {
      assert OrderAt(s0, i);
    }
  }

  /** The list at the end, as a sequence of entries. */
  lemma Relinked(s0: seq<Entry>, nx: seq<int>, pv: seq<int>, ix: seq<nat>)
    requires Heap(s0, nx, pv) && Merging(|s0|, nx, pv, [], [], ix) && Back(pv, ix) && Ends(nx, ix)
    ensures forall i: nat | i < |ix| :: ix[i] < |s0|
    ensures OrderLinked(Entries(s0, ix)) && NoRepeats(Entries(s0, ix))
  {
    var s := Entries(s0, ix);
    forall i: int | 0 <= i < |s|
      ensures OrderAt(s, i)
    {
      HeapAt(s0, nx, pv, ix[i]);
    }
  }

  lemma SameEntries(s0: seq<Entry>, ix: seq<nat>)
    requires Permutes(ix, |s0|)
    ensures (forall i: nat | i < |ix| :: ix[i] < |s0|) && ToSet(Entries(s0, ix)) == ToSet(s0)
  {
    forall e | e in s0
      ensures e in Entries(s0, ix)
    {
      var i: nat :| i < |s0| && s0[i] == e;
      assert Consecutive(0, |s0|)[i] == i;
      assert i in multiset(ix);
      var j: nat :| j < |ix| && ix[j] == i;
      assert Entries(s0, ix)[j] == e;
    }
  }

  /** Reordering does not change what is said of each entry and of each pair. */
  lemma StillKeyed(t: Table, s0: seq<Entry>, ix: seq<nat>, hash: int -> nat)
    requires Keyed(t, s0, hash) && Permutes(ix, |s0|)
    ensures (forall i: nat | i < |ix| :: ix[i] < |s0|) && Keyed(t, Entries(s0, ix), hash)
  {
    forall i, j | 0 <= i < j < |ix|
      ensures s0[ix[i]].k != s0[ix[j]].k
    {
      OtherPlace(|s0|, ix, i, j);
    }
  }

  /** The outer loop of `HASH_SRT` over the linked entries. */
  method SortList(cmp: Compare, head: Entry, ghost s0: seq<Entry>, ghost it: seq<Item>)
    returns (head': Entry, tail: Entry, ghost ix: seq<nat>)
    requires NoRepeats(s0) && OrderLinked(s0) && Items(s0, it) && s0 != [] && head == s0[0]
    modifies s0`next, s0`prev
    ensures Permutes(ix, |s0|) && |ix| == |s0| && (TotalPreorder(cmp) ==> Sorted(cmp, it, ix))
    ensures OrderLinked(Entries(s0, ix)) && NoRepeats(Entries(s0, ix))
    ensures head' == Entries(s0, ix)[0] && tail == Entries(s0, ix)[|s0| - 1]
  {
    hide Heap, Items, Merging, Within, Pass, Ends, Back, Get, At, Runs, Sorted, TotalPreorder, OrderLinked, NoRepeats;
    ghost var n := |s0|;
    ghost var nx, pv := seq(n, i => if i + 1 < n then i + 1 else -1), seq(n, i => i - 1);
    LinksOf(s0, nx, pv);
    ItemsSize(s0, it);
    SingleRuns(cmp, it, 0, n);
    ix := Consecutive(0, n);
    RunsWithin(cmp, it, ix, 1, 0);
    var insize, looping, list := 1, true, head;
    head', tail := head, head;
    FirstEntryOf(s0, ix);
    while looping
      invariant insize > 0 && |ix| == n && Within(it, ix) && multiset(ix) == multiset(Consecutive(0, n))
      invariant TotalPreorder(cmp) ==> Runs(cmp, it, ix, insize, 0)
      invariant Heap(s0, nx, pv) && Items(s0, it) && Merging(n, nx, pv, [], [], ix)
      invariant looping ==> list == At(s0, ix[0])
      invariant !looping ==> n <= insize && Ends(nx, ix) && Back(pv, ix)
      invariant !looping ==> head' == At(s0, Get(ix, 0)) && tail == At(s0, Get(ix, n - 1))
      decreases if looping then 1 + (if insize < n then n - insize else 0) else 0
    {
      PassLength(cmp, it, ix, insize);
      if TotalPreorder(cmp) {
        PassDoubles(cmp, it, ix, insize, 0);
      }
      var nmerges, last;
      list, last, nmerges, nx, pv, ix := OnePass(cmp, insize, list, s0, it, nx, pv, ix);
      Ends0(s0, nx, pv, [], ix);
      if nmerges <= 1 {
        looping := false;
        tail := last;
        head' := list;
      }
      insize := insize * 2;
    }
    if TotalPreorder(cmp) {
      OneRun(cmp, it, ix, insize);
    }
    Relinked(s0, nx, pv, ix);
    ListEnds(s0, nx, pv, ix);
  }

  lemma FirstEntryOf(s0: seq<Entry>, ix: seq<nat>)
    requires s0 != [] && ix == Consecutive(0, |s0|)
    ensures At(s0, ix[0]) == s0[0]
  {
  }

  lemma ListEnds(s0: seq<Entry>, nx: seq<int>, pv: seq<int>, ix: seq<nat>)
    requires Merging(|s0|, nx, pv, [], [], ix) && ix != []
    ensures Positions(|s0|, ix)
    ensures At(s0, Get(ix, 0)) == Entries(s0, ix)[0] && At(s0, Get(ix, |ix| - 1)) == Entries(s0, ix)[|ix| - 1]
  {
  }

  ghost function OrderOf(t: Table?): seq<Entry>
    reads t
  {
    if t == null then [] else t.order
  }

  lemma IsStable(cmp: Compare, it: seq<Item>, s: seq<Entry>, ix: seq<nat>)
    requires |it| == |s| && Permutes(ix, |s|) && (TotalPreorder(cmp) ==> Sorted(cmp, it, ix))
    ensures (forall i: nat | i < |ix| :: ix[i] < |s|) && StableSort(cmp, it, s, Entries(s, ix))
  {
  }

  /** The sort of a table that is not empty. */
  method SortTable(cmp: Compare, head: Entry, t: Table, ghost hash: int -> nat, ghost it: seq<Item>)
    returns (head': Entry)
    requires t.Valid(hash) && head == t.order[0] && Items(t.order, it)
    modifies t`tail, t`order, t.order`next, t.order`prev
    ensures t.Valid(hash) && head' == t.order[0]
    ensures StableSort(cmp, it, old(t.order), t.order)
  {
    hide Table.BucketsValid, TotalPreorder, Sorted, OrderLinked, NoRepeats, Keyed, Items, ToSet, Permutes, StableSort;
    ghost var s0 := t.order;
    ItemsSize(s0, it);
    var tail;
    ghost var ix;
    head', tail, ix := SortList(cmp, head, s0, it);
    SameEntries(s0, ix);
    StillKeyed(t, s0, ix, hash);
    IsStable(cmp, it, s0, ix);
    t.tail := tail;
    t.order := Entries(s0, ix);
  }

  ghost function SetOf(t: Table?): set<Table> {
    if t == null then {} else {t}
  }

  /** `HASH_SRT`: `head` is null if and only if there is no table. In terms of keys and values, the new order
      is sorted, and entries that compare equal keep their order. */
  method HashSrt(cmp: Compare, head: Entry?, t: Table?, ghost hash: int -> nat) returns (head': Entry?)
    requires head == null <==> t == null
    requires t != null ==> t.Valid(hash) && head == t.order[0]
    modifies SetOf(t)`tail, SetOf(t)`order, OrderOf(t)`next, OrderOf(t)`prev
    ensures head' == null <==> head == null
    ensures t != null ==> t.Valid(hash) && head' == t.order[0]
    ensures t != null ==> |t.order| == |old(t.order)| && ToSet(t.order) == ToSet(old(t.order))
    ensures t != null && TotalPreorder(cmp) ==> forall i: nat, j: nat | i < j < |t.order| ::
      var e, f := t.order[i], t.order[j];
      cmp(Item(e.k, e.v), Item(f.k, f.v)) <= 0 &&
      (cmp(Item(f.k, f.v), Item(e.k, e.v)) <= 0 ==> Precede(old(t.order), e, f))
    ensures t != null ==> StableSort(cmp, old(ItemsOf(t.order)), old(t.order), t.order)
  {
    hide Table.Valid, TotalPreorder, StableSort, Items, Precede;
    head' := head;
    if head != null {
      ghost var s, it := t.order, ItemsOf(t.order);
      head' := SortTable(cmp, head, t, hash, it);
      SameSize(cmp, it, s, t.order);
      if TotalPreorder(cmp) {
        SortedByFields(cmp, it, s, t.order);
      }
    }
  }

  /** `e` comes before `f` in `s`. */
  ghost predicate Precede(s: seq<Entry>, e: Entry, f: Entry) {
    exists a: nat, b: nat :: a < b < |s| && s[a] == e && s[b] == f
  }

  lemma SameSize(cmp: Compare, it: seq<Item>, s: seq<Entry>, s': seq<Entry>)
    requires StableSort(cmp, it, s, s')
    ensures |s'| == |s| && ToSet(s') == ToSet(s)
  {
    var ix: seq<nat> :| Permutes(ix, |s|) && (TotalPreorder(cmp) ==> Sorted(cmp, it, ix)) && s' == Entries(s, ix);
    assert |multiset(ix)| == |ix| && |multiset(Consecutive(0, |s|))| == |s|;
    SameEntries(s, ix);
  }

  /** What a stable sort means for the entries: none is lost or doubled, each is at most the next ones,
      and of two that compare equal the earlier stays the earlier. */
  lemma StableMeans(cmp: Compare, it: seq<Item>, s: seq<Entry>, s': seq<Entry>, i: nat, j: nat)
    requires TotalPreorder(cmp) && StableSort(cmp, it, s, s') && i < j < |s'|
    ensures |s'| == |s| && ToSet(s') == ToSet(s)
    ensures exists a: nat, b: nat ::
      a < |s| && b < |s| && s'[i] == s[a] && s'[j] == s[b] &&
      cmp(it[a], it[b]) <= 0 && (cmp(it[b], it[a]) <= 0 ==> a < b)
  {
    SameSize(cmp, it, s, s');
    var ix: seq<nat> :| Permutes(ix, |s|) && (TotalPreorder(cmp) ==> Sorted(cmp, it, ix)) && s' == Entries(s, ix);
    assert Precedes(cmp, it, ix[i], ix[j]);
  }

  /** The same for the keys and values of the entries. */
  lemma SortedByFields(cmp: Compare, it: seq<Item>, s: seq<Entry>, s': seq<Entry>)
    requires TotalPreorder(cmp) && StableSort(cmp, it, s, s') && Items(s, it)
    ensures forall i: nat, j: nat | i < j < |s'| ::
      var e, f := s'[i], s'[j];
      cmp(Item(e.k, e.v), Item(f.k, f.v)) <= 0 &&
      (cmp(Item(f.k, f.v), Item(e.k, e.v)) <= 0 ==> Precede(s, e, f))
  {
    hide TotalPreorder, StableSort;
    forall i: nat, j: nat | i < j < |s'|
      ensures var e, f := s'[i], s'[j];
        cmp(Item(e.k, e.v), Item(f.k, f.v)) <= 0 &&
        (cmp(Item(f.k, f.v), Item(e.k, e.v)) <= 0 ==> Precede(s, e, f))
    {
      StableMeans(cmp, it, s, s', i, j);
    }
  }
}
