/** Stack distances from a last-occurrence table and the tree of holes
    (block1-lru/src/stackdist.c). */
module Stackdist {
  import opened Seqs
  import opened Trace
  import H = Hash
  import T = Itree
  import F = ItreeFacts
  import I = ItreeInsert

  // ------------------------------------------------------- what the code computes

  /** The holes when access `i` is processed: the indices superseded by a later access to the same
      address, except the one that looks like `HASH_NOT_FOUND`. */
  ghost function Holes(p: seq<int>, i: nat): set<int>
    requires i <= |p|
  {
    set k | 0 <= k < i && k != H.NOT_FOUND && Last(p, p[k], i) != k
  }

  /** The distance reported for access `i`. */
  ghost function Reported(p: seq<int>, i: nat): int
    requires i < |p|
  {
    var last := Last(p, p[i], i);
    if last < 0 || last == H.NOT_FOUND then INFINITE else i - last - |F.Larger(Holes(p, i), last)| - 1
  }

  lemma {:induction false} HolesStep(p: seq<int>, i: nat)
    requires i < |p|
    ensures var last := Last(p, p[i], i);
      last >= 0 ==> last !in Holes(p, i)
    ensures var last := Last(p, p[i], i);
      Holes(p, i + 1) == if last < 0 || last == H.NOT_FOUND then Holes(p, i) else Holes(p, i) + {last}
  {
    var last := Last(p, p[i], i);
    forall k ensures k in Holes(p, i + 1) <==> k in Holes(p, i) || (k == last >= 0 && last != H.NOT_FOUND) {
      if 0 <= k < i {
        LastStep(p, p[k], i);
      }
    }
  }

  // ------------------------------------------------------------------- counting

  /** The indices in [lo, n) that are the last access to their address before `n`. */
  ghost function Current(p: seq<int>, lo: nat, n: nat): set<int>
    requires n <= |p|
  {
    set k | lo <= k < n && Last(p, p[k], n) == k
  }

  /** Each address accessed in a window has one current index there. */
  lemma {:induction false} CurrentCount(p: seq<int>, lo: nat, n: nat)
    requires lo <= n <= |p|
    ensures |Current(p, lo, n)| == |Accessed(p, lo, n)|
  {
    var s := Current(p, lo, n);
    forall x ensures x in Accessed(p, lo, n) <==> exists k :: k in s && p[k] == x {
      if x in Accessed(p, lo, n) {
        var k :| lo <= k < n && p[k] == x;
        assert Last(p, x, n) >= k;
        assert Last(p, x, n) in s;
      }
    }
    var f: int -> int := k => if 0 <= k < |p| then p[k] else 0;
    ImageSize(s, f);
    assert Image(s, f) == Accessed(p, lo, n);
  }

  /** Index `HASH_NOT_FOUND`, if it is in [lo, n) and superseded before `n`. */
  ghost function Missed(p: seq<int>, lo: nat, n: nat): set<int>
    requires n <= |p|
  {
    if lo <= H.NOT_FOUND < n && Last(p, p[H.NOT_FOUND], n) != H.NOT_FOUND then {H.NOT_FOUND} else {}
  }

  lemma {:induction false} InWindow(p: seq<int>, lo: nat, n: nat, k: int)
    requires lo <= n <= |p|
    ensures k in F.Larger(Holes(p, n), lo - 1) + Current(p, lo, n) + Missed(p, lo, n) <==> lo <= k < n
    ensures k in Current(p, lo, n) ==> k !in F.Larger(Holes(p, n), lo - 1)
    ensures k in Missed(p, lo, n) ==> k !in F.Larger(Holes(p, n), lo - 1) && k !in Current(p, lo, n)
  {
    hide Last;
  }

  /** A window of indices splits into holes, current indices, and the missed one. */
  lemma {:induction false} WindowSplit(p: seq<int>, lo: nat, n: nat)
    requires lo <= n <= |p|
    ensures |F.Larger(Holes(p, n), lo - 1)| + |Current(p, lo, n)| + |Missed(p, lo, n)| == n - lo
  {
    hide *;
    var holes, current, missed := F.Larger(Holes(p, n), lo - 1), Current(p, lo, n), Missed(p, lo, n);
    forall k ensures (k in holes + current + missed <==> lo <= k < n) && (k in current ==> k !in holes) &&
                     (k in missed ==> k !in holes && k !in current) {
      InWindow(p, lo, n, k);
    }
    PartitionCount(holes, current, missed, lo, n);
  }

  lemma {:induction false} PartitionCount(s1: set<int>, s2: set<int>, s3: set<int>, lo: int, n: int)
    requires lo <= n && forall k :: k in s1 + s2 + s3 <==> lo <= k < n
    requires forall k :: (k in s2 ==> k !in s1) && (k in s3 ==> k !in s1 && k !in s2)
    ensures |s1| + |s2| + |s3| == n - lo
  {
    assert s1 + s2 + s3 == T.Range(lo, n - 1);
    F.DisjointUnion(s1, s2, s3);
    F.RangeSize(lo, n - 1);
  }

  /** Index `HASH_NOT_FOUND` is a hole that the tree lacks, in the window of access `i`. */
  ghost predicate Lost(p: seq<int>, i: nat)
    requires i < |p|
  {
    0 <= Last(p, p[i], i) < H.NOT_FOUND < i && Last(p, p[H.NOT_FOUND], i) != H.NOT_FOUND
  }

  /** What is reported: the distance, one more if `HASH_NOT_FOUND` is lost, or infinity if that index
      itself is the last access. */
  lemma {:induction false} ReportedIs(p: seq<int>, i: nat)
    requires i < |p|
    ensures var last := Last(p, p[i], i);
      Reported(p, i) ==
        if last < 0 || last == H.NOT_FOUND then 0xFFFF_FFFF_FFFF_FFFF
        else Distance(p, i) + if Lost(p, i) then 1 else 0
    ensures Last(p, p[i], i) >= 0 ==> Distance(p, i) < i
    ensures |p| <= 0x1_0000_0000_0000_0000 ==> 0 <= Distance(p, i) <= Reported(p, i) <= INFINITE
  {
    var last := Last(p, p[i], i);
    if last >= 0 {
      WindowSplit(p, last + 1, i);
      CurrentCount(p, last + 1, i);
    }
  }

  /** An access is reported right exactly when it is the first to its address, or index `HASH_NOT_FOUND`
      is neither its last access nor lost in its window. */
  lemma {:induction false} ReportedDistance(p: seq<int>, i: nat)
    requires i < |p|
    ensures var last := Last(p, p[i], i);
      var right := last < 0 ||
        (last != H.NOT_FOUND && !(last < H.NOT_FOUND < i && Last(p, p[H.NOT_FOUND], i) != H.NOT_FOUND));
      (right ==> Reported(p, i) == Distance(p, i)) &&
      (|p| <= 0x1_0000_0000_0000_0000 && Reported(p, i) == Distance(p, i) ==> right)
    ensures Reported(p, i) >= 0
  {
    hide Reported, Last;
    ReportedIs(p, i);
    if Last(p, p[i], i) < 0 {
      FirstIsInfinite(p, i);
    }
  }

  lemma FirstIsInfinite(p: seq<int>, i: nat)
    requires i < |p| && Last(p, p[i], i) < 0
    ensures Distance(p, i) == INFINITE
  {
  }

  // ---------------------------------------------------------- when it is right

  /** The address accessed at index `HASH_NOT_FOUND`, if there is one, is not accessed again. */
  ghost predicate Clean(p: seq<int>) {
    |p| <= H.NOT_FOUND || Last(p, p[H.NOT_FOUND], |p|) == H.NOT_FOUND
  }

  lemma {:induction false} ShortIsClean(p: seq<int>)
    requires |p| <= 0x1_0000_0000
    ensures Clean(p)
  {
  }

  lemma {:induction false} CleanLast(p: seq<int>, i: nat)
    requires Clean(p) && H.NOT_FOUND < i <= |p|
    ensures Last(p, p[H.NOT_FOUND], i) == H.NOT_FOUND
  {
    hide Last;
    var l := Last(p, p[H.NOT_FOUND], i);
    assert p[l] != p[H.NOT_FOUND] || l <= H.NOT_FOUND;
  }

  /** The first access after `k` to the same address. */
  lemma {:induction false} FirstReuse(p: seq<int>, k: nat, n: nat) returns (j: nat)
    requires k < n <= |p| && Last(p, p[k], n) != k
    ensures k < j < n && p[j] == p[k] && Last(p, p[k], j) == k
    decreases n
  {
    hide Last;
    var l := Last(p, p[k], n);
    if Last(p, p[k], l) == k {
      j := l;
    } else {
      j := FirstReuse(p, k, l);
    }
  }

  /** In a clean trace nothing is lost. */
  lemma {:induction false} CleanKeeps(p: seq<int>, i: nat)
    requires Clean(p) && i < |p|
    ensures !Lost(p, i) && Last(p, p[i], i) != H.NOT_FOUND
  {
    if H.NOT_FOUND < i {
      CleanLast(p, i);
      CleanLast(p, i + 1);
      LastStep(p, p[H.NOT_FOUND], i);
    }
  }

  /** The reported distances are the stack distances exactly when the trace is clean; a trace of at
      most 2^32 accesses always is. */
  lemma {:induction false} ReportedIffClean(p: seq<int>)
    requires |p| <= 0x1_0000_0000_0000_0000
    ensures (forall i :: 0 <= i < |p| ==> Reported(p, i) == Distance(p, i)) <==> Clean(p)
  {
    if Clean(p) {
      forall i | 0 <= i < |p| ensures Reported(p, i) == Distance(p, i) {
        ReportedDistance(p, i);
        CleanKeeps(p, i);
      }
    } else {
      var j := FirstReuse(p, H.NOT_FOUND, |p|);
      ReportedDistance(p, j);
    }
  }

  /** A trace on which the two algorithms differ. */
  lemma {:induction false} LongConstantTrace()
    ensures !Clean(seq(0x1_0000_0001, _ => 0))
  {
    var p := seq(0x1_0000_0001, _ => 0);
    LastStep(p, 0, 0x1_0000_0000);
  }

  // -------------------------------------------------------------------- the code

  /** The last-occurrence table holds the last access to every address. */
  ghost predicate LastTable(m: map<int, int>, p: seq<int>, i: nat)
    requires i <= |p|
  {
    (forall x :: x in m <==> Last(p, x, i) >= 0) && (forall x :: x in m ==> m[x] == Last(p, x, i))
  }

  /** One round of the loop: the value the table returns tells what is reported and which hole, if
      any, is added; the hole is new. */
  lemma {:induction false} Round(m: map<int, int>, p: seq<int>, i: nat)
    requires i < |p| && LastTable(m, p, i)
    ensures LastTable(m[p[i] := i], p, i + 1)
    ensures var out := if p[i] in m then m[p[i]] else H.NOT_FOUND;
      (out == H.NOT_FOUND ==> Reported(p, i) == INFINITE && Holes(p, i + 1) == Holes(p, i)) &&
      (out != H.NOT_FOUND ==>
        0 <= out < i && out !in Holes(p, i) && Holes(p, i + 1) == Holes(p, i) + {out} &&
        Reported(p, i) == i - out - |F.Larger(Holes(p, i), out)| - 1)
  {
    HolesStep(p, i);
    forall x ensures Last(p, x, i + 1) == if p[i] == x then i else Last(p, x, i) {
      LastStep(p, x, i);
    }
  }

  /** `stackdist_process_trace`; `out` collects the arguments of the callback. */
  method ProcessTrace(p: seq<int>, fn: int -> nat) returns (out: seq<Event>)
    requires |p| <= 0x1_0000_0000_0000_0000
    ensures |out| == |p| && forall i :: 0 <= i < |p| ==> out[i] == Event(i, Reported(p, i))
    ensures out == Distances(p) <==> Clean(p)
  {
    hide *;
    var hash := new H.Hash(fn);
    var root: T.Node? := null;
    ghost var t: T.Tree := T.Leaf;
    out := [];
    Start(p);
    for i := 0 to |p|
      invariant hash.Valid() && (forall x :: x in hash.Repr ==> fresh(x)) && (forall n :: n in T.Nodes(t) ==> fresh(n))
      invariant hash.Repr !! T.Nodes(t)
      invariant LastTable(hash.M, p, i)
      invariant T.Shape(root, t) && T.WellFormed(t, F.LOW, F.HIGH) && T.Idx(t) == Holes(p, i)
      invariant |out| == i && forall k :: 0 <= k < i ==> out[k] == Event(k, Reported(p, k))
    {
      Round(hash.M, p, i);
      T.Allocated(t);
      var addr := p[i];
      var last := hash.Insert(addr, i);
      assert hash.Repr !! T.Nodes(t);
      if last == H.NOT_FOUND {
        out := out + [Event(i, INFINITE)];
        continue;
      }
      var holes, freed;
      root, holes, freed, t := I.InsertIndex(last, root, t);
      out := out + [Event(i, i - last - holes - 1)];
    }
    ReportedIffClean(p);
  }

  lemma Start(p: seq<int>)
    ensures LastTable(map[], p, 0) && Holes(p, 0) == {} == T.Idx(T.Leaf)
    ensures T.Shape(null, T.Leaf) && T.WellFormed(T.Leaf, F.LOW, F.HIGH) && T.Nodes(T.Leaf) == {}
  {
  }
}
