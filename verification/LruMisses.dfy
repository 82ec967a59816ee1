/** LRU miss counts for the cache sizes 2^0 .. 2^63 from one pass over the stack distances
    (block1-lru/src/lru-misses.c). */
module LruMisses {
  import opened Bits
  import opened Seqs
  import opened Trace
  import H = Hash
  import Stackdist

  // ------------------------------------------------- an LRU cache, simulated directly

  /** The contents of a fully associative LRU cache of `size` lines after `n` accesses, most
      recently used first: a hit moves its line to the front, a miss evicts the last line of a
      full cache. */
  ghost function Cache(p: seq<int>, n: nat, size: nat): seq<int>
    requires n <= |p|
  {
    if n == 0 then [] else
      var c, x := Cache(p, n - 1, size), p[n - 1];
      if x in c then [x] + Remove(c, x)
      else if |c| < size then [x] + c
      else if c == [] then []
      else [x] + c[..|c| - 1]
  }

  ghost function Misses(p: seq<int>, n: nat, size: nat): nat
    requires n <= |p|
  {
    if n == 0 then 0 else Misses(p, n - 1, size) + if p[n - 1] in Cache(p, n - 1, size) then 0 else 1
  }

  lemma CutHit(r: seq<int>, x: int, d: nat, size: nat)
    requires NoRepeats(r) && d < Min(size, |r|) && r[d] == x
    ensures |Remove(r, x)| == |r| - 1
    ensures var c := r[..Min(size, |r|)];
      ([x] + Remove(r, x))[..|c|] == [x] + Remove(c, x) && x in c
  {
    hide Remove;
    var c := r[..Min(size, |r|)];
    assert c[d] == x;
    RemoveAt(r, x, d);
    RemoveAt(c, x, d);
    CutWithout(r, d, |c|);
    assert ([x] + Remove(r, x))[..|c|] == [x] + Remove(r, x)[..|c| - 1];
  }

  lemma CutWithout(r: seq<int>, d: nat, n: nat)
    requires d < n <= |r|
    ensures (r[..d] + r[d + 1..])[..n - 1] == r[..n][..d] + r[..n][d + 1..]
  {
  }

  lemma CutFar(r: seq<int>, x: int, d: nat, size: nat)
    requires NoRepeats(r) && 0 < size <= d < |r| && r[d] == x
    ensures |Remove(r, x)| == |r| - 1
    ensures ([x] + Remove(r, x))[..size] == [x] + r[..size - 1] && x !in r[..size]
  {
    RemoveAt(r, x, d);
  }

  /** Removing an element and cutting commute in the way a larger cache needs. */
  lemma {:induction false} CutStep(r: seq<int>, x: int, size: nat)
    requires NoRepeats(r) && size > 0
    ensures var c := r[..Min(size, |r|)];
      var r' := [x] + Remove(r, x);
      r'[..Min(size, |r'|)] ==
        if x in c then [x] + Remove(c, x) else if |c| < size then [x] + c else [x] + c[..|c| - 1]
  {
    hide Remove, NoRepeats;
    var c := r[..Min(size, |r|)];
    if x in r {
      var d :| 0 <= d < |r| && r[d] == x;
      if d < |c| {
        CutHit(r, x, d, size);
      } else {
        CutFar(r, x, d, size);
        assert c[..|c| - 1] == r[..size - 1];
      }
    } else {
      RemoveAbsent(r, x);
    }
  }

  /** Inclusion: a cache of any size holds the front of the same recency list. */
  lemma {:induction false} CacheIsPrefix(p: seq<int>, n: nat, size: nat)
    requires n <= |p| && size > 0
    ensures Cache(p, n, size) == Recent(p, n)[..Min(size, |Recent(p, n)|)]
  {
    if n > 0 {
      CacheIsPrefix(p, n - 1, size);
      RecentByRecency(p, n - 1);
      CutStep(Recent(p, n - 1), p[n - 1], size);
    }
  }

  /** An access misses exactly when its stack distance is at least the cache size. */
  lemma {:induction false} MissIffDistant(p: seq<int>, i: nat, size: nat)
    requires i < |p| && 0 < size <= INFINITE
    ensures p[i] in Cache(p, i, size) <==> Distance(p, i) < size
  {
    hide Cache, Recent, ByRecency, Distance;
    CacheIsPrefix(p, i, size);
    RecentByRecency(p, i);
    var r := Recent(p, i);
    if p[i] in r {
      var d :| 0 <= d < |r| && r[d] == p[i];
      DepthIsDistance(r, p, i, d);
      OnlyPlace(r, p, i, d);
      if d < size {
        assert r[..Min(size, |r|)][d] == p[i];
      }
    } else {
      Unseen(r, p, i);
    }
  }

  lemma OnlyPlace(r: seq<int>, p: seq<int>, i: nat, d: nat)
    requires i <= |p| && ByRecency(r, p, i) && d < |r|
    ensures forall k :: 0 <= k < |r| && r[k] == r[d] ==> k == d
  {
  }

  // ---------------------------------------------------------------- the counters

  const SUMS_COUNT := 65

  lemma {:induction false} Pow2Monotone(m: nat, n: nat)
    requires m <= n
    ensures Pow2(m) <= Pow2(n)
    decreases n
  {
    if m < n {
      Pow2Monotone(m, n - 1);
    }
  }

  /** The mask of the callback, `~((1ULL << exp) - 1ULL)`; for exponent 64 the shift is undefined
      in C, so the value is left open. */
  function Mask(exp: nat, undefinedMask: nat): nat {
    if exp < 64 then
      Pow2Monotone(exp, 64);
      (Pow2(64) - 1) - (Pow2(exp) - 1)
    else undefinedMask
  }

  /** The test of the callback. */
  lemma {:induction false} MaskTest(exp: nat, undefinedMask: nat, distance: nat)
    requires exp < 64 && distance < Pow2(64)
    ensures Pow2(exp) <= Pow2(64)
    ensures And(Mask(exp, undefinedMask), distance) == 0 <==> distance < Pow2(exp)
  {
    AndHighMask(distance, 64, exp);
  }

  /** `stackdist_callback`. */
  method Callback(sums: array<nat>, distance: nat, undefinedMask: nat)
    requires sums.Length == SUMS_COUNT && distance < Pow2(64)
    modifies sums
    ensures forall e :: 0 <= e < 64 ==> sums[e] == old(sums[e]) + if distance < Pow2(e) then 0 else 1
  {
    hide And, Pow2, Mask;
    for exp := 0 to SUMS_COUNT
      invariant forall e :: 0 <= e < exp && e < 64 ==> sums[e] == old(sums[e]) + 1 && distance >= Pow2(e)
      invariant forall e :: exp <= e < SUMS_COUNT ==> sums[e] == old(sums[e])
    {
      if exp < 64 {
        MaskTest(exp, undefinedMask, distance);
      }
      if And(Mask(exp, undefinedMask), distance) == 0 {
        forall e | exp <= e < 64 ensures distance < Pow2(e) {
          Pow2Monotone(exp, e);
        }
        break;
      }
      sums[exp] := sums[exp] + 1;
    }
  }

  /** The reports of at least 2^e among the first `n`. */
  ghost function Counted(events: seq<Event>, n: nat, e: nat): nat
    requires n <= |events|
  {
    if n == 0 then 0 else Counted(events, n - 1, e) + if events[n - 1].distance < Pow2(e) then 0 else 1
  }

  /** An access counts as a miss of a cache of 2^e lines exactly when it is one, if report and distance
      are on the same side of 2^e. */
  lemma MissStep(p: seq<int>, i: nat, e: nat)
    requires i < |p| && e < 64
    ensures Misses(p, i + 1, Pow2(e)) == Misses(p, i, Pow2(e)) + if Distance(p, i) < Pow2(e) then 0 else 1
  {
    hide Cache, Distance;
    Pow2Monotone(e, 63);
    Pow2Of63();
    MissIffDistant(p, i, Pow2(e));
  }

  /** Counting reports counts LRU misses, as long as each report is on the side of 2^e where the stack
      distance is. */
  lemma {:induction false} CountedIsMisses(p: seq<int>, events: seq<Event>, n: nat, e: nat)
    requires n <= |p| == |events| && e < 64
    requires forall i :: 0 <= i < n ==> (events[i].distance < Pow2(e) <==> Distance(p, i) < Pow2(e))
    ensures Counted(events, n, e) == Misses(p, n, Pow2(e))
  {
    hide Misses, Distance, Pow2;
    if n == 0 {
      NoMisses(p, Pow2(e));
    } else {
      CountedIsMisses(p, events, n - 1, e);
      MissStep(p, n - 1, e);
    }
  }

  lemma NoMisses(p: seq<int>, size: nat)
    ensures Misses(p, 0, size) == 0
  {
  }

  /** Reports that are never too small never undercount, and overcount if one of the first `n` is on the
      wrong side of 2^e. */
  lemma {:induction false} CountedAtLeast(p: seq<int>, events: seq<Event>, n: nat, e: nat)
    requires n <= |p| == |events| && e < 64
    requires forall i :: 0 <= i < n ==> Distance(p, i) <= events[i].distance
    ensures Counted(events, n, e) >= Misses(p, n, Pow2(e))
    ensures (exists i :: 0 <= i < n && Distance(p, i) < Pow2(e) <= events[i].distance) ==>
      Counted(events, n, e) > Misses(p, n, Pow2(e))
  {
    hide Misses, Distance, Pow2;
    if n == 0 {
      NoMisses(p, Pow2(e));
    } else {
      CountedAtLeast(p, events, n - 1, e);
      MissStep(p, n - 1, e);
    }
  }

  /** What a miscounted trace needs besides a second access to the address at index `HASH_NOT_FOUND`:
      a cache that its true distance fits in, or a distance that the lost index pushes to a power of two. */
  ghost predicate Miscounted(p: seq<int>, i: nat)
    requires i < |p|
  {
    var last := Last(p, p[i], i);
    if last == H.NOT_FOUND then Distance(p, i) < Pow2(63)
    else Stackdist.Lost(p, i) && exists e: nat :: e < 64 && Distance(p, i) + 1 == Pow2(e)
  }

  ghost predicate Harmless(p: seq<int>) {
    forall i: nat | i < |p| :: !Miscounted(p, i)
  }

  lemma SameSide(p: seq<int>, i: nat, e: nat)
    requires i < |p| <= INFINITE && e < 64 && !Miscounted(p, i)
    ensures Stackdist.Reported(p, i) < Pow2(e) <==> Distance(p, i) < Pow2(e)
  {
    hide Last, Distance, Stackdist.Reported, Stackdist.Lost, Pow2;
    Stackdist.ReportedIs(p, i);
    Pow2Monotone(e, 63);
    Pow2Of63();
    if Last(p, p[i], i) < 0 {
      Stackdist.FirstIsInfinite(p, i);
    }
  }

  /** A miscounted access is on the wrong side of some power of two. */
  lemma WrongSide(p: seq<int>, i: nat) returns (e: nat)
    requires i < |p| <= INFINITE && Miscounted(p, i)
    ensures e < 64 && Distance(p, i) < Pow2(e) <= Stackdist.Reported(p, i)
  {
    hide Last, Distance, Stackdist.Reported, Pow2;
    Stackdist.ReportedIs(p, i);
    Pow2Of63();
    if Last(p, p[i], i) == H.NOT_FOUND {
      e := 63;
    } else {
      e :| e < 64 && Distance(p, i) + 1 == Pow2(e);
    }
  }

  /** The counters are the miss counts exactly when the trace is harmless, and never less. */
  lemma CountsIffHarmless(p: seq<int>, events: seq<Event>)
    requires |p| == |events| <= INFINITE
    requires forall i :: 0 <= i < |p| ==> events[i].distance == Stackdist.Reported(p, i)
    ensures forall e :: 0 <= e < 64 ==> Counted(events, |p|, e) >= Misses(p, |p|, Pow2(e))
    ensures (forall e :: 0 <= e < 64 ==> Counted(events, |p|, e) == Misses(p, |p|, Pow2(e))) <==> Harmless(p)
  {
    hide Misses, Distance, Pow2, Counted, Miscounted, Stackdist.Reported;
    forall i | 0 <= i < |p|
      ensures Distance(p, i) <= events[i].distance
    {
      Stackdist.ReportedIs(p, i);
    }
    forall e | 0 <= e < 64
      ensures Counted(events, |p|, e) >= Misses(p, |p|, Pow2(e))
      ensures Harmless(p) ==> Counted(events, |p|, e) == Misses(p, |p|, Pow2(e))
    {
      CountedAtLeast(p, events, |p|, e);
      if Harmless(p) {
        forall i | 0 <= i < |p|
          ensures events[i].distance < Pow2(e) <==> Distance(p, i) < Pow2(e)
        {
          SameSide(p, i, e);
        }
        CountedIsMisses(p, events, |p|, e);
      }
    }
    if !Harmless(p) {
      var i: nat :| i < |p| && Miscounted(p, i);
      var e := WrongSide(p, i);
      CountedAtLeast(p, events, |p|, e);
    }
  }

  /** Clean traces are harmless; of up to 2^63 accesses, no others are. */
  lemma HarmlessIffClean(p: seq<int>)
    ensures Stackdist.Clean(p) ==> Harmless(p)
    ensures |p| <= Pow2(63) && Harmless(p) ==> Stackdist.Clean(p)
  {
    hide Last, Distance, Stackdist.Lost, Pow2;
    if Stackdist.Clean(p) {
      forall i: nat | i < |p|
        ensures !Miscounted(p, i)
      {
        Stackdist.CleanKeeps(p, i);
      }
    } else {
      var j := Stackdist.FirstReuse(p, H.NOT_FOUND, |p|);
      Stackdist.ReportedIs(p, j);
      assert |p| <= Pow2(63) ==> Miscounted(p, j);
    }
  }

  /** A larger cache never misses more. */
  lemma {:induction false} CountedDecreases(events: seq<Event>, n: nat, e: nat, e': nat)
    requires n <= |events| && e <= e'
    ensures Counted(events, n, e') <= Counted(events, n, e)
  {
    if n > 0 {
      CountedDecreases(events, n - 1, e, e');
      Pow2Monotone(e, e');
    }
  }

  lemma {:induction false} Pow2Of63()
    ensures Pow2(63) == 0x8000_0000_0000_0000 && Pow2(64) == INFINITE + 1
  {
    assert Pow2(8) == 256;
    Pow2Sum(8, 8);
    Pow2Sum(16, 16);
    Pow2Sum(32, 32);
  }

  /** The counting run of `main`: the trace is processed and every report is passed on. */
  method CountMisses(p: seq<int>, fn: int -> nat, undefinedMask: nat) returns (sums: array<nat>)
    requires |p| <= INFINITE
    ensures sums.Length == SUMS_COUNT
    ensures (forall e :: 0 <= e < 64 ==> sums[e] == Misses(p, |p|, Pow2(e))) <==> Harmless(p)
    ensures forall e :: 0 <= e < 64 ==> sums[e] >= Misses(p, |p|, Pow2(e))
    ensures Stackdist.Clean(p) ==> Harmless(p)
    ensures |p| <= Pow2(63) ==> (Harmless(p) <==> Stackdist.Clean(p))
    ensures forall e, e' :: 0 <= e <= e' < 64 ==> sums[e'] <= sums[e]
  {
    sums := new nat[SUMS_COUNT](_ => 0);
    var events := Stackdist.ProcessTrace(p, fn);
    for i := 0 to |p|
      invariant forall e :: 0 <= e < 64 ==> sums[e] == Counted(events, i, e)
    {
      ReportFits(p, i);
      Callback(sums, events[i].distance, undefinedMask);
    }
    forall e, e' | 0 <= e <= e' < 64 ensures sums[e'] <= sums[e] {
      CountedDecreases(events, |p|, e, e');
    }
    CountsIffHarmless(p, events);
    HarmlessIffClean(p);
  }

  lemma {:induction false} ReportFits(p: seq<int>, i: nat)
    requires i < |p| <= INFINITE
    ensures 0 <= Stackdist.Reported(p, i) < Pow2(64)
  {
    Pow2Of63();
    Stackdist.ReportedDistance(p, i);
  }
}
