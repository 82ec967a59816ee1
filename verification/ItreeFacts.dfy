/** Facts about well-formed trees of holes: what the counts count, that the tree is canonical,
    and how high it can grow. */
module ItreeFacts {
  import opened Itree

  // ------------------------------------------------------------------ counts

  lemma RangeSize(a: int, b: int)
    requires a <= b + 1
    ensures |Range(a, b)| == b - a + 1
    decreases b - a
  {
    if a <= b {
      RangeSize(a + 1, b);
    }
  }

  lemma IdxBounds(t: Tree, a: int, b: int)
    requires Between(t, a, b)
    ensures forall i :: i in Idx(t) ==> a + 2 <= i <= b - 2
  {
    if t.Fork? {
      IdxBounds(t.l, a, t.k1);
      IdxBounds(t.r, t.k2, b);
    }
  }

  lemma {:induction false} DisjointUnion<T>(s1: set<T>, s2: set<T>, s3: set<T>)
    requires s1 !! s2 && s1 !! s3 && s2 !! s3
    ensures |s1 + s2 + s3| == |s1| + |s2| + |s3|
  {
    assert (s1 + s2) !! s3;
  }

  /** The sum of the interval widths is the number of indices. */
  lemma {:induction false} SumIsCount(t: Tree, a: int, b: int)
    requires Between(t, a, b)
    ensures Sum(t) == |Idx(t)|
  {
    if t.Fork? {
      SumIsCount(t.l, a, t.k1);
      SumIsCount(t.r, t.k2, b);
      IdxBounds(t.l, a, t.k1);
      IdxBounds(t.r, t.k2, b);
      RangeSize(t.k1, t.k2);
      DisjointUnion(Idx(t.l), Range(t.k1, t.k2), Idx(t.r));
    }
  }

  ghost function Larger(s: set<int>, i: int): set<int> {
    set j | j in s && j > i
  }

  lemma {:induction false} LargerSplit(s1: set<int>, k1: int, k2: int, s2: set<int>, i: int)
    requires (forall j :: j in s1 ==> j < k1) && k1 <= k2 && (forall j :: j in s2 ==> j > k2)
    ensures i < k1 ==> |Larger(s1 + Range(k1, k2) + s2, i)| == |Larger(s1, i)| + (k2 - k1 + 1) + |s2|
    ensures i > k2 ==> Larger(s1 + Range(k1, k2) + s2, i) == Larger(s2, i)
  {
    if i < k1 {
      RangeSize(k1, k2);
      DisjointUnion(Larger(s1, i), Range(k1, k2), s2);
      assert Larger(s1 + Range(k1, k2) + s2, i) == Larger(s1, i) + Range(k1, k2) + s2;
    }
  }

  /** `Above` is the number of stored indices larger than an index that is not stored. */
  lemma {:induction false} AboveIsCount(t: Tree, a: int, b: int, i: int)
    requires Between(t, a, b) && i !in Idx(t)
    ensures Above(t, i) == |Larger(Idx(t), i)|
  {
    if t.Fork? {
      IdxBounds(t.l, a, t.k1);
      IdxBounds(t.r, t.k2, b);
      SumIsCount(t.r, t.k2, b);
      LargerSplit(Idx(t.l), t.k1, t.k2, Idx(t.r), i);
      assert i !in Range(t.k1, t.k2);
      AboveIsCount(t.l, a, t.k1, i);
      AboveIsCount(t.r, t.k2, b, i);
    } else {
      assert Larger(Idx(t), i) == {};
    }
  }

  // --------------------------------------------------------------- canonicity

  /** [lo, hi] is a maximal run of consecutive members of `s`. */
  ghost predicate MaximalRun(s: set<int>, lo: int, hi: int) {
    lo <= hi && Range(lo, hi) <= s && lo - 1 !in s && hi + 1 !in s
  }

  lemma MaximalRunUnique(s: set<int>, lo: int, hi: int, lo': int, hi': int, i: int)
    requires MaximalRun(s, lo, hi) && MaximalRun(s, lo', hi') && lo <= i <= hi && lo' <= i <= hi'
    ensures lo == lo' && hi == hi'
  {
    assert lo - 1 !in Range(lo', hi') && lo' - 1 !in Range(lo, hi);
    assert hi + 1 !in Range(lo', hi') && hi' + 1 !in Range(lo, hi);
  }

  ghost predicate Separated(s: seq<Interval>) {
    forall i, j :: 0 <= i < j < |s| ==> s[i].hi + 1 < s[j].lo
  }

  lemma {:induction false} SeparatedConcat(s1: seq<Interval>, v: Interval, s2: seq<Interval>)
    requires Separated(s1) && Separated(s2)
    requires forall i :: 0 <= i < |s1| ==> s1[i].lo <= s1[i].hi < v.lo - 1
    requires forall i :: 0 <= i < |s2| ==> v.hi + 1 < s2[i].lo
    requires v.lo <= v.hi
    ensures Separated(s1 + [v] + s2)
  {
  }

  lemma {:induction false} InOrderBounds(t: Tree, a: int, b: int)
    requires Between(t, a, b)
    ensures forall i :: 0 <= i < |InOrder(t)| ==> a + 2 <= InOrder(t)[i].lo <= InOrder(t)[i].hi <= b - 2
    ensures Separated(InOrder(t)) && |InOrder(t)| == Size(t)
  {
    if t.Fork? {
      InOrderBounds(t.l, a, t.k1);
      InOrderBounds(t.r, t.k2, b);
      SeparatedConcat(InOrder(t.l), Interval(t.k1, t.k2), InOrder(t.r));
    }
  }

  /** A maximal run lies on one side of a gap. */
  lemma {:induction false} RunsOfUnion(s1: set<int>, k1: int, k2: int, s2: set<int>, lo: int, hi: int)
    requires (forall j :: j in s1 ==> j < k1 - 1) && k1 <= k2 && (forall j :: j in s2 ==> j > k2 + 1)
    ensures MaximalRun(s1 + Range(k1, k2) + s2, lo, hi) <==>
      MaximalRun(s1, lo, hi) || (lo == k1 && hi == k2) || MaximalRun(s2, lo, hi)
  {
    var s := s1 + Range(k1, k2) + s2;
    assert MaximalRun(s, k1, k2);
    if MaximalRun(s, lo, hi) {
      assert lo in Range(lo, hi) && hi in Range(lo, hi);
      assert lo <= k1 - 1 <= hi ==> k1 - 1 in Range(lo, hi);
      assert lo <= k2 + 1 <= hi ==> k2 + 1 in Range(lo, hi);
      if k1 <= lo <= k2 {
        MaximalRunUnique(s, lo, hi, k1, k2, lo);
      }
    }
    assert MaximalRun(s1, lo, hi) ==> hi in Range(lo, hi) && hi in s1;
    assert MaximalRun(s2, lo, hi) ==> lo in Range(lo, hi) && lo in s2;
  }

  /** The in-order intervals are exactly the maximal runs of the stored set. */
  lemma {:induction false} InOrderIsMaximalRuns(t: Tree, a: int, b: int, lo: int, hi: int)
    requires Between(t, a, b)
    ensures Interval(lo, hi) in InOrder(t) <==> MaximalRun(Idx(t), lo, hi)
  {
    match t {
      case Leaf =>
        assert lo <= hi ==> lo in Range(lo, hi);
      case Fork(l, _, k1, k2, _, _, r) =>
        InOrderIsMaximalRuns(l, a, k1, lo, hi);
        InOrderIsMaximalRuns(r, k2, b, lo, hi);
        IdxBounds(l, a, k1);
        IdxBounds(r, k2, b);
        RunsOfUnion(Idx(l), k1, k2, Idx(r), lo, hi);
    }
  }

  lemma {:induction false} SeparatedUnique(s1: seq<Interval>, s2: seq<Interval>)
    requires Separated(s1) && Separated(s2)
    requires forall v :: v in s1 ==> v.lo <= v.hi
    requires forall v :: v in s1 <==> v in s2
    ensures s1 == s2
  {
    if s1 != [] {
      assert s1[0] in s2 && s2[0] in s1;
      assert s1[0] == s2[0];
      forall v ensures v in s1[1..] <==> v in s2[1..] {
        if v in s1[1..] {
          assert v in s1 && v != s1[0];
          assert v in s2;
        }
        if v in s2[1..] {
          assert v in s2 && v != s2[0];
          assert v in s1;
        }
      }
      SeparatedUnique(s1[1..], s2[1..]);
    }
  }

  /** The stored set determines the intervals: two trees holding the same indices hold the same
      intervals in the same order, whatever the insertions that built them. */
  lemma {:induction false} Canonical(t1: Tree, a1: int, b1: int, t2: Tree, a2: int, b2: int)
    requires Between(t1, a1, b1) && Between(t2, a2, b2) && Idx(t1) == Idx(t2)
    ensures InOrder(t1) == InOrder(t2)
  {
    InOrderBounds(t1, a1, b1);
    InOrderBounds(t2, a2, b2);
    forall v: Interval ensures v in InOrder(t1) <==> v in InOrder(t2) {
      InOrderIsMaximalRuns(t1, a1, b1, v.lo, v.hi);
      InOrderIsMaximalRuns(t2, a2, b2, v.lo, v.hi);
    }
    SeparatedUnique(InOrder(t1), InOrder(t2));
  }

  // ------------------------------------------------------------- node counts

  function Before(i: int): int {
    i - 1
  }

  /** The first indices of the maximal runs of `s`. */
  ghost function Starts(s: set<int>): set<int> {
    set i | i in s && Before(i) !in s
  }

  lemma {:induction false} StartsOfUnion(s1: set<int>, k1: int, k2: int, s2: set<int>)
    requires (forall j :: j in s1 ==> j < k1 - 1) && k1 <= k2 && (forall j :: j in s2 ==> j > k2 + 1)
    ensures |Starts(s1 + Range(k1, k2) + s2)| == |Starts(s1)| + 1 + |Starts(s2)|
  {
    var s := s1 + Range(k1, k2) + s2;
    forall i ensures i in Starts(s) <==> i in Starts(s1) + {k1} + Starts(s2) {
      assert Before(i) in s <==> Before(i) in s1 || k1 <= Before(i) <= k2 || Before(i) in s2;
    }
    assert Starts(s) == Starts(s1) + {k1} + Starts(s2);
    DisjointUnion(Starts(s1), {k1}, Starts(s2));
  }

  /** The tree has one node for every maximal run. */
  lemma {:induction false} SizeIsRuns(t: Tree, a: int, b: int)
    requires Between(t, a, b)
    ensures Size(t) == |Starts(Idx(t))|
  {
    if t.Fork? {
      SizeIsRuns(t.l, a, t.k1);
      SizeIsRuns(t.r, t.k2, b);
      IdxBounds(t.l, a, t.k1);
      IdxBounds(t.r, t.k2, b);
      StartsOfUnion(Idx(t.l), t.k1, t.k2, Idx(t.r));
    } else {
      assert Starts(Idx(t)) == {};
    }
  }

  function Present(s: set<int>, i: int): int {
    if i in s then 1 else 0
  }

  /** Adding an index changes the number of runs by +1, 0 or -1, as none, one or both of its
      neighbours are present. */
  lemma {:induction false} StartsAfterInsert(s: set<int>, i: int)
    requires i !in s
    ensures |Starts(s + {i})| == |Starts(s)| + 1 - Present(s, i - 1) - Present(s, i + 1)
  {
    var s' := Starts(s + {i});
    var rest := Starts(s) - {i + 1};
    assert i + 1 in Starts(s) <==> i + 1 in s;
    assert s' == if i - 1 in s then rest else rest + {i};
  }

  /** Each node needs an index of its own and a gap after it. */
  lemma {:induction false} SizeBound(t: Tree, a: int, b: int)
    requires Between(t, a, b) && t.Fork?
    ensures 2 * Size(t) <= b - a - 2
  {
    if t.l.Fork? {
      SizeBound(t.l, a, t.k1);
    }
    if t.r.Fork? {
      SizeBound(t.r, t.k2, b);
    }
  }

  // ------------------------------------------------------------------ height

  function Fib(n: nat): nat {
    if n == 0 then 0 else if n == 1 then 1 else Fib(n - 1) + Fib(n - 2)
  }

  lemma {:induction false} FibMonotone(m: nat, n: nat)
    requires m <= n
    ensures Fib(m) <= Fib(n)
    decreases n
  {
    if m < n && n >= 2 {
      FibMonotone(m, n - 1);
    }
  }

  lemma {:induction false} Distribute(a: int, b: int, x: int, y: int)
    ensures a * (x + y) + b * x == (a + b) * x + a * y
  {
  }

  lemma {:induction false} FibSum(m: nat, n: nat)
    requires m >= 1
    ensures Fib(m + n) == Fib(m) * Fib(n + 1) + Fib(m - 1) * Fib(n)
    decreases m
  {
    if m >= 2 {
      var a, b, x, y := Fib(m - 1), Fib(m - 2), Fib(n + 1), Fib(n);
      FibSum(m - 1, n + 1);
      assert Fib(n + 2) == x + y && Fib(m) == a + b;
      Distribute(a, b, x, y);
    }
  }

  /** An AVL tree of height h has at least Fib(h + 3) - 1 nodes. */
  lemma {:induction false} AvlSize(t: Tree)
    requires Avl(t)
    ensures Height(t) >= -1 && Size(t) >= Fib(Height(t) + 3) - 1
  {
    hide Fib;
    if t.Leaf? {
      FibTwo();
    } else {
      AvlSize(t.l);
      AvlSize(t.r);
      FibOfHeights(Height(t.l), Height(t.r));
    }
  }

  lemma FibTwo()
    ensures Fib(2) == 1
  {
  }

  lemma FibOfHeights(l: int, r: int)
    requires l >= -1 && r >= -1 && Abs(l - r) <= 1
    ensures Fib(Max(l, r) + 4) <= Fib(l + 3) + Fib(r + 3)
  {
    FibMonotone(Max(l, r) + 2, l + 3);
    FibMonotone(Max(l, r) + 2, r + 3);
  }

  lemma {:induction false} SmallFibs()
    ensures Fib(10) == 55 && Fib(11) == 89 && Fib(12) == 144 && Fib(13) == 233
  {
    assert Fib(6) == 8 && Fib(7) == 13;
    assert Fib(8) == 21 && Fib(9) == 34;
    assert Fib(10) == 55 && Fib(11) == 89;
  }

  lemma {:induction false} LargeFib()
    ensures Fib(92) == 7540113804746346429 && Fib(93) == 12200160415121876738
  {
    hide Fib;
    SmallFibs();
    FibSum(11, 11);
    FibSum(12, 11);
    FibSum(12, 12);
    FibSum(23, 23);
    FibSum(24, 23);
    FibSum(23, 22);
    FibSum(47, 45);
    FibSum(47, 46);
  }

  /** A tree with few nodes is not high. */
  lemma {:induction false} HeightFromSize(t: Tree, n: nat)
    requires Avl(t) && Size(t) < Fib(n) - 1
    ensures Height(t) + 3 < n
  {
    AvlSize(t);
    if n <= Height(t) + 3 {
      FibMonotone(n, Height(t) + 3);
    }
  }

  /** `uint64_t` indices lie strictly between these bounds, with a gap to spare. */
  const LOW := -2
  const HIGH := 0x1_0000_0000_0000_0001

  /** No tree of 64-bit indices is higher than 89, so the `int8_t` and `uint8_t` heights never
      wrap. */
  lemma {:induction false} HeightBound(t: Tree)
    requires Between(t, LOW, HIGH) && Avl(t)
    ensures Height(t) <= 89
  {
    hide Fib;
    LargeFib();
    AvlSize(t);
    if t.Fork? {
      SizeBound(t, LOW, HIGH);
      HeightFromSize(t, 93);
    }
  }

  /** `ITREE_MAX_DEPTH`. */
  const MAX_DEPTH := 64

  /** Fewer than Fib(67) - 1 nodes keep the tree within `ITREE_MAX_DEPTH` levels. */
  lemma {:induction false} DepthBound(t: Tree)
    requires Avl(t) && Size(t) < Fib(67) - 1
    ensures Height(t) + 1 <= MAX_DEPTH
  {
    hide Fib;
    HeightFromSize(t, 67);
  }

  lemma {:induction false} SumBound(t: Tree, a: int, b: int)
    requires Between(t, a, b)
    ensures 0 <= Sum(t) && (t.Fork? ==> Sum(t) <= b - a - 3)
  {
    if t.Fork? {
      SumBound(t.l, a, t.k1);
      SumBound(t.r, t.k2, b);
    }
  }

  ghost predicate FitsWords(t: Tree) {
    t.Fork? ==>
      0 <= t.k1 <= t.k2 < 0x1_0000_0000_0000_0000 && 0 <= t.v < 0x1_0000_0000_0000_0000 && 0 <= t.h < 128 &&
      FitsWords(t.l) && FitsWords(t.r)
  }

  /** Every field of every node fits its C type. */
  lemma {:induction false} FieldsFit(t: Tree, a: int, b: int)
    requires Between(t, a, b) && LOW <= a && b <= HIGH && Avl(t) && SumsExact(t) && Height(t) <= 89
    ensures FitsWords(t)
  {
    if t.Fork? {
      AvlSize(t.l);
      AvlSize(t.r);
      SumBound(t.r, t.k2, b);
      FieldsFit(t.l, a, t.k1);
      FieldsFit(t.r, t.k2, b);
    }
  }

  // --------------------------------------------------------------- word arithmetic

  const WORD := 0x1_0000_0000_0000_0000

  function Word(x: int): int {
    x % WORD
  }

  /** Adding or subtracting one can wrap in the comparisons of the source; they come out the same. */
  lemma ComparisonsWrap(index: int, k1: int, k2: int)
    requires 0 <= index < WORD && 0 <= k1 <= k2 < WORD
    ensures index < k1 ==> (k1 == Word(index + 1) <==> k1 == index + 1)
    ensures k2 < index ==> (k2 == Word(index - 1) <==> k2 == index - 1)
    ensures index > 0 ==> (index == Word(k2 + 1) <==> index == k2 + 1)
    ensures index == k1 - 1 || k2 + 1 == index ==> index == Word(k1 - 1) || Word(k2 + 1) == index
  {
  }

  /** The same for the assertion of a merge. */
  lemma MergeWraps(k1: int, k2: int, k1': int, k2': int)
    requires 0 <= k1 <= k2 < WORD && 0 <= k1' <= k2' < WORD
    requires k2 + 1 == k1' - 1 || k1 - 1 == k2' + 1
    ensures Word(k2 + 1) == Word(k1' - 1) || Word(k1 - 1) == Word(k2' + 1)
  {
  }
}
