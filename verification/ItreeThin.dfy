/** The highest trees of holes: for every height up to 89 there is a well-formed tree over 64-bit
    indices with as few nodes as the height allows, so the bounds on height and depth are sharp. */
module ItreeThin {
  import opened Itree
  import opened ItreeFacts
  import opened Seqs

  ghost function ThinSize(h: int): nat {
    if h < 0 then 0 else ThinSize(h - 1) + 1 + ThinSize(h - 2)
  }

  lemma {:induction false} ThinIsFib(h: int)
    requires h >= -1
    ensures ThinSize(h) == Fib(h + 3) - 1
    decreases h + 1
  {
    assert Fib(2) == 1 && Fib(3) == 2;
    if h > 0 {
      ThinIsFib(h - 1);
      ThinIsFib(h - 2);
    }
  }

  /** The thinnest AVL tree of height `h` over single indices from `lo` on, two apart. */
  ghost function Thin(h: int, lo: int, ns: seq<Node>): Tree
    requires |ns| == ThinSize(h)
    decreases h + 2
  {
    if h < 0 then Leaf else
      var a := ThinSize(h - 1);
      var k := lo + 2 * a;
      Fork(Thin(h - 1, lo, ns[..a]), ns[a], k, k, ThinSize(h - 2), h, Thin(h - 2, k + 2, ns[a + 1..]))
  }

  lemma {:induction false} ThinSums(h: int, lo: int, ns: seq<Node>)
    requires |ns| == ThinSize(h)
    ensures var t := Thin(h, lo, ns); SumsExact(t) && Sum(t) == ThinSize(h) && Size(t) == ThinSize(h)
    decreases h + 2
  {
    if h >= 0 {
      var a := ThinSize(h - 1);
      ThinSums(h - 1, lo, ns[..a]);
      ThinSums(h - 2, lo + 2 * a + 2, ns[a + 1..]);
    }
  }

  lemma {:induction false} ThinHeight(h: int, lo: int, ns: seq<Node>)
    requires |ns| == ThinSize(h)
    ensures Height(Thin(h, lo, ns)) == Max(h, -1) && Avl(Thin(h, lo, ns))
    decreases h + 2
  {
    if h >= 0 {
      var a := ThinSize(h - 1);
      ThinHeight(h - 1, lo, ns[..a]);
      ThinHeight(h - 2, lo + 2 * a + 2, ns[a + 1..]);
    }
  }

  lemma {:induction false} ThinBetween(h: int, lo: int, ns: seq<Node>)
    requires |ns| == ThinSize(h)
    ensures Between(Thin(h, lo, ns), lo - 2, lo + 2 * ThinSize(h))
    decreases h + 2
  {
    if h >= 0 {
      var a := ThinSize(h - 1);
      ThinBetween(h - 1, lo, ns[..a]);
      ThinBetween(h - 2, lo + 2 * a + 2, ns[a + 1..]);
    }
  }

  lemma {:induction false} ThinDistinct(h: int, lo: int, ns: seq<Node>)
    requires |ns| == ThinSize(h) && NoRepeats(ns)
    ensures Distinct(Thin(h, lo, ns)) && forall n :: n in Nodes(Thin(h, lo, ns)) ==> n in ns
    decreases h + 2
  {
    if h >= 0 {
      var a := ThinSize(h - 1);
      ThinDistinct(h - 1, lo, ns[..a]);
      ThinDistinct(h - 2, lo + 2 * a + 2, ns[a + 1..]);
    }
  }

  lemma {:induction false} Wider(t: Tree, a: int, b: int, a': int, b': int)
    requires Between(t, a, b) && a' <= a && b <= b'
    ensures Between(t, a', b')
  {
    if t.Fork? {
      Wider(t.l, a, t.k1, a', t.k1);
      Wider(t.r, t.k2, b, t.k2, b');
    }
  }

  /** Every height up to 89 is attained by a well-formed tree of 64-bit indices with Fib(h + 3) - 1 nodes. */
  lemma HeightAttained(h: int, ns: seq<Node>)
    requires 0 <= h <= 89 && NoRepeats(ns) && |ns| == Fib(h + 3) - 1
    ensures exists t :: WellFormed(t, LOW, HIGH) && Height(t) == h && Size(t) == Fib(h + 3) - 1
  {
    hide Fib, Thin, Between, Avl, SumsExact, Distinct, Height, Size, ThinSize;
    ThinIsFib(h);
    var t := Thin(h, 0, ns);
    ThinSums(h, 0, ns);
    ThinHeight(h, 0, ns);
    ThinBetween(h, 0, ns);
    ThinDistinct(h, 0, ns);
    FibMonotone(h + 3, 92);
    LargeFib();
    Wider(t, -2, 2 * ThinSize(h), LOW, HIGH);
  }

  /** Fib(67) - 1 nodes, and no fewer, can need more levels than `ITREE_MAX_DEPTH`. */
  lemma DepthExceeded(ns: seq<Node>)
    requires NoRepeats(ns) && |ns| == Fib(67) - 1
    ensures exists t :: WellFormed(t, LOW, HIGH) && Size(t) == Fib(67) - 1 && Height(t) + 1 > MAX_DEPTH
    ensures forall t | WellFormed(t, LOW, HIGH) && Height(t) + 1 > MAX_DEPTH :: Size(t) >= Fib(67) - 1
  {
    hide Fib, Between, Avl, SumsExact, Distinct, Height, Size;
    HeightAttained(64, ns);
    forall t | WellFormed(t, LOW, HIGH) && Height(t) + 1 > MAX_DEPTH
      ensures Size(t) >= Fib(67) - 1
    {
      if Size(t) < Fib(67) - 1 {
        DepthBound(t);
      }
    }
  }
}
