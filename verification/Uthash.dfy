/** The hash table of uthash.h as hash.c uses it: bucket chains threaded through the entries, an
    application-order list threaded through the same entries, and bucket doubling. */
module Uthash {
  import opened Bits
  import opened Growth
  import opened Seqs

  /** `hash_entry_t` with its `UT_hash_handle`. */
  class Entry {
    var k: int
    var v: int
    var tbl: Table?
    var prev: Entry?
    var next: Entry?
    var hhPrev: Entry?
    var hhNext: Entry?
    var hashv: nat

    constructor () {
    }
  }

  /** `UT_hash_bucket`. */
  datatype Bucket = Bucket(head: Entry?, count: nat, expandMult: nat)

  const INITIAL_LOG2 := 5
  const CAPACITY_THRESHOLD := 10

  // ---------------------------------------------------------------- linkage

  ghost function At(s: seq<Entry>, i: int): Entry? {
    if 0 <= i < |s| then s[i] else null
  }

  ghost predicate OrderAt(s: seq<Entry>, i: int)
    requires 0 <= i < |s|
    reads s`next, s`prev
  {
    s[i].next == At(s, i + 1) && s[i].prev == At(s, i - 1)
  }

  /** The application-order links follow `s`. */
  ghost predicate OrderLinked(s: seq<Entry>)
    reads s`next, s`prev
  {
    forall i :: 0 <= i < |s| ==> OrderAt(s, i)
  }

  ghost predicate ChainAt(c: seq<Entry>, i: int)
    requires 0 <= i < |c|
    reads c`hhNext, c`hhPrev
  {
    c[i].hhNext == At(c, i + 1) && c[i].hhPrev == At(c, i - 1)
  }

  /** The bucket links follow `c`. */
  ghost predicate ChainLinked(c: seq<Entry>)
    reads c`hhNext, c`hhPrev
  {
    forall i :: 0 <= i < |c| ==> ChainAt(c, i)
  }

  ghost function Members(chains: seq<seq<Entry>>): set<Entry> {
    set b, e | 0 <= b < |chains| && e in chains[b] :: e
  }

  /** Every bucket head starts its chain. */
  ghost predicate HeadsLinked(buckets: array<Bucket>, chains: seq<seq<Entry>>)
    reads buckets, Members(chains)`hhNext, Members(chains)`hhPrev
  {
    buckets.Length == |chains| &&
    forall b :: 0 <= b < |chains| ==>
      buckets[b].head == At(chains[b], 0) &&
      assert forall e :: e in chains[b] ==> e in Members(chains);
      ChainLinked(chains[b])
  }

  ghost predicate CountsExact(buckets: array<Bucket>, chains: seq<seq<Entry>>)
    reads buckets
  {
    buckets.Length == |chains| && forall b :: 0 <= b < |chains| ==> buckets[b].count == |chains[b]|
  }

  /** `HASH_TO_BKT`. */
  function ToBucket(hashv: nat, numBuckets: nat): nat
    requires numBuckets > 0
  {
    And(hashv, numBuckets - 1)
  }

  /** Every entry of `all` is in exactly one chain, once: that of its hash value. */
  ghost predicate Placed(chains: seq<seq<Entry>>, all: set<Entry>)
    reads all`hashv
  {
    (forall b :: 0 <= b < |chains| ==> NoRepeats(chains[b])) &&
    (forall b, e :: 0 <= b < |chains| && e in chains[b] ==> e in all && ToBucket(e.hashv, |chains|) == b) &&
    (forall e :: e in all ==>
      0 < |chains| && ToBucket(e.hashv, |chains|) < |chains| && e in chains[ToBucket(e.hashv, |chains|)])
  }

  lemma {:induction false} PlacedMembers(chains: seq<seq<Entry>>, all: set<Entry>)
    requires Placed(chains, all)
    ensures Members(chains) == all
  {
    forall e ensures e in Members(chains) <==> e in all {
      if e in Members(chains) {
        var b :| 0 <= b < |chains| && e in chains[b];
      }
    }
  }

  lemma {:induction false} PlacedAt(chains: seq<seq<Entry>>, all: set<Entry>, e: Entry) returns (d: nat)
    requires Placed(chains, all) && e in all
    ensures 0 < |chains| && ToBucket(e.hashv, |chains|) < |chains|
    ensures d < |chains[ToBucket(e.hashv, |chains|)]| && chains[ToBucket(e.hashv, |chains|)][d] == e
  {
    d :| 0 <= d < |chains[ToBucket(e.hashv, |chains|)]| && chains[ToBucket(e.hashv, |chains|)][d] == e;
  }

  lemma {:induction false} PlaceFront(chains: seq<seq<Entry>>, all: set<Entry>, e: Entry)
    requires Placed(chains, all) && e !in all && 0 < |chains| && ToBucket(e.hashv, |chains|) < |chains|
    ensures var b := ToBucket(e.hashv, |chains|); Placed(chains[b := [e] + chains[b]], all + {e})
  {
    var b := ToBucket(e.hashv, |chains|);
    var chains' := chains[b := [e] + chains[b]];
    forall f | f in all + {e} ensures f in chains'[ToBucket(f.hashv, |chains|)] {
      if f != e {
        assert f in chains[ToBucket(f.hashv, |chains|)];
      }
    }
  }

  lemma {:induction false} PlaceRemove(chains: seq<seq<Entry>>, all: set<Entry>, b: nat, d: nat)
    requires Placed(chains, all) && b < |chains| && d < |chains[b]|
    ensures Placed(chains[b := Without(chains[b], d)], all - {chains[b][d]})
  {
    var e, c, c' := chains[b][d], chains[b], Without(chains[b], d);
    var chains' := chains[b := c'];
    assert forall i :: 0 <= i < |c'| ==> c'[i] == c[if i < d then i else i + 1];
    assert NoRepeats(c) && NoRepeats(c');
    forall f ensures f in c' <==> f in c && f != e {
      if f in c && f != e {
        var i :| 0 <= i < |c| && c[i] == f;
        assert c'[if i < d then i else i - 1] == f;
      }
    }
    forall i, f | 0 <= i < |chains'| && f in chains'[i] ensures f in all - {e} && ToBucket(f.hashv, |chains|) == i {
      assert f in chains[i];
      assert e in chains[b];
    }
    forall f | f in all - {e} ensures f in chains'[ToBucket(f.hashv, |chains|)] {
      assert f in chains[ToBucket(f.hashv, |chains|)];
    }
  }

  /** Puts `e` at the front of chain `b`: the link updates shared by `HASH_ADD_TO_BKT` and
      `HASH_EXPAND_BUCKETS`. */
  method LinkFront(buckets: array<Bucket>, b: nat, e: Entry, ghost chains: seq<seq<Entry>>, ghost all: set<Entry>)
    requires HeadsLinked(buckets, chains) && Placed(chains, all) && b < |chains| && e !in all
    modifies buckets, e`hhNext, e`hhPrev, all`hhPrev
    ensures HeadsLinked(buckets, chains[b := [e] + chains[b]])
    ensures forall i :: 0 <= i < buckets.Length && i != b ==> buckets[i] == old(buckets[i])
    ensures buckets[b] == old(buckets[b]).(head := e)
  {
    PlacedMembers(chains, all);
    var first := buckets[b].head;
    e.hhNext := first;
    e.hhPrev := null;
    if first != null {
      first.hhPrev := e;
    }
    buckets[b] := buckets[b].(head := e);
    ghost var c, c' := chains[b], [e] + chains[b];
    forall i | 0 <= i < |c'| ensures ChainAt(c', i) {
      if i > 0 {
        assert c'[i] == c[i - 1] && old(ChainAt(c, i - 1));
      }
    }
    forall i | 0 <= i < |chains| && i != b ensures ChainLinked(chains[i]) {
      assert old(ChainLinked(chains[i]));
    }
  }

  /** The link updates of `HASH_DEL_IN_BKT`. */
  method UnlinkFrom(buckets: array<Bucket>, b: nat, e: Entry,
                    ghost d: nat, ghost chains: seq<seq<Entry>>, ghost all: set<Entry>)
    requires HeadsLinked(buckets, chains) && Placed(chains, all) && b < |chains| && d < |chains[b]| && chains[b][d] == e
    modifies buckets, all`hhNext, all`hhPrev
    ensures HeadsLinked(buckets, chains[b := Without(chains[b], d)])
    ensures forall i :: 0 <= i < buckets.Length && i != b ==> buckets[i] == old(buckets[i])
    ensures buckets[b] == old(buckets[b]).(head := buckets[b].head)
  {
    PlacedMembers(chains, all);
    ghost var c, c' := chains[b], Without(chains[b], d);
    assert ChainAt(c, d) && ChainLinked(c);
    if buckets[b].head == e {
      buckets[b] := buckets[b].(head := e.hhNext);
    }
    if e.hhPrev != null {
      e.hhPrev.hhNext := e.hhNext;
    }
    if e.hhNext != null {
      e.hhNext.hhPrev := e.hhPrev;
    }
    forall k | 0 <= k < |c'| ensures ChainAt(c', k) {
      ghost var m := if k < d then k else k + 1;
      assert c'[k] == c[m] && old(ChainAt(c, m));
    }
    forall i | 0 <= i < |chains| && i != b ensures ChainLinked(chains[i]) {
      assert old(ChainLinked(chains[i]));
    }
  }

  ghost function ToSet(s: seq<Entry>): set<Entry> {
    set e | e in s
  }

  lemma {:induction false} BucketBound(hashv: nat, k: nat)
    ensures ToBucket(hashv, Pow2(k)) == hashv % Pow2(k) < Pow2(k)
  {
    AndLowMask(hashv, k);
  }

  /** From position `j` on, the `hh_next` links follow `c`. */
  ghost predicate NextFrom(c: seq<Entry>, j: int)
    reads c`hhNext
  {
    forall m :: 0 <= j <= m < |c| ==> c[m].hhNext == At(c, m + 1)
  }

  method Increment(buckets: array<Bucket>, b: nat, ghost nc: seq<seq<Entry>>)
    requires HeadsLinked(buckets, nc) && b < |nc|
    modifies buckets
    ensures HeadsLinked(buckets, nc)
    ensures forall i :: 0 <= i < buckets.Length ==>
      buckets[i] == old(buckets[i]).(count := old(buckets[i]).count + if i == b then 1 else 0)
  {
    buckets[b] := buckets[b].(count := buckets[b].count + 1);
    forall i | 0 <= i < |nc| ensures ChainLinked(nc[i]) {
      assert old(ChainLinked(nc[i]));
    }
  }

  method Decrement(buckets: array<Bucket>, b: nat, ghost nc: seq<seq<Entry>>)
    requires HeadsLinked(buckets, nc) && b < |nc| && buckets[b].count > 0
    modifies buckets
    ensures HeadsLinked(buckets, nc)
    ensures forall i :: 0 <= i < buckets.Length ==> buckets[i].count == old(buckets[i]).count - if i == b then 1 else 0
    ensures forall i :: 0 <= i < buckets.Length ==> buckets[i].expandMult == old(buckets[i]).expandMult
  {
    buckets[b] := buckets[b].(count := buckets[b].count - 1);
    forall i | 0 <= i < |nc| ensures ChainLinked(nc[i]) {
      assert old(ChainLinked(nc[i]));
    }
  }

  ghost function Lengths(nc: seq<seq<Entry>>): seq<nat> {
    seq(|nc|, b requires 0 <= b < |nc| => |nc[b]|)
  }

  ghost function Mults(buckets: array<Bucket>): seq<nat>
    reads buckets
  {
    seq(buckets.Length, b requires 0 <= b < buckets.Length reads buckets => buckets[b].expandMult)
  }

  /** Buckets filled by an expansion: `nonideal` counts the entries beyond the ideal chain length, and
      `expand_mult` says how many times over the ideal a chain is. */
  ghost predicate Filled(buckets: array<Bucket>, nc: seq<seq<Entry>>, maxlen: nat, nonideal: nat)
    requires maxlen > 0
    reads buckets
  {
    CountsExact(buckets, nc) && nonideal == Excess(Lengths(nc), maxlen) &&
    forall b :: 0 <= b < |nc| ==> buckets[b].expandMult == Multiplier(|nc[b]|, maxlen)
  }

  lemma {:induction false} ExcessUpdate(loads: seq<nat>, b: nat, n: nat, maxlen: nat)
    requires b < |loads|
    ensures Excess(loads[b := n], maxlen) == Excess(loads, maxlen) - Over(loads[b], maxlen) + Over(n, maxlen)
  {
    var m := |loads| - 1;
    if b < m {
      ExcessUpdate(loads[..m], b, n, maxlen);
      assert loads[b := n][..m] == loads[..m][b := n];
    } else {
      assert loads[b := n][..m] == loads[..m];
    }
  }

  lemma {:induction false} NoExcess(loads: seq<nat>, maxlen: nat)
    requires forall b :: 0 <= b < |loads| ==> loads[b] == 0
    ensures Excess(loads, maxlen) == 0
  {
    if loads != [] {
      NoExcess(loads[..|loads| - 1], maxlen);
    }
  }

  /** Counts one more entry in bucket `b`; `expand_mult` grows with chains longer than ideal. */
  method CountEntry(newBuckets: array<Bucket>, b: nat, maxlen: nat, nonideal: nat, ghost nc: seq<seq<Entry>>)
    returns (nonideal': nat)
    requires HeadsLinked(newBuckets, nc) && b < |nc| && maxlen > 0
    modifies newBuckets
    ensures HeadsLinked(newBuckets, nc)
    ensures forall i :: 0 <= i < newBuckets.Length ==>
      newBuckets[i].count == old(newBuckets[i].count) + (if i == b then 1 else 0) &&
      newBuckets[i].expandMult ==
        if i == b && newBuckets[b].count > maxlen then newBuckets[b].count / maxlen else old(newBuckets[i].expandMult)
    ensures nonideal' == nonideal + if newBuckets[b].count > maxlen then 1 else 0
  {
    nonideal' := nonideal;
    Increment(newBuckets, b, nc);
    if newBuckets[b].count > maxlen {
      nonideal' := nonideal' + 1;
      newBuckets[b] := newBuckets[b].(expandMult := newBuckets[b].count / maxlen);
      forall i | 0 <= i < |nc| ensures ChainLinked(nc[i]) {
        assert old(ChainLinked(nc[i]));
      }
    }
  }

  lemma MovePlan(nc: seq<seq<Entry>>, done: set<Entry>, thh: Entry, k: nat, maxlen: nat)
    requires Placed(nc, done) && |nc| == Pow2(k) && thh !in done
    ensures var b := ToBucket(thh.hashv, |nc|);
      b < |nc| && Placed(nc[b := [thh] + nc[b]], done + {thh}) &&
      Excess(Lengths(nc[b := [thh] + nc[b]]), maxlen) ==
        Excess(Lengths(nc), maxlen) + if |nc[b]| + 1 > maxlen then 1 else 0
  {
    hide Placed, Excess, ToBucket, And;
    BucketBound(thh.hashv, k);
    PlaceFront(nc, done, thh);
    var b := ToBucket(thh.hashv, |nc|);
    ExcessUpdate(Lengths(nc), b, |nc[b]| + 1, maxlen);
    assert Lengths(nc[b := [thh] + nc[b]]) == Lengths(nc)[b := |nc[b]| + 1];
  }

  /** One round of the inner loop of `HASH_EXPAND_BUCKETS`, except for the step along the chain. */
  method MoveEntry(newBuckets: array<Bucket>, thh: Entry, maxlen: nat, nonideal: nat,
                   ghost k: nat, ghost nc: seq<seq<Entry>>, ghost done: set<Entry>)
    returns (nonideal': nat, ghost nc': seq<seq<Entry>>)
    requires |nc| == Pow2(k) && thh !in done && maxlen > 0
    requires Placed(nc, done) && HeadsLinked(newBuckets, nc) && Filled(newBuckets, nc, maxlen, nonideal)
    modifies newBuckets, thh`hhNext, thh`hhPrev, done`hhPrev
    ensures Placed(nc', done + {thh}) && HeadsLinked(newBuckets, nc') && Filled(newBuckets, nc', maxlen, nonideal')
    ensures |nc'| == |nc|
  {
    hide Placed, HeadsLinked, Members, Pow2, And, ToBucket, NoRepeats, Excess;
    MovePlan(nc, done, thh, k, maxlen);
    assert newBuckets.Length == |nc|;
    var bkt := ToBucket(thh.hashv, newBuckets.Length);
    nonideal' := CountEntry(newBuckets, bkt, maxlen, nonideal, nc);
    LinkFront(newBuckets, bkt, thh, nc, done);
    nc' := nc[bkt := [thh] + nc[bkt]];
  }

  lemma NoneTaken(c: seq<Entry>, done: set<Entry>)
    ensures done + ToSet(c[..0]) == done
  {
  }

  lemma TakeOne(c: seq<Entry>, j: nat, done: set<Entry>)
    requires j < |c| && NoRepeats(c) && ToSet(c) !! done
    ensures done + ToSet(c[..j]) + {c[j]} == done + ToSet(c[..j + 1])
    ensures c[j] !in done + ToSet(c[..j]) && c[j] in ToSet(c) && ToSet(c[..j]) <= ToSet(c)
    ensures forall m :: j < m < |c| ==> c[m] != c[j] && c[m] !in ToSet(c[..j])
  {
    assert c[..j + 1] == c[..j] + [c[j]];
  }

  /** The inner loop of `HASH_EXPAND_BUCKETS`: moves the chain `c` to the new buckets. */
  method MoveChain(newBuckets: array<Bucket>, head: Entry?, maxlen: nat, nonideal: nat,
                   ghost c: seq<Entry>, ghost k: nat, ghost nc: seq<seq<Entry>>, ghost done: set<Entry>)
    returns (nonideal': nat, ghost nc': seq<seq<Entry>>)
    requires head == At(c, 0) && NoRepeats(c) && NextFrom(c, 0) && ToSet(c) !! done
    requires |nc| == Pow2(k) && maxlen > 0
    requires Placed(nc, done) && HeadsLinked(newBuckets, nc) && Filled(newBuckets, nc, maxlen, nonideal)
    modifies newBuckets, ToSet(c)`hhNext, (done + ToSet(c))`hhPrev
    ensures Placed(nc', done + ToSet(c)) && HeadsLinked(newBuckets, nc') && Filled(newBuckets, nc', maxlen, nonideal')
    ensures |nc'| == |nc|
  {
    hide Placed, HeadsLinked, Filled, Pow2, NoRepeats, ToSet;
    var thh := head;
    ghost var j := 0;
    nonideal', nc' := nonideal, nc;
    NoneTaken(c, done);
    while thh != null
      invariant 0 <= j <= |c| && thh == At(c, j) && NextFrom(c, j)
      invariant Placed(nc', done + ToSet(c[..j])) && HeadsLinked(newBuckets, nc')
      invariant Filled(newBuckets, nc', maxlen, nonideal')
      invariant |nc'| == |nc|
      decreases |c| - j
    {
      var nxt := thh.hhNext;
      TakeOne(c, j, done);
      nonideal', nc' := MoveEntry(newBuckets, thh, maxlen, nonideal', k, nc', done + ToSet(c[..j]));
      thh := nxt;
      j := j + 1;
    }
    assert c[..|c|] == c;
  }

  lemma {:induction false} MembersStep(chains: seq<seq<Entry>>, all: set<Entry>, i: nat)
    requires Placed(chains, all) && i < |chains|
    ensures Members(chains[..i + 1]) == Members(chains[..i]) + ToSet(chains[i])
    ensures ToSet(chains[i]) !! Members(chains[..i]) && ToSet(chains[i]) + Members(chains[..i]) <= all
    ensures NoRepeats(chains[i])
  {
    assert chains[..i + 1][i] == chains[i];
    assert forall b :: 0 <= b < i ==> chains[..i + 1][b] == chains[..i][b] == chains[b];
    forall e | e in Members(chains[..i]) ensures e in all && e !in chains[i] {
      var b :| 0 <= b < i && e in chains[..i][b];
      assert e in chains[b];
    }
  }

  lemma {:induction false} EmptyBuckets(buckets: array<Bucket>, nc: seq<seq<Entry>>, maxlen: nat)
    requires buckets.Length == |nc| && forall i :: 0 <= i < |nc| ==> nc[i] == [] && buckets[i] == Bucket(null, 0, 0)
    requires maxlen > 0
    ensures Placed(nc, {}) && HeadsLinked(buckets, nc) && Filled(buckets, nc, maxlen, 0)
    ensures Members(nc[..0]) == {}
  {
    NoExcess(Lengths(nc), maxlen);
  }

  lemma {:induction false} OldChains(buckets: array<Bucket>, chains: seq<seq<Entry>>, all: set<Entry>)
    requires HeadsLinked(buckets, chains) && Placed(chains, all)
    ensures forall k :: 0 <= k < |chains| ==> buckets[k].head == At(chains[k], 0) && NextFrom(chains[k], 0)
    ensures Members(chains) == all && buckets.Length == |chains|
  {
    PlacedMembers(chains, all);
    forall k, m | 0 <= k < |chains| && 0 <= m < |chains[k]| ensures chains[k][m].hhNext == At(chains[k], m + 1) {
      assert ChainAt(chains[k], m);
    }
  }

  /** Moving chain `i` does not touch the forward links of later chains. */
  lemma {:induction false} LaterChains(chains: seq<seq<Entry>>, all: set<Entry>, i: nat)
    requires Placed(chains, all) && i < |chains|
    ensures forall k :: i < k < |chains| ==> ToSet(chains[k]) !! ToSet(chains[i])
  {
    forall k, e | i < k < |chains| && e in chains[k] ensures e !in chains[i] {
      assert ToBucket(e.hashv, |chains|) == k;
    }
  }

  /** The outer loop of `HASH_EXPAND_BUCKETS`. */
  method MoveAll(newBuckets: array<Bucket>, buckets: array<Bucket>, n: nat, maxlen: nat,
                 ghost k: nat, ghost chains: seq<seq<Entry>>, ghost all: set<Entry>)
    returns (nonideal: nat, ghost nc: seq<seq<Entry>>)
    requires newBuckets != buckets && newBuckets.Length == Pow2(k) && n == |chains| && maxlen > 0
    requires forall i :: 0 <= i < newBuckets.Length ==> newBuckets[i] == Bucket(null, 0, 0)
    requires Placed(chains, all) && HeadsLinked(buckets, chains)
    modifies newBuckets, all`hhNext, all`hhPrev
    ensures Placed(nc, all) && HeadsLinked(newBuckets, nc) && Filled(newBuckets, nc, maxlen, nonideal)
    ensures |nc| == Pow2(k)
  {
    hide Placed, HeadsLinked, Filled, Members, Pow2, NextFrom, NoRepeats;
    nonideal := 0;
    nc := seq(newBuckets.Length, _ => []);
    EmptyBuckets(newBuckets, nc, maxlen);
    OldChains(buckets, chains, all);
    assert chains[..0] == nc[..0];
    for i := 0 to n
      invariant Placed(nc, Members(chains[..i])) && |nc| == Pow2(k)
      invariant HeadsLinked(newBuckets, nc) && Filled(newBuckets, nc, maxlen, nonideal)
      invariant forall j :: i <= j < n ==> buckets[j].head == At(chains[j], 0) && NextFrom(chains[j], 0)
    {
      MembersStep(chains, all, i);
      LaterChains(chains, all, i);
      nonideal, nc := MoveChain(newBuckets, buckets[i].head, maxlen, nonideal, chains[i], k, nc, Members(chains[..i]));
    }
    assert chains[..n] == chains;
  }

  lemma HalfShift(n: nat)
    ensures Shr(n, 1) == n / 2
  {
    ShrIsDiv(n, 1);
    assert Pow2(1) == 2;
  }

  lemma CeilUnique(c: nat, c': nat, n: nat, b: nat)
    requires b > 0 && IsCeil(c, n, b) && IsCeil(c', n, b)
    ensures c == c'
  {
    LessFromScaled(c - 1, c', b);
    LessFromScaled(c' - 1, c, b);
  }

  /** The buckets and counters an expansion leaves are those of `Doubled`. */
  lemma DoubledIs(buckets: array<Bucket>, nc: seq<seq<Entry>>, p: Policy, q: Policy, items: nat)
    requires |nc| > 0 && items > 0 && q.ideal > 0 && q.mults == Mults(buckets)
    requires Filled(buckets, nc, q.ideal, q.nonideal) && IsCeil(q.ideal, items, |nc|)
    requires q.ineff == if q.nonideal > items / 2 then p.ineff + 1 else 0
    requires q.noexpand == (p.noexpand || q.ineff > 1)
    ensures q == Doubled(p, Lengths(nc), items)
  {
    hide Excess, IsCeil;
    CeilUnique(q.ideal, Ceil(items, |nc|), items, |nc|);
    assert q.mults == Multipliers(Lengths(nc), q.ideal);
  }

  /** `UT_hash_table`. */
  class Table {
    var buckets: array<Bucket>
    var numBuckets: nat
    var log2NumBuckets: nat
    var numItems: nat
    var tail: Entry
    var idealChainMaxlen: nat
    var nonidealItems: nat
    var ineffExpands: nat
    var noexpand: bool
    ghost var chains: seq<seq<Entry>>
    ghost var all: set<Entry>
    ghost var order: seq<Entry>

    /** The bucket structure holds exactly the entries of `all`. */
    ghost predicate BucketsValid()
      reads `buckets, `numBuckets, `log2NumBuckets, `chains, `all
      reads buckets, all`hashv, all`hhNext, all`hhPrev
    {
      numBuckets == Pow2(log2NumBuckets) == |chains| && Placed(chains, all) && CountsExact(buckets, chains) &&
      (PlacedMembers(chains, all); HeadsLinked(buckets, chains))
    }

    /** What decides when the table grows. */
    ghost function GrowthPolicy(): Policy
      reads `buckets, `idealChainMaxlen, `nonidealItems, `ineffExpands, `noexpand, buckets
    {
      Policy(Mults(buckets), idealChainMaxlen, nonidealItems, ineffExpands, noexpand)
    }

    /** `HASH_MAKE_TABLE`. */
    constructor (head: Entry)
      ensures BucketsValid() && all == {} && order == [] && numItems == 0 && tail == head && fresh(buckets)
      ensures numBuckets == 32 && GrowthPolicy() == NewPolicy()
      ensures forall b :: 0 <= b < 32 ==> buckets[b] == Bucket(null, 0, 0)
    {
      tail, numItems := head, 0;
      numBuckets, log2NumBuckets := 32, INITIAL_LOG2;
      buckets := new Bucket[32](_ => Bucket(null, 0, 0));
      idealChainMaxlen, nonidealItems, ineffExpands, noexpand := 0, 0, 0, false;
      chains, all, order := seq(32, _ => []), {}, [];
      new;
      assert Pow2(5) == 32 by { assert Pow2(3) == 8; }
    }

    /** The first half of `HASH_EXPAND_BUCKETS`: the new bucket array, filled. */
    method Redistribute() returns (newBuckets: array<Bucket>, ghost nc: seq<seq<Entry>>)
      requires BucketsValid() && numItems > 0
      modifies this`idealChainMaxlen, this`nonidealItems, all`hhNext, all`hhPrev
      ensures fresh(newBuckets) && |nc| == Pow2(log2NumBuckets + 1)
      ensures Placed(nc, all) && HeadsLinked(newBuckets, nc) && Members(nc) == all
      ensures IsCeil(idealChainMaxlen, numItems, Pow2(log2NumBuckets + 1)) && idealChainMaxlen > 0
      ensures Filled(newBuckets, nc, idealChainMaxlen, nonidealItems)
    {
      hide Placed, HeadsLinked, Filled, And, Shr, IsCeil;
      var n, lg := numBuckets, log2NumBuckets;
      assert Pow2(lg + 1) == n * 2;
      hide Pow2;
      newBuckets := new Bucket[2 * n](_ => Bucket(null, 0, 0));
      ShiftCeil(numItems, lg + 1);
      idealChainMaxlen := Shr(numItems, lg + 1) + if And(numItems, n * 2 - 1) != 0 then 1 else 0;
      assert HeadsLinked(buckets, chains);
      nonidealItems, nc := MoveAll(newBuckets, buckets, n, idealChainMaxlen, lg + 1, chains, all);
      PlacedMembers(nc, all);
    }

    /** `HASH_EXPAND_BUCKETS`. */
    method Expand()
      requires BucketsValid() && numItems > 0
      modifies this`buckets, this`numBuckets, this`log2NumBuckets, this`idealChainMaxlen, this`nonidealItems,
        this`ineffExpands, this`noexpand, this`chains, all`hhNext, all`hhPrev
      ensures BucketsValid() && fresh(buckets)
      ensures numBuckets == 2 * old(numBuckets)
      ensures IsCeil(idealChainMaxlen, numItems, numBuckets) && idealChainMaxlen > 0
      ensures Filled(buckets, chains, idealChainMaxlen, nonidealItems)
      ensures ineffExpands == if nonidealItems > numItems / 2 then old(ineffExpands) + 1 else 0
      ensures noexpand == (old(noexpand) || ineffExpands > 1)
    {
      hide Placed, HeadsLinked, Excess, Shr, IsCeil, Members, Over, And;
      HalfShift(numItems);
      var newBuckets;
      ghost var nc;
      newBuckets, nc := Redistribute();
      numBuckets := numBuckets * 2;
      log2NumBuckets := log2NumBuckets + 1;
      buckets := newBuckets;
      chains := nc;
      ineffExpands := if nonidealItems > Shr(numItems, 1) then ineffExpands + 1 else 0;
      if ineffExpands > 1 {
        noexpand := true;
      }
    }

    /** `HASH_ADD_TO_BKT` up to its expansion test. */
    method Prepend(e: Entry) returns (b: nat)
      requires BucketsValid() && e !in all
      modifies this`chains, this`all, buckets, e`hhNext, e`hhPrev, all`hhPrev
      ensures BucketsValid() && all == old(all) + {e} && b < buckets.Length
      ensures b == ToBucket(e.hashv, numBuckets) && |old(chains)| == |chains|
      ensures chains == old(chains)[b := [e] + old(chains)[b]] && b == e.hashv % numBuckets
      ensures buckets[b].count == |old(chains)[b]| + 1 && buckets[b].expandMult == old(buckets[b].expandMult)
      ensures Mults(buckets) == old(Mults(buckets))
    {
      hide Placed, HeadsLinked, And, Pow2, ToBucket, Members;
      BucketBound(e.hashv, log2NumBuckets);
      b := ToBucket(e.hashv, numBuckets);
      PlaceFront(chains, all, e);
      Increment(buckets, b, chains);
      LinkFront(buckets, b, e, chains, all);
      chains := chains[b := [e] + chains[b]];
      all := all + {e};
      PlacedMembers(chains, all);
    }

    lemma HasBuckets(hashv: nat)
      requires BucketsValid()
      ensures 0 < numBuckets == |chains| == buckets.Length && hashv % numBuckets < numBuckets
    {
      BucketBound(hashv, log2NumBuckets);
    }

    /** An entry of this hash value makes its bucket full. */
    ghost predicate Overfull(hashv: nat)
      requires BucketsValid()
      reads `buckets, `numBuckets, `log2NumBuckets, `chains, `all, `noexpand
      reads buckets, all`hashv, all`hhNext, all`hhPrev
    {
      HasBuckets(hashv);
      var b := hashv % numBuckets;
      Full(|chains[b]| + 1, buckets[b].expandMult, noexpand)
    }

    /** `HASH_ADD_TO_BKT`. */
    method AddToBucket(e: Entry)
      requires BucketsValid() && e !in all && numItems > 0
      modifies this`buckets, this`numBuckets, this`log2NumBuckets, this`idealChainMaxlen, this`nonidealItems,
        this`ineffExpands, this`noexpand, this`chains, this`all, buckets, (all + {e})`hhNext, (all + {e})`hhPrev
      ensures BucketsValid() && all == old(all) + {e} && (buckets == old(buckets) || fresh(buckets))
      ensures 0 < numBuckets == |chains| == old(numBuckets) * if old(Overfull(e.hashv)) then 2 else 1
      ensures GrowthPolicy() ==
        if old(Overfull(e.hashv)) then Doubled(old(GrowthPolicy()), Lengths(chains), numItems) else old(GrowthPolicy())
      ensures !old(Overfull(e.hashv)) ==> chains == old(var b := e.hashv % |chains|; chains[b := [e] + chains[b]])
    {
      hide BucketsValid, Doubled, Filled, IsCeil;
      HasBuckets(e.hashv);
      ghost var p := GrowthPolicy();
      var b := Prepend(e);
      HasBuckets(e.hashv);
      if buckets[b].count >= (buckets[b].expandMult + 1) * CAPACITY_THRESHOLD && !noexpand {
        Expand();
        HasBuckets(e.hashv);
        DoubledIs(buckets, chains, p, GrowthPolicy(), numItems);
      }
    }

    /** `HASH_DEL_IN_BKT` on the bucket of `e`. */
    method DelInBucket(e: Entry)
      requires BucketsValid() && e in all
      modifies this`chains, this`all, buckets, all`hhNext, all`hhPrev
      ensures BucketsValid() && all == old(all) - {e}
      ensures GrowthPolicy() == old(GrowthPolicy()) && |chains| == |old(chains)|
    {
      hide Placed, HeadsLinked, And, Pow2, ToBucket, Members;
      ghost var d := PlacedAt(chains, all, e);
      var b := ToBucket(e.hashv, numBuckets);
      PlaceRemove(chains, all, b, d);
      Decrement(buckets, b, chains);
      UnlinkFrom(buckets, b, e, d, chains, all);
      chains := chains[b := Without(chains[b], d)];
      all := all - {e};
      PlacedMembers(chains, all);
    }

    /** The table holds the entries of `order`, in application order, under distinct keys. */
    ghost predicate Valid(hash: int -> nat)
      reads this, buckets, all, order
    {
      BucketsValid() && all == ToSet(order) && NoRepeats(order) && OrderLinked(order) &&
      order != [] && tail == order[|order| - 1] && numItems == |order| && Keyed(this, order, hash)
    }

    /** The application-order part of `HASH_DELETE` for an entry that is not alone; `head` is the
        caller's head pointer. */
    method UnlinkOrder(head: Entry, e: Entry, ghost d: nat) returns (head': Entry)
      requires NoRepeats(order) && OrderLinked(order) && |order| >= 2 && tail == order[|order| - 1]
      requires d < |order| && order[d] == e && head == order[0]
      modifies this`tail, this`order, order`next, order`prev
      ensures OrderLinked(order) && order == Without(old(order), d)
      ensures tail == order[|order| - 1] && head' == order[0]
    {
      ghost var s, s' := order, Without(order, d);
      assert OrderAt(s, d);
      head' := head;
      if e == tail {
        tail := e.prev;
      }
      if e.prev != null {
        e.prev.next := e.next;
      } else {
        head' := e.next;
      }
      if e.next != null {
        e.next.prev := e.prev;
      }
      order := s';
      forall k | 0 <= k < |s'| ensures OrderAt(s', k) {
        ghost var m := if k < d then k else k + 1;
        assert s'[k] == s[m] && old(OrderAt(s, m));
      }
    }

    /** The application-order part of `HASH_ADD_KEYPTR` for a table that is not empty. */
    method AppendOrder(e: Entry)
      requires NoRepeats(order) && OrderLinked(order) && order != [] && tail == order[|order| - 1] && e !in order
      requires e.next == null
      modifies this`tail, this`order, tail`next, e`prev
      ensures OrderLinked(order) && order == old(order) + [e] && tail == e
    {
      ghost var s, s' := order, order + [e];
      assert OrderAt(s, |s| - 1);
      tail.next := e;
      e.prev := tail;
      tail := e;
      order := s';
      forall k | 0 <= k < |s'| ensures OrderAt(s', k) {
        if k < |s| {
          assert s'[k] == s[k] && old(OrderAt(s, k));
        }
      }
    }

    /** `HASH_DELETE` for an entry that is not alone. */
    method Remove(head: Entry, e: Entry, ghost d: nat, ghost hash: int -> nat) returns (head': Entry)
      requires Valid(hash) && |order| >= 2 && d < |order| && order[d] == e && head == order[0]
      modifies this`tail, this`order, this`chains, this`all, this`numItems, buckets,
        all`next, all`prev, all`hhNext, all`hhPrev
      ensures Valid(hash) && order == Without(old(order), d) && all == old(all) - {e}
      ensures head' == order[0]
      ensures GrowthPolicy() == old(GrowthPolicy())
    {
      hide BucketsValid, OrderLinked, Keyed;
      WithoutKeeps(this, order, d, hash);
      assert e in all;
      head' := UnlinkOrder(head, e, d);
      assert BucketsValid();
      DelInBucket(e);
      numItems := numItems - 1;
    }

    /** The rest of `HASH_ADD_KEYPTR`, once `e` has been linked at the end of the order. */
    method AddItem(e: Entry, hashv: nat, ghost s: seq<Entry>, ghost hash: int -> nat)
      requires BucketsValid() && all == ToSet(s) && numItems == |s| && Keyed(this, s, hash)
      requires order == s + [e] && NoRepeats(order) && OrderLinked(order) && tail == e
      requires hashv == hash(e.k) && forall i :: 0 <= i < |s| ==> s[i].k != e.k
      modifies this`buckets, this`numBuckets, this`log2NumBuckets, this`idealChainMaxlen, this`nonidealItems,
        this`ineffExpands, this`noexpand, this`chains, this`all, this`numItems, buckets,
        (all + {e})`hhNext, (all + {e})`hhPrev, e`tbl, e`hashv
      ensures Valid(hash) && all == old(all) + {e} && (buckets == old(buckets) || fresh(buckets)) && e.tbl == this
      ensures all == ToSet(order)
      ensures 0 < numBuckets == |chains| == old(numBuckets) * if old(Overfull(hashv)) then 2 else 1
      ensures GrowthPolicy() ==
        if old(Overfull(hashv)) then Doubled(old(GrowthPolicy()), Lengths(chains), numItems) else old(GrowthPolicy())
    {
      hide BucketsValid, OrderLinked;
      assert e !in all && all + {e} == ToSet(order);
      numItems := numItems + 1;
      e.tbl := this;
      e.hashv := hashv;
      assert Keyed(this, order, hash);
      AddToBucket(e);
    }
  }

  lemma {:induction false} WithoutKeeps(t: Table, s: seq<Entry>, d: nat, hash: int -> nat)
    requires NoRepeats(s) && Keyed(t, s, hash) && d < |s|
    ensures var s' := Without(s, d); NoRepeats(s') && Keyed(t, s', hash) && ToSet(s') == ToSet(s) - {s[d]}
  {
    var s' := Without(s, d);
    assert forall i :: 0 <= i < |s'| ==> s'[i] == s[if i < d then i else i + 1];
    forall f ensures f in s' <==> f in s && f != s[d] {
      if f in s && f != s[d] {
        var i :| 0 <= i < |s| && s[i] == f;
        assert s'[if i < d then i else i - 1] == f;
      }
    }
  }

  /** Every entry points to its table and caches its hash; no two share a key. */
  ghost predicate Keyed(t: Table, order: seq<Entry>, hash: int -> nat)
    reads order`tbl, order`hashv, order`k
  {
    (forall i :: 0 <= i < |order| ==> order[i].tbl == t && order[i].hashv == hash(order[i].k)) &&
    (forall i, j :: 0 <= i < j < |order| ==> order[i].k != order[j].k)
  }
}
