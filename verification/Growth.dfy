/** When a hash table grows, as a function of the keys it holds: the rules of `HASH_ADD_TO_BKT` and
    `HASH_EXPAND_BUCKETS` over the number of keys in each bucket, and what follows over whole runs of
    insertions. */
module Growth {
  import opened Bits

  /** The fields of `UT_hash_table` that decide when a table grows, and `expand_mult` of each bucket. */
  datatype Policy = Policy(mults: seq<nat>, ideal: nat, nonideal: nat, ineff: nat, noexpand: bool)

  /** The policy of a new table. */
  function NewPolicy(): Policy {
    Policy(seq(32, _ => 0), 0, 0, 0, false)
  }

  /** By how much a chain is longer than `maxlen`. */
  function Over(len: nat, maxlen: nat): nat {
    if len > maxlen then len - maxlen else 0
  }

  ghost function Excess(loads: seq<nat>, maxlen: nat): nat {
    if loads == [] then 0 else Excess(loads[..|loads| - 1], maxlen) + Over(loads[|loads| - 1], maxlen)
  }

  function Ceil(n: nat, b: nat): (c: nat)
    requires b > 0
    ensures IsCeil(c, n, b)
  {
    CeilDiv(n, b);
    n / b + if n % b != 0 then 1 else 0
  }

  /** How many times over the ideal length a chain is. */
  function Multiplier(load: nat, ideal: nat): nat
    requires ideal > 0
  {
    if load > ideal then load / ideal else 0
  }

  ghost function Multipliers(loads: seq<nat>, ideal: nat): seq<nat>
    requires ideal > 0
  {
    seq(|loads|, b requires 0 <= b < |loads| => Multiplier(loads[b], ideal))
  }

  /** After doubling: `loads` are the new chain lengths of `items` entries. */
  ghost function Doubled(p: Policy, loads: seq<nat>, items: nat): Policy
    requires loads != [] && items > 0
  {
    var ideal := Ceil(items, |loads|);
    CeilPositive(items, |loads|);
    var nonideal := Excess(loads, ideal);
    var ineff := if nonideal > items / 2 then p.ineff + 1 else 0;
    Policy(Multipliers(loads, ideal), ideal, nonideal, ineff, p.noexpand || ineff > 1)
  }

  lemma CeilPositive(items: nat, b: nat)
    requires items > 0 && b > 0
    ensures Ceil(items, b) > 0
  {
    CeilDiv(items, b);
  }

  /** How many of the keys belong into bucket `b` of `n`. */
  ghost function Load(keys: set<int>, fn: int -> nat, n: nat, b: nat): nat
    requires n > 0
  {
    |set k | k in keys && fn(k) % n == b|
  }

  ghost function Loads(keys: set<int>, fn: int -> nat, n: nat): seq<nat>
    requires n > 0
  {
    seq(n, b requires 0 <= b < n => Load(keys, fn, n, b))
  }

  /** With `load` entries a bucket of multiplier `mult` asks for more buckets. */
  predicate Full(load: nat, mult: nat, noexpand: bool) {
    load >= 10 * (mult + 1) && !noexpand
  }

  /** After the addition of `key` to a table of the keys `keys`. */
  ghost function Added(p: Policy, keys: set<int>, fn: int -> nat, key: int): Policy
    requires p.mults != []
  {
    var n := |p.mults|;
    var b := fn(key) % n;
    if Full(Load(keys, fn, n, b) + 1, p.mults[b], p.noexpand)
    then Doubled(p, Loads(keys + {key}, fn, 2 * n), |keys| + 1)
    else p
  }

  /** After `hash_insert`, which deletes the old entry of the key first: deleting the last entry deletes
      the table, any other deletion leaves the policy alone. */
  ghost function Inserted(p: Policy, keys: set<int>, fn: int -> nat, key: int): Policy
    requires p.mults != []
  {
    Added(if keys <= {key} then NewPolicy() else p, keys - {key}, fn, key)
  }

  ghost function KeySet(keys: seq<int>): set<int> {
    set k | k in keys
  }

  /** After inserting `keys` one by one into an empty table; keys may occur again. */
  ghost function Grown(keys: seq<int>, fn: int -> nat): (p: Policy)
    ensures p.mults != []
  {
    if keys == [] then NewPolicy() else
      var n := |keys| - 1;
      Inserted(Grown(keys[..n], fn), KeySet(keys[..n]), fn, keys[n])
  }

  // ---------------------------------------------------------------- load factor

  ghost function Sum(s: seq<nat>): nat {
    if s == [] then 0 else Sum(s[..|s| - 1]) + s[|s| - 1]
  }

  /** How full a bucket may be while expansion is on: one entry more only in a bucket that reached
      exactly the ideal length of 10 when the table doubled. */
  predicate Within(load: nat, mult: nat) {
    load < 10 * (mult + 1) || (load == 10 && mult == 0)
  }

  /** The multipliers add up to no more than the number of buckets, and as long as expansion is on no
      bucket is fuller than its multiplier allows. */
  ghost predicate Bounded(p: Policy, keys: set<int>, fn: int -> nat) {
    p.mults != [] && Sum(p.mults) <= |p.mults| &&
    (!p.noexpand ==>
      forall b: nat | b < |p.mults| :: Within(Load(keys, fn, |p.mults|, b), p.mults[b]))
  }

  lemma {:induction false} LoadsBelow(keys: set<int>, fn: int -> nat, n: nat, m: nat)
    requires n > 0 && m <= n
    ensures Sum(Loads(keys, fn, n)[..m]) == |set k | k in keys && fn(k) % n < m|
  {
    var s := Loads(keys, fn, n);
    if m == 0 {
      assert (set k | k in keys && fn(k) % n < m) == {};
    } else {
      LoadsBelow(keys, fn, n, m - 1);
      assert s[..m][..m - 1] == s[..m - 1];
      var below, at := (set k | k in keys && fn(k) % n < m - 1), (set k | k in keys && fn(k) % n == m - 1);
      assert (set k | k in keys && fn(k) % n < m) == below + at;
    }
  }

  /** Every key is in one bucket. */
  lemma LoadsAddUp(keys: set<int>, fn: int -> nat, n: nat)
    requires n > 0
    ensures Sum(Loads(keys, fn, n)) == |keys|
  {
    LoadsBelow(keys, fn, n, n);
    assert Loads(keys, fn, n)[..n] == Loads(keys, fn, n);
    assert (set k | k in keys && fn(k) % n < n) == keys;
  }

  /** The entries that buckets within their limits hold: fewer than 10 a bucket and 10 a multiplier, or
      exactly as many if all multipliers are 0. */
  lemma {:induction false} WithinSum(loads: seq<nat>, mults: seq<nat>)
    requires |loads| == |mults| && forall b: nat | b < |loads| :: Within(loads[b], mults[b])
    ensures Sum(loads) <= 10 * |mults| + 10 * Sum(mults)
    ensures Sum(mults) > 0 ==> Sum(loads) < 10 * |mults| + 10 * Sum(mults)
  {
    if loads != [] {
      var m := |loads| - 1;
      WithinSum(loads[..m], mults[..m]);
      assert Within(loads[m], mults[m]);
    }
  }

  /** While expansion is on, a table never holds 20 entries for each of its buckets. */
  lemma LoadFactor(p: Policy, keys: set<int>, fn: int -> nat)
    requires Bounded(p, keys, fn) && !p.noexpand
    ensures |keys| < 20 * |p.mults|
  {
    var loads := Loads(keys, fn, |p.mults|);
    LoadsAddUp(keys, fn, |p.mults|);
    WithinSum(loads, p.mults);
  }

  lemma {:induction false} MultipliersSum(loads: seq<nat>, ideal: nat)
    requires ideal > 0
    ensures ideal * Sum(Multipliers(loads, ideal)) <= Sum(loads)
  {
    var ms := Multipliers(loads, ideal);
    if loads != [] {
      var m := |loads| - 1;
      MultipliersSum(loads[..m], ideal);
      assert ms[..m] == Multipliers(loads[..m], ideal);
      ScaledQuotient(loads[m], ideal);
      assert ideal * (Sum(ms[..m]) + ms[m]) == ideal * Sum(ms[..m]) + ideal * ms[m];
    }
  }

  lemma ScaledQuotient(load: nat, ideal: nat)
    requires ideal > 0
    ensures ideal * Multiplier(load, ideal) <= load
  {
  }

  lemma LeqFromScaled(a: nat, b: nat, c: nat)
    requires c > 0 && c * a <= c * b
    ensures a <= b
  {
  }

  lemma LessFromScaled(a: int, b: int, c: nat)
    requires a * c < b * c
    ensures a < b
  {
  }

  lemma SmallCeil(items: nat, n: nat)
    requires n > 0 && items <= 20 * n
    ensures Ceil(items, 2 * n) <= 10
  {
    LessFromScaled(Ceil(items, 2 * n) - 1, 10, 2 * n);
  }

  lemma WithinAfter(load: nat, ideal: nat)
    requires 0 < ideal <= 10
    ensures Within(load, Multiplier(load, ideal))
  {
    if load > ideal {
      var m := load / ideal;
      assert load < ideal * (m + 1);
      assert ideal * (m + 1) <= 10 * (m + 1);
    }
  }

  lemma DoubledBounded(p: Policy, keys: set<int>, fn: int -> nat, n: nat)
    requires n > 0 && 0 < |keys| <= 20 * n
    ensures Bounded(Doubled(p, Loads(keys, fn, 2 * n), |keys|), keys, fn)
  {
    var loads := Loads(keys, fn, 2 * n);
    var ideal := Ceil(|keys|, 2 * n);
    CeilPositive(|keys|, 2 * n);
    SmallCeil(|keys|, n);
    LoadsAddUp(keys, fn, 2 * n);
    MultipliersSum(loads, ideal);
    LeqFromScaled(Sum(Multipliers(loads, ideal)), 2 * n, ideal);
    forall b: nat | b < 2 * n
      ensures Within(loads[b], Multipliers(loads, ideal)[b])
    {
      WithinAfter(loads[b], ideal);
    }
  }

  lemma LoadAdd(keys: set<int>, fn: int -> nat, key: int, n: nat, b: nat)
    requires n > 0 && key !in keys
    ensures Load(keys + {key}, fn, n, b) == Load(keys, fn, n, b) + if fn(key) % n == b then 1 else 0
  {
    var s := set k | k in keys && fn(k) % n == b;
    assert (set k | k in keys + {key} && fn(k) % n == b) == if fn(key) % n == b then s + {key} else s;
  }

  lemma LoadLess(keys: set<int>, keys': set<int>, fn: int -> nat, n: nat, b: nat)
    requires n > 0 && keys' <= keys
    ensures Load(keys', fn, n, b) <= Load(keys, fn, n, b)
  {
    var s, s' := (set k | k in keys && fn(k) % n == b), (set k | k in keys' && fn(k) % n == b);
    assert s == s' + (s - s');
  }

  lemma AddedBounded(p: Policy, keys: set<int>, fn: int -> nat, key: int)
    requires Bounded(p, keys, fn) && key !in keys
    ensures Bounded(Added(p, keys, fn, key), keys + {key}, fn)
  {
    hide Doubled, Load, Sum;
    var n := |p.mults|;
    var b := fn(key) % n;
    if Full(Load(keys, fn, n, b) + 1, p.mults[b], p.noexpand) {
      LoadFactor(p, keys, fn);
      DoubledBounded(p, keys + {key}, fn, n);
    } else {
      forall c: nat | c < n && !p.noexpand
        ensures Within(Load(keys + {key}, fn, n, c), p.mults[c])
      {
        LoadAdd(keys, fn, key, n, c);
      }
    }
  }

  lemma FewerBounded(p: Policy, keys: set<int>, keys': set<int>, fn: int -> nat)
    requires Bounded(p, keys, fn) && keys' <= keys
    ensures Bounded(p, keys', fn)
  {
    hide Load, Sum;
    var n := |p.mults|;
    forall c: nat | c < n && !p.noexpand
      ensures Within(Load(keys', fn, n, c), p.mults[c])
    {
      assert Within(Load(keys, fn, n, c), p.mults[c]);
      LoadLess(keys, keys', fn, n, c);
    }
  }

  lemma {:induction false} ZeroSum(n: nat)
    ensures Sum(seq(n, _ => 0)) == 0
  {
    if n > 0 {
      ZeroSum(n - 1);
      assert seq(n, _ => 0)[..n - 1] == seq(n - 1, _ => 0);
    }
  }

  lemma LoadNone(keys: set<int>, fn: int -> nat, n: nat, b: nat)
    requires n > 0 && forall k | k in keys :: fn(k) % n != b
    ensures Load(keys, fn, n, b) == 0
  {
    var s := set k | k in keys && fn(k) % n == b;
    forall k: int
      ensures k !in s
    {
    }
    assert s == {};
  }

  lemma LoadAll(keys: set<int>, fn: int -> nat, n: nat, b: nat)
    requires n > 0 && forall k | k in keys :: fn(k) % n == b
    ensures Load(keys, fn, n, b) == |keys|
  {
    var s := set k | k in keys && fn(k) % n == b;
    assert forall k | k in keys :: k in s;
    assert s == keys;
  }

  lemma NewBounded(fn: int -> nat)
    ensures Bounded(NewPolicy(), {}, fn)
  {
    ZeroSum(32);
    assert NewPolicy().mults == seq(32, _ => 0);
    forall b: nat | b < 32
      ensures Load({}, fn, 32, b) == 0
    {
      LoadNone({}, fn, 32, b);
    }
  }

  lemma InsertedBounded(p: Policy, keys: set<int>, fn: int -> nat, key: int)
    requires Bounded(p, keys, fn)
    ensures Bounded(Inserted(p, keys, fn, key), keys + {key}, fn)
  {
    hide Added, Bounded, NewPolicy;
    var left := keys - {key};
    if keys <= {key} {
      NewBounded(fn);
      assert left == {};
      AddedBounded(NewPolicy(), left, fn, key);
    } else {
      FewerBounded(p, keys, left, fn);
      AddedBounded(p, left, fn, key);
    }
    assert left + {key} == keys + {key};
  }

  lemma {:induction false} RunBounded(keys: seq<int>, fn: int -> nat)
    ensures Bounded(Grown(keys, fn), KeySet(keys), fn)
  {
    hide Inserted, Bounded, NewPolicy;
    if keys == [] {
      NewBounded(fn);
      assert KeySet(keys) == {};
    } else {
      var n := |keys| - 1;
      RunBounded(keys[..n], fn);
      InsertedBounded(Grown(keys[..n], fn), KeySet(keys[..n]), fn, keys[n]);
      assert KeySet(keys[..n]) + {keys[n]} == KeySet(keys);
    }
  }

  /** Whatever keys are inserted, new or again: as long as expansion is on, a chain is no longer than ten
      times one more than its multiplier, and the load factor is below 20. */
  lemma GrownBounded(keys: seq<int>, fn: int -> nat)
    ensures var p, all := Grown(keys, fn), KeySet(keys);
      !p.noexpand ==>
        |all| < 20 * |p.mults| &&
        forall b: nat | b < |p.mults| :: Load(all, fn, |p.mults|, b) <= 10 * (p.mults[b] + 1)
  {
    hide Grown, KeySet, Load, Sum;
    RunBounded(keys, fn);
    if !Grown(keys, fn).noexpand {
      LoadFactor(Grown(keys, fn), KeySet(keys), fn);
    }
  }

  // ------------------------------------------------------------ worst case

  ghost predicate InBucket(keys: seq<int>, fn: int -> nat, n: nat, b: nat)
    requires n > 0
  {
    forall k | k in keys :: fn(k) % n == b
  }

  /** The set of keys before and after the last insertion, which is of a new key or of an old one. */
  lemma LastKey(keys: seq<int>)
    requires keys != []
    ensures var last, before := keys[|keys| - 1], KeySet(keys[..|keys| - 1]);
      KeySet(keys) == (before - {last}) + {last} && |before - {last}| == |KeySet(keys)| - 1 &&
      |before| == |KeySet(keys)| - (if last in before then 0 else 1) && (before <= {last} <==> |KeySet(keys)| == 1)
  {
    var last, before := keys[|keys| - 1], KeySet(keys[..|keys| - 1]);
    var left := before - {last};
    assert KeySet(keys) == left + {last};
    if last in before {
      assert before == left + {last};
    } else {
      assert before == left;
    }
    assert left == {} <==> before <= {last};
  }

  /** The policy before the last insertion, once the old entry of the key is deleted. */
  ghost function Prior(keys: seq<int>, fn: int -> nat): (p: Policy)
    requires keys != []
    ensures p.mults != []
  {
    if |KeySet(keys)| == 1 then NewPolicy() else Grown(keys[..|keys| - 1], fn)
  }

  /** One insertion when all keys belong into bucket `b`. */
  lemma SameBucket(keys: seq<int>, fn: int -> nat, b: nat)
    requires keys != [] && InBucket(keys, fn, |Prior(keys, fn).mults|, b)
    ensures var p, m := Prior(keys, fn), |KeySet(keys)|;
      b < |p.mults| && m > 0 &&
      Grown(keys, fn) ==
        if Full(m, p.mults[b], p.noexpand) then Doubled(p, Loads(KeySet(keys), fn, 2 * |p.mults|), m) else p
  {
    hide Doubled, Load, Loads, NewPolicy, Full, KeySet, Prior, Grown, InBucket;
    LastKey(keys);
    AddLast(keys, fn);
    BucketLoad(keys, fn, |Prior(keys, fn).mults|, b);
  }

  lemma AddLast(keys: seq<int>, fn: int -> nat)
    requires keys != []
    ensures var last, before := keys[|keys| - 1], KeySet(keys[..|keys| - 1]);
      Grown(keys, fn) == Added(Prior(keys, fn), before - {last}, fn, last)
  {
    hide Added, NewPolicy, KeySet;
    LastKey(keys);
  }

  lemma BucketLoad(keys: seq<int>, fn: int -> nat, n: nat, b: nat)
    requires keys != [] && n > 0 && InBucket(keys, fn, n, b)
    ensures var last := keys[|keys| - 1];
      var left := KeySet(keys[..|keys| - 1]) - {last};
      Load(left, fn, n, b) == |left| && fn(last) % n == b < n
  {
    assert keys[|keys| - 1] in keys;
    LoadAll(KeySet(keys[..|keys| - 1]) - {keys[|keys| - 1]}, fn, n, b);
  }

  lemma NewIs()
    ensures |NewPolicy().mults| == 32 && !NewPolicy().noexpand
    ensures forall b :: 0 <= b < 32 ==> NewPolicy().mults[b] == 0
  {
  }

  lemma DoubledSize(p: Policy, keys: set<int>, fn: int -> nat, n: nat)
    requires n > 0
    ensures keys != {} ==> |Doubled(p, Loads(keys, fn, n), |keys|).mults| == n
  {
  }

  lemma FewerInBucket(keys: seq<int>, fn: int -> nat, n: nat, b: nat)
    requires n > 0 && keys != [] && InBucket(keys, fn, n, b)
    ensures InBucket(keys[..|keys| - 1], fn, n, b)
    ensures keys[|keys| - 1] in KeySet(keys[..|keys| - 1]) <==> keys[|keys| - 1] in keys[..|keys| - 1]
  {
  }

  /** Up to nine keys of one bucket, however often inserted, leave a new table as it is; the tenth doubles
      it. */
  lemma {:induction false} TenthKeyDoubles(keys: seq<int>, fn: int -> nat, b: nat)
    requires InBucket(keys, fn, 32, b)
    ensures |KeySet(keys)| <= 9 ==> Grown(keys, fn) == NewPolicy()
    ensures |KeySet(keys)| == 10 && keys[|keys| - 1] !in keys[..|keys| - 1] ==>
      Grown(keys, fn) == Doubled(NewPolicy(), Loads(KeySet(keys), fn, 64), 10) && |Grown(keys, fn).mults| == 64
  {
    hide Doubled, Loads, NewPolicy, InBucket, KeySet, Inserted;
    NewIs();
    if keys != [] {
      FewerInBucket(keys, fn, 32, b);
      LastKey(keys);
      TenthKeyDoubles(keys[..|keys| - 1], fn, b);
      if Prior(keys, fn) == NewPolicy() {
        SameBucket(keys, fn, b);
      }
      DoubledSize(NewPolicy(), KeySet(keys), fn, 64);
    } else {
      NoKeys();
    }
  }

  lemma {:induction false} SingleExcess(loads: seq<nat>, b: nat, maxlen: nat)
    requires forall c :: 0 <= c < |loads| && c != b ==> loads[c] == 0
    ensures Excess(loads, maxlen) == if b < |loads| then Over(loads[b], maxlen) else 0
  {
    if loads != [] {
      SingleExcess(loads[..|loads| - 1], b, maxlen);
    }
  }

  /** Doubling a table whose `m` keys all have hash `v`: nothing is gained. */
  lemma DoubledInVain(p: Policy, keys: set<int>, fn: int -> nat, v: nat, n: nat, m: nat)
    requires n > 0 && |keys| == m && 1 < m <= n && forall k | k in keys :: fn(k) == v
    ensures var d := Doubled(p, Loads(keys, fn, n), m);
      |d.mults| == n && d.mults[v % n] == m && d.ideal == 1 && d.nonideal == m - 1 &&
      d.ineff == (if m - 1 > m / 2 then p.ineff + 1 else 0) && d.noexpand == (p.noexpand || d.ineff > 1)
  {
    hide Load;
    var loads := Loads(keys, fn, n);
    LoadAll(keys, fn, n, v % n);
    forall c: nat | c < n && c != v % n
      ensures loads[c] == 0
    {
      LoadNone(keys, fn, n, c);
    }
    assert Ceil(m, n) == 1 by { OneEach(m, n); }
    SingleExcess(loads, v % n, 1);
  }

  lemma OneEach(m: nat, n: nat)
    requires 0 < m <= n
    ensures Ceil(m, n) == 1
  {
  }

  ghost predicate SameHash(keys: seq<int>, fn: int -> nat, v: nat) {
    forall k | k in keys :: fn(k) == v
  }

  lemma HashBucket(keys: seq<int>, fn: int -> nat, v: nat, n: nat)
    requires n > 0 && keys != [] && SameHash(keys, fn, v)
    ensures InBucket(keys, fn, n, v % n) && SameHash(keys[..|keys| - 1], fn, v)
    ensures forall k | k in KeySet(keys) :: fn(k) == v
  {
  }

  /** If all keys have one hash, the table has 32 buckets for up to 9 keys, 64 for up to 109 and 128 for any
      more, however often they are inserted: the second doubling in vain is the last. */
  lemma {:induction false} OneHash(keys: seq<int>, fn: int -> nat, v: nat)
    requires SameHash(keys, fn, v)
    ensures var p, m := Grown(keys, fn), |KeySet(keys)|;
      if m < 10 then p == NewPolicy()
      else if m < 110 then |p.mults| == 64 && p.mults[v % 64] == 10 && p.ineff == 1 && !p.noexpand
      else |p.mults| == 128 && p.noexpand
  {
    hide Doubled, Loads, KeySet, NewPolicy, SameHash, InBucket, Inserted;
    NewIs();
    if keys != [] {
      var p := Prior(keys, fn);
      HashBucket(keys, fn, v, |p.mults|);
      OneHash(keys[..|keys| - 1], fn, v);
      LastKey(keys);
      SameBucket(keys, fn, v % |p.mults|);
      if |KeySet(keys)| == 10 {
        DoubledInVain(p, KeySet(keys), fn, v, 64, 10);
      } else if |KeySet(keys)| == 110 {
        DoubledInVain(p, KeySet(keys), fn, v, 128, 110);
      }
    } else {
      NoKeys();
    }
  }

  lemma NoKeys()
    ensures KeySet([]) == {}
  {
  }
}
