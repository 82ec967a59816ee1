/** The last-occurrence table: a map kept in a uthash table, with one spare entry that is reused
    (block1-lru/src/hash.c). */
module Hash {
  import opened Growth
  import opened Seqs
  import opened Uthash

  /** `HASH_NOT_FOUND`: `UINT32_MAX`. */
  const NOT_FOUND := 0xFFFF_FFFF

  /** `m` is the map stored in the entries. */
  ghost predicate Represents(order: seq<Entry>, m: map<int, int>)
    reads order`k, order`v
  {
    (forall i :: 0 <= i < |order| ==> order[i].k in m && m[order[i].k] == order[i].v) &&
    (forall k :: k in m ==> exists i :: 0 <= i < |order| && order[i].k == k)
  }

  /** `s'` is `s` without its entry `d`, which is at `i`; without change if there is none. */
  ghost predicate Evicted(s: seq<Entry>, s': seq<Entry>, d: Entry?, i: nat) {
    if d == null then s' == s else i < |s| && s[i] == d && s' == Without(s, i)
  }

  ghost function Keys(s: seq<Entry>): seq<int>
    reads s
  {
    seq(|s|, i requires 0 <= i < |s| reads s => s[i].k)
  }

  /** The new application order: the old one without `d`, the entry of `key`, if there is one, and with an
      entry of `key` and `value` at the end. */
  ghost predicate MovedLast(s: seq<Entry>, keys: seq<int>, s': seq<Entry>, key: int, value: int, d: Entry?)
    reads s'`k, s'`v
  {
    s' != [] && |keys| == |s| &&
    var n := |s'| - 1;
    s'[n].k == key && s'[n].v == value &&
    if d == null then s'[..n] == s
    else exists i: nat :: i < |s| && s[i] == d && keys[i] == key && s'[..n] == Without(s, i)
  }

  lemma ShowMoved(s: seq<Entry>, keys: seq<int>, rest: seq<Entry>, e: Entry, key: int, value: int, d: Entry?, i: nat)
    requires |keys| == |s| && Evicted(s, rest, d, i) && e.k == key && e.v == value
    requires d != null ==> i < |s| && keys[i] == key
    ensures MovedLast(s, keys, rest + [e], key, value, d)
  {
    assert (rest + [e])[..|rest|] == rest;
  }

  lemma EvictedIn(s: seq<Entry>, s': seq<Entry>, d: Entry?, i: nat)
    requires Evicted(s, s', d, i)
    ensures (forall x :: x in s' ==> x in s) && (d != null ==> i < |s| && s[i] == d)
  {
  }

  lemma KeysAre(s: seq<Entry>)
    ensures |Keys(s)| == |s| && forall i :: 0 <= i < |s| ==> Keys(s)[i] == s[i].k
  {
  }

  /** `hash_t`. */
  class Hash {
    var h: Entry?
    var free: Entry?
    const fn: int -> nat
    ghost var table: Table?
    ghost var M: map<int, int>
    ghost var Repr: set<object>

    /** The table, if there is one: the C code reaches it through the head entry. */
    ghost function Tables(): set<Table>
      reads `h, `table
    {
      if h == null || table == null then {} else {table}
    }

    ghost function BucketArrays(): set<array<Bucket>>
      reads `h, `table, Tables()
    {
      if h == null || table == null then {} else {table.buckets}
    }

    ghost function Order(): seq<Entry>
      reads `h, `table, Tables()
    {
      if h == null || table == null then [] else table.order
    }

    /** What decides when the table grows; without a table, as in a new one. A table has buckets. */
    ghost function GrowthPolicy(): (p: Policy)
      reads `h, `table, Tables(), BucketArrays()
      ensures p.mults != []
    {
      if h == null || table == null || table.buckets.Length == 0 then NewPolicy() else table.GrowthPolicy()
    }

    /** The table is well formed. */
    ghost predicate Structure()
      reads this, Repr
    {
      this in Repr &&
      (h != null ==>
        table != null && table in Repr && table.buckets in Repr &&
        table.all <= Repr && table.all == ToSet(table.order) && h in table.all && h.tbl == table &&
        table.Valid(fn) && h == table.order[0])
    }

    /** The table holds the map, and the spare entry is not reachable from it. */
    ghost predicate Valid()
      reads this, Repr
      ensures Valid() ==> this in Repr
    {
      Structure() && (free != null ==> free in Repr && free !in Order()) && Represents(Order(), M)
    }

    /** `hash_init`. */
    constructor (fn: int -> nat)
      ensures Valid() && fresh(Repr) && M == map[] && this.fn == fn && free == null && h == null
    {
      this.fn := fn;
      h, free, table, M := null, null, null, map[];
      Repr := {this};
    }

    /** `HASH_FIND`, with the chain search of `HASH_FIND_IN_BKT`. */
    method Find(key: int) returns (out: Entry?)
      requires Structure()
      ensures out == null ==> forall i :: 0 <= i < |Order()| ==> Order()[i].k != key
      ensures out != null ==> h != null && out in table.order && out.k == key
    {
      out := null;
      if h != null {
        var t := h.tbl;
        BucketBound(fn(key), t.log2NumBuckets);
        var b := ToBucket(fn(key), t.numBuckets);
        ghost var c := t.chains[b];
        ghost var j := 0;
        out := t.buckets[b].head;
        assert ChainLinked(c);
        while out != null
          invariant 0 <= j <= |c| && out == At(c, j)
          invariant forall i :: 0 <= i < j ==> c[i].k != key
          decreases |c| - j
        {
          if out.k == key {
            break;
          }
          assert ChainAt(c, j);
          out := out.hhNext;
          j := j + 1;
        }
        if out != null {
          assert out in c && out in t.all;
        } else {
          forall e | e in t.order ensures e.k != key {
            assert e in t.all;
          }
        }
      }
    }

    /** `HASH_DELETE`. */
    method Delete(del: Entry, ghost d: nat, ghost m: map<int, int>)
      requires Structure() && h != null && d < |table.order| && table.order[d] == del
      requires Represents(Without(table.order, d), m)
      modifies `h, table, table.buckets, table.order`next, table.order`prev, table.order`hhNext, table.order`hhPrev
      ensures Structure() && Order() == Without(old(table.order), d) && Represents(Order(), m)
      ensures del !in Order() && forall x :: x in Order() ==> x in old(table.order)
      ensures GrowthPolicy() == if |old(table.order)| == 1 then NewPolicy() else old(GrowthPolicy())
    {
      hide Table.BucketsValid, Keyed, OrderLinked, Represents, NoRepeats;
      ghost var s := table.order;
      AloneLinks(s, d);
      WithoutKeeps(table, s, d, fn);
      if del.prev == null && del.next == null {
        h := null;
      } else {
        h := h.tbl.Remove(h, del, d, fn);
      }
    }

    lemma TablePolicy()
      requires h != null && table != null && table.Valid(fn)
      ensures GrowthPolicy() == table.GrowthPolicy() && table.numBuckets == |GrowthPolicy().mults|
    {
      table.HasBuckets(0);
    }

    /** The first half of `HASH_ADD_KEYPTR`: `e` becomes the last entry in application order, in a
        new table if there is none. */
    method LinkLast(e: Entry, ghost s: seq<Entry>)
      requires Structure() && e in Repr && s == Order() && e !in s
      modifies `h, `table, s`next, e`next, e`prev, e`tbl, Tables()`tail, Tables()`order
      ensures h != null && table != null && h.tbl == table && table.BucketsValid()
      ensures table.all == ToSet(s) && table.numItems == |s| && Keyed(table, s, fn) && table.order == s + [e]
      ensures NoRepeats(table.order) && OrderLinked(table.order) && table.tail == e && h == table.order[0]
      ensures if old(h) == null then fresh(table) && fresh(table.buckets)
              else table == old(table) && table.buckets == old(table.buckets)
      ensures table.GrowthPolicy() == old(GrowthPolicy())
    {
      hide Table.BucketsValid, Keyed, Represents, NoRepeats;
      if h != null {
        TablePolicy();
      }
      e.next := null;
      if h == null {
        h := e;
        h.prev := null;
        var t := new Table(h);
        t.order := [h];
        FirstEntry(t, h, fn);
        table := t;
        h.tbl := t;
      } else {
        LastEntry(table.order, e);
        h.tbl.AppendOrder(e);
      }
    }

    /** `HASH_ADD_KEYPTR`. */
    method Add(e: Entry, ghost s: seq<Entry>, ghost m: map<int, int>)
      requires Structure() && e in Repr && s == Order() && e !in s && Represents(s + [e], m)
      requires forall i :: 0 <= i < |s| ==> s[i].k != e.k
      modifies `h, `table, `Repr, Tables(), BucketArrays(), s`next, s`prev, s`hhNext, s`hhPrev,
        e`next, e`prev, e`hhNext, e`hhPrev, e`tbl, e`hashv
      ensures Structure() && Order() == s + [e] && Represents(Order(), m)
      ensures old(Repr) <= Repr
      ensures forall x :: x in Repr ==> x in old(Repr) || fresh(x)
      ensures GrowthPolicy() == Added(old(GrowthPolicy()), m.Keys - {e.k}, fn, e.k)
    {
      hide Table.BucketsValid, Table.Valid, Table.GrowthPolicy, Keyed, NoRepeats, OrderLinked, Represents, Added;
      LinkLast(e, s);
      AddKey(h.tbl, e, s, m, fn);
      TablePolicy();
      Repr := Repr + {table, table.buckets};
    }

    ghost function Spare(): set<Entry>
      reads `free
    {
      if free == null then {} else {free}
    }

    /** The entry `hash_insert` fills: the spare one if there is one. */
    method Fill(key: int, in': int) returns (e: Entry)
      requires Valid()
      modifies `Repr, Spare()`k, Spare()`v
      ensures Valid() && e in Repr && e !in Order() && e.k == key && e.v == in'
      ensures if free != null then e == free else fresh(e)
      ensures GrowthPolicy() == old(GrowthPolicy())
      ensures M == old(M) && forall x :: x in Repr ==> x in old(Repr) || fresh(x)
      ensures Order() == old(Order()) && forall x :: x in Order() ==> x.k == old(x.k)
    {
      hide Table.Valid;
      if free != null {
        e := free;
      } else {
        e := new Entry();
        Repr := Repr + {e};
      }
      e.k := key;
      e.v := in';
    }

    /** The first half of `HASH_REPLACE`: finds and deletes the entry of `key`. */
    method Evict(key: int) returns (d: Entry?, ghost i: nat)
      requires Valid()
      modifies `h, Tables(), BucketArrays(), Order()`next, Order()`prev, Order()`hhNext, Order()`hhPrev
      ensures Structure() && Represents(Order(), M - {key})
      ensures d == null <==> key !in M
      ensures d != null ==> d.k == key && d.v == M[key] && d in Repr && d !in Order() && d in old(Order())
      ensures Evicted(old(Order()), Order(), d, i)
      ensures GrowthPolicy() == if M.Keys <= {key} then NewPolicy() else old(GrowthPolicy())
    {
      hide Table.BucketsValid, Represents, OrderLinked, Keyed, NewPolicy;
      d := Find(key);
      i := 0;
      if d == null {
        NothingToEvict(key);
      } else {
        i := ToEvict(d);
        Footprint();
        Delete(d, i, M - {key});
      }
    }

    lemma NothingToEvict(key: int)
      requires Valid() && forall i :: 0 <= i < |Order()| ==> Order()[i].k != key
      ensures Represents(Order(), M - {key}) && key !in M && (M.Keys <= {key} ==> h == null)
    {
      hide Table.BucketsValid, Represents, OrderLinked, Keyed;
      KeyAbsent(Order(), M, key);
      if h != null {
        NotEmpty(Order(), M);
      }
    }

    lemma ToEvict(d: Entry) returns (i: nat)
      requires Valid() && h != null && d in table.order
      ensures i < |table.order| && table.order[i] == d && Represents(Without(table.order, i), M - {d.k})
      ensures d.k in M && M[d.k] == d.v && (M.Keys <= {d.k} <==> |table.order| == 1)
    {
      hide Table.BucketsValid, Represents, OrderLinked, Keyed;
      var s := table.order;
      i :| 0 <= i < |s| && s[i] == d;
      RepresentsWithout(table, s, i, fn, M);
      LoneKey(table, s, M, d.k, fn);
    }

    lemma Footprint()
      requires Structure()
      ensures Tables() <= Repr && BucketArrays() <= Repr && forall x :: x in Order() ==> x in Repr
    {
    }

    /** `HASH_REPLACE`. */
    method Replace(e: Entry) returns (d: Entry?, ghost i: nat, ghost s: seq<Entry>)
      requires Valid() && e in Repr && e !in Order()
      modifies Repr
      ensures Structure() && Represents(Order(), M[e.k := e.v]) && M == old(M)
      ensures d == null <==> e.k !in M
      ensures d != null ==> d.v == M[e.k] && d in Repr && d !in Order()
      ensures e.k == old(e.k) && e.v == old(e.v)
      ensures forall x :: x in Repr ==> x in old(Repr) || fresh(x)
      ensures Evicted(old(Order()), s, d, i) && Order() == s + [e]
      ensures d != null ==> old(d.k) == e.k
      ensures GrowthPolicy() == Inserted(old(GrowthPolicy()), M.Keys, fn, e.k)
    {
      hide Table.Valid, Represents, Evicted, Added, NewPolicy, ToSet, Structure, GrowthPolicy;
      Footprint();
      d, i := Evict(e.k);
      EvictedIn(old(Order()), Order(), d, i);
      Footprint();
      s := Order();
      ghost var m := M - {e.k};
      RepresentsAppend(s, e, m);
      assert m[e.k := e.v] == M[e.k := e.v];
      Add(e, s, M[e.k := e.v]);
      assert M[e.k := e.v].Keys - {e.k} == M.Keys - {e.k};
    }

    /** `hash_insert` up to `HASH_REPLACE`. */
    method FillAndReplace(key: int, in': int) returns (d: Entry?)
      requires Valid()
      modifies Repr
      ensures Structure() && Represents(Order(), M[key := in']) && M == old(M)
      ensures d == null <==> key !in M
      ensures d != null ==> d.v == M[key] && d in Repr && d !in Order()
      ensures forall x :: x in Repr ==> x in old(Repr) || fresh(x)
      ensures MovedLast(old(Order()), old(Keys(Order())), Order(), key, in', d)
      ensures var e := Order()[|Order()| - 1]; if old(free) != null then e == old(free) else fresh(e)
      ensures GrowthPolicy() == Inserted(old(GrowthPolicy()), M.Keys, fn, key)
    {
      hide Table.Valid, Represents, Keys, MovedLast, Evicted, ToSet, Inserted, GrowthPolicy;
      ghost var was, keys := Order(), Keys(Order());
      KeysAre(was);
      var e := Fill(key, in');
      assert forall j :: 0 <= j < |was| ==> was[j].k == keys[j];
      ghost var i, s;
      d, i, s := Replace(e);
      EvictedIn(was, s, d, i);
      ShowMoved(was, keys, s, e, key, in', d, i);
    }

    /** `hash_insert`. */
    method Insert(key: int, in': int) returns (out: int)
      requires Valid()
      modifies Repr
      ensures Valid() && M == old(M)[key := in']
      ensures out == if key in old(M) then old(M)[key] else NOT_FOUND
      ensures forall x :: x in Repr ==> x in old(Repr) || fresh(x)
      ensures MovedLast(old(Order()), old(Keys(Order())), Order(), key, in', free)
      ensures free == null <==> key !in old(M)
      ensures var e := Order()[|Order()| - 1]; if old(free) != null then e == old(free) else fresh(e)
      ensures GrowthPolicy() == Inserted(old(GrowthPolicy()), old(M).Keys, fn, key)
    {
      hide Table.Valid, Represents, Keys, ToSet, Inserted;
      var d := FillAndReplace(key, in');
      out := if d == null then NOT_FOUND else d.v;
      free := d;
      M := M[key := in'];
    }
  }

  ghost function Bindings(keys: seq<int>, values: seq<int>): (m: map<int, int>)
    requires |keys| == |values|
    ensures m.Keys == KeySet(keys)
  {
    if keys == [] then map[] else
      var n := |keys| - 1;
      Bindings(keys[..n], values[..n])[keys[n] := values[n]]
  }

  /** Every insertion returned the value its key was last inserted with, if any. */
  ghost predicate Answers(keys: seq<int>, values: seq<int>, outs: seq<int>)
    requires |outs| <= |keys| == |values|
  {
    forall i :: 0 <= i < |outs| ==>
      var m := Bindings(keys[..i], values[..i]);
      outs[i] == if keys[i] in m then m[keys[i]] else 0xFFFF_FFFF
  }

  lemma NextAnswer(keys: seq<int>, values: seq<int>, outs: seq<int>, out: int)
    requires |outs| < |keys| == |values| && Answers(keys, values, outs)
    requires var i, m := |outs|, Bindings(keys[..|outs|], values[..|outs|]);
      out == if keys[i] in m then m[keys[i]] else NOT_FOUND
    ensures Answers(keys, values, outs + [out])
  {
  }

  lemma NextInsertion(keys: seq<int>, values: seq<int>, i: nat, fn: int -> nat)
    requires |keys| == |values| && i < |keys|
    ensures Bindings(keys[..i + 1], values[..i + 1]) == Bindings(keys[..i], values[..i])[keys[i] := values[i]]
    ensures Grown(keys[..i + 1], fn) == Inserted(Grown(keys[..i], fn), KeySet(keys[..i]), fn, keys[i])
  {
    hide Inserted;
    assert keys[..i + 1][..i] == keys[..i] && values[..i + 1][..i] == values[..i];
  }

  /** Insertions one after another, as in the tests of `hash_insert`: the values they return, and the table
      they leave. */
  method InsertAll(keys: seq<int>, values: seq<int>, fn: int -> nat) returns (hash: Hash, outs: seq<int>)
    requires |keys| == |values|
    ensures fresh(hash) && hash.Valid() && hash.M == Bindings(keys, values)
    ensures |outs| == |keys| && Answers(keys, values, outs)
    ensures hash.GrowthPolicy() == Grown(keys, fn)
    ensures keys != [] ==> hash.h != null && hash.h.tbl != null && hash.h.tbl.numBuckets == |Grown(keys, fn).mults|
  {
    hide Hash.Valid, Hash.GrowthPolicy, Hash.Order, Inserted, Grown, Bindings, NewPolicy, Answers, MovedLast;
    hash := new Hash(fn);
    outs := [];
    NoInsertions(hash, keys, values, fn);
    for i := 0 to |keys|
      invariant hash.Valid() && hash.fn == fn && fresh(hash) && forall x :: x in hash.Repr ==> fresh(x)
      invariant hash.M == Bindings(keys[..i], values[..i]) && hash.GrowthPolicy() == Grown(keys[..i], fn)
      invariant |outs| == i && Answers(keys, values, outs)
    {
      NextInsertion(keys, values, i, fn);
      var out := hash.Insert(keys[i], values[i]);
      NextAnswer(keys, values, outs, out);
      outs := outs + [out];
    }
    assert keys[..|keys|] == keys && values[..|keys|] == values;
    BucketsGrown(hash, keys, values);
  }

  lemma Inhabited(s: seq<Entry>, m: map<int, int>, key: int)
    requires Represents(s, m) && key in m
    ensures s != []
  {
    var i :| 0 <= i < |s| && s[i].k == key;
  }

  lemma BucketsGrown(hash: Hash, keys: seq<int>, values: seq<int>)
    requires |keys| == |values| && hash.Valid() && hash.M == Bindings(keys, values)
    ensures keys != [] ==>
      hash.h != null && hash.h.tbl != null && hash.h.tbl.numBuckets == |hash.GrowthPolicy().mults|
  {
    hide Table.Valid, Bindings;
    if keys != [] {
      assert keys[0] in KeySet(keys);
      assert keys[0] in hash.M;
      Inhabited(hash.Order(), hash.M, keys[0]);
      hash.TablePolicy();
    }
  }

  lemma NoInsertions(hash: Hash, keys: seq<int>, values: seq<int>, fn: int -> nat)
    requires hash.h == null && hash.M == map[] && |keys| == |values|
    ensures hash.M == Bindings(keys[..0], values[..0]) && hash.GrowthPolicy() == Grown(keys[..0], fn)
    ensures Answers(keys, values, [])
  {
  }

  /** The rest of `HASH_ADD_KEYPTR`, in terms of keys: what decides whether the table grows. */
  method AddKey(t: Table, e: Entry, ghost s: seq<Entry>, ghost m: map<int, int>, fn: int -> nat)
    requires t.BucketsValid() && t.all == ToSet(s) && t.numItems == |s| && Keyed(t, s, fn) && Represents(s + [e], m)
    requires t.order == s + [e] && NoRepeats(t.order) && OrderLinked(t.order) && t.tail == e
    requires forall i :: 0 <= i < |s| ==> s[i].k != e.k
    modifies t`buckets, t`numBuckets, t`log2NumBuckets, t`idealChainMaxlen, t`nonidealItems,
      t`ineffExpands, t`noexpand, t`chains, t`all, t`numItems, t.buckets,
      (t.all + {e})`hhNext, (t.all + {e})`hhPrev, e`tbl, e`hashv
    ensures t.Valid(fn) && t.all == old(t.all) + {e} && (t.buckets == old(t.buckets) || fresh(t.buckets)) && e.tbl == t
    ensures t.all == ToSet(t.order)
    ensures old(t.GrowthPolicy()).mults != [] && t.GrowthPolicy().mults != []
    ensures t.GrowthPolicy() == Added(old(t.GrowthPolicy()), m.Keys - {e.k}, fn, e.k)
  {
    hide Table.BucketsValid, Table.Valid, Table.Overfull, Table.GrowthPolicy, Keyed, NoRepeats, OrderLinked, Represents,
      Added, Doubled, Load, Loads, ToSet;
    ghost var p := t.GrowthPolicy();
    Unappended(s, e, m);
    OverfullIs(t, s, m - {e.k}, e.k, fn);
    t.AddItem(e, fn(e.k), s, fn);
    ValidLoads(t, m, fn);
    AddedIs(p, t.GrowthPolicy(), m, fn, e.k);
  }

  lemma FirstEntry(t: Table, e: Entry, hash: int -> nat)
    requires e.next == null && e.prev == null
    ensures Keyed(t, [], hash) && NoRepeats([e]) && OrderLinked([e])
  {
  }

  lemma LastEntry(s: seq<Entry>, e: Entry)
    requires NoRepeats(s) && e !in s
    ensures NoRepeats(s + [e])
  {
  }

  /** Removing the entry at `d` removes its key. */
  lemma {:induction false} RepresentsWithout(t: Table, s: seq<Entry>, d: nat, hash: int -> nat, m: map<int, int>)
    requires Represents(s, m) && Keyed(t, s, hash) && d < |s|
    ensures Represents(Without(s, d), m - {s[d].k})
    ensures s[d].k in m && m[s[d].k] == s[d].v
  {
    var s' := Without(s, d);
    assert forall i :: 0 <= i < |s'| ==> s'[i] == s[if i < d then i else i + 1];
    forall k | k in m && k != s[d].k ensures exists i :: 0 <= i < |s'| && s'[i].k == k {
      var i :| 0 <= i < |s| && s[i].k == k;
      assert s'[if i < d then i else i - 1].k == k;
    }
  }

  lemma {:induction false} KeyAbsent(s: seq<Entry>, m: map<int, int>, key: int)
    requires Represents(s, m) && forall i :: 0 <= i < |s| ==> s[i].k != key
    ensures key !in m && m - {key} == m
  {
  }

  /** Appending an entry with a new key adds its binding. */
  lemma {:induction false} RepresentsAppend(s: seq<Entry>, e: Entry, m: map<int, int>)
    requires Represents(s, m) && e.k !in m
    ensures Represents(s + [e], m[e.k := e.v])
    ensures forall i :: 0 <= i < |s| ==> s[i].k != e.k
  {
    var s' := s + [e];
    var m' := m[e.k := e.v];
    forall k | k in m' ensures exists i :: 0 <= i < |s'| && s'[i].k == k {
      if k == e.k {
        assert s'[|s|].k == k;
      } else {
        var i :| 0 <= i < |s| && s[i].k == k;
        assert s'[i].k == k;
      }
    }
  }

  /** The test of `HASH_DELETE` for the only entry. */
  lemma {:induction false} AloneLinks(s: seq<Entry>, d: nat)
    requires OrderLinked(s) && d < |s|
    ensures s[d].prev == null && s[d].next == null <==> |s| == 1
    ensures |s| == 1 ==> Without(s, d) == []
  {
    assert OrderAt(s, d);
  }

  // ---------------------------------------------------------------- growth

  ghost function EntryKeys(c: seq<Entry>): set<int>
    reads c`k
  {
    set i | 0 <= i < |c| :: c[i].k
  }

  lemma {:induction false} DistinctKeys(c: seq<Entry>)
    requires forall i, j :: 0 <= i < j < |c| ==> c[i].k != c[j].k
    ensures |EntryKeys(c)| == |c|
  {
    if c == [] {
      assert EntryKeys(c) == {};
    } else {
      var n := |c| - 1;
      DistinctKeys(c[..n]);
      assert EntryKeys(c) == EntryKeys(c[..n]) + {c[n].k};
    }
  }

  lemma NotEmpty(s: seq<Entry>, m: map<int, int>)
    requires Represents(s, m) && s != []
    ensures s[0].k in m
  {
  }

  /** The entry of `key` is the only one exactly if there is no other key. */
  lemma LoneKey(t: Table, s: seq<Entry>, m: map<int, int>, key: int, fn: int -> nat)
    requires Keyed(t, s, fn) && Represents(s, m) && key in m
    ensures m.Keys <= {key} <==> |s| == 1
  {
    OrderKeys(t, s, m, fn);
    assert m.Keys == (m.Keys - {key}) + {key};
    assert m.Keys <= {key} <==> m.Keys - {key} == {};
  }

  lemma OrderKeys(t: Table, s: seq<Entry>, m: map<int, int>, fn: int -> nat)
    requires Keyed(t, s, fn) && Represents(s, m)
    ensures |s| == |m.Keys|
  {
    DistinctKeys(s);
    forall k ensures k in EntryKeys(s) <==> k in m.Keys {
      if k in m.Keys {
        var i :| 0 <= i < |s| && s[i].k == k;
      }
    }
    assert EntryKeys(s) == m.Keys;
  }

  /** The entries of a chain are listed under different keys, and their hash values belong to the bucket. */
  lemma ChainEntries(t: Table, s: seq<Entry>, fn: int -> nat, b: nat)
    requires t.BucketsValid() && t.all == ToSet(s) && Keyed(t, s, fn) && b < |t.chains|
    ensures t.numBuckets > 0
    ensures forall e :: e in t.chains[b] <==> e in s && fn(e.k) % t.numBuckets == b
    ensures forall i, j :: 0 <= i < j < |t.chains[b]| ==> t.chains[b][i].k != t.chains[b][j].k
  {
    hide Keyed, ToBucket, HeadsLinked, CountsExact;
    var c := t.chains[b];
    t.HasBuckets(0);
    forall e ensures e in c <==> e in s && fn(e.k) % t.numBuckets == b {
      BucketBound(e.hashv, t.log2NumBuckets);
      if e in s {
        KeyedAt(t, s, e, fn);
      }
    }
    forall i, j | 0 <= i < j < |c| ensures c[i].k != c[j].k {
      assert c[i] in s && c[j] in s && c[i] != c[j];
      DifferentKeys(t, s, c[i], c[j], fn);
    }
  }

  lemma KeyedAt(t: Table, s: seq<Entry>, e: Entry, fn: int -> nat)
    requires Keyed(t, s, fn) && e in s
    ensures e.hashv == fn(e.k)
  {
  }

  lemma DifferentKeys(t: Table, s: seq<Entry>, d: Entry, e: Entry, fn: int -> nat)
    requires Keyed(t, s, fn) && d in s && e in s && d != e
    ensures d.k != e.k
  {
    var i :| 0 <= i < |s| && s[i] == d;
    var j :| 0 <= j < |s| && s[j] == e;
    if i < j {
      assert s[i].k != s[j].k;
    } else {
      assert s[j].k != s[i].k;
    }
  }

  lemma ChainLoad(t: Table, s: seq<Entry>, m: map<int, int>, fn: int -> nat, b: nat)
    requires t.BucketsValid() && t.all == ToSet(s) && Keyed(t, s, fn) && Represents(s, m) && b < |t.chains|
    ensures t.numBuckets > 0 && |t.chains[b]| == Load(m.Keys, fn, t.numBuckets, b)
  {
    hide Table.BucketsValid, Keyed, ToSet;
    var c := t.chains[b];
    ChainEntries(t, s, fn, b);
    DistinctKeys(c);
    var keys := set k | k in m.Keys && fn(k) % t.numBuckets == b;
    forall k ensures k in EntryKeys(c) <==> k in keys {
      if k in keys {
        var i :| 0 <= i < |s| && s[i].k == k;
        assert s[i] in c;
      }
    }
    assert EntryKeys(c) == keys;
  }

  /** The chain lengths are the loads of the keys. */
  lemma ChainLoads(t: Table, s: seq<Entry>, m: map<int, int>, fn: int -> nat)
    requires t.BucketsValid() && t.all == ToSet(s) && Keyed(t, s, fn) && Represents(s, m)
    ensures 0 < t.numBuckets == |t.chains| && |s| == |m.Keys|
    ensures Lengths(t.chains) == Loads(m.Keys, fn, t.numBuckets)
  {
    hide Table.BucketsValid, Keyed, ToSet, Represents, Load;
    t.HasBuckets(0);
    OrderKeys(t, s, m, fn);
    forall b: nat | b < |t.chains|
      ensures |t.chains[b]| == Load(m.Keys, fn, t.numBuckets, b)
    {
      ChainLoad(t, s, m, fn, b);
    }
  }

  lemma ValidLoads(t: Table, m: map<int, int>, fn: int -> nat)
    requires t.Valid(fn) && Represents(t.order, m)
    ensures 0 < t.numBuckets == |t.GrowthPolicy().mults| && t.numItems == |m.Keys|
    ensures Lengths(t.chains) == Loads(m.Keys, fn, t.numBuckets)
  {
    hide Table.BucketsValid, Keyed, ToSet, Represents, Loads;
    t.HasBuckets(0);
    ChainLoads(t, t.order, m, fn);
  }

  /** Before `e` is added, the other keys are in the table. */
  lemma {:induction false} Unappended(s: seq<Entry>, e: Entry, m: map<int, int>)
    requires Represents(s + [e], m) && forall i :: 0 <= i < |s| ==> s[i].k != e.k
    ensures Represents(s, m - {e.k}) && e.k in m
  {
    var s', m' := s + [e], m - {e.k};
    assert s'[|s|] == e;
    forall i | 0 <= i < |s| ensures s[i].k in m' && m'[s[i].k] == s[i].v {
      assert s'[i] == s[i];
    }
    forall k | k in m' ensures exists i :: 0 <= i < |s| && s[i].k == k {
      var i :| 0 <= i < |s'| && s'[i].k == k;
      assert s[i].k == k;
    }
  }

  lemma AddedIs(p: Policy, q: Policy, m: map<int, int>, fn: int -> nat, key: int)
    requires p.mults != [] && key in m
    requires var n := |p.mults|;
      q == if Full(Load(m.Keys - {key}, fn, n, fn(key) % n) + 1, p.mults[fn(key) % n], p.noexpand)
           then Doubled(p, Loads(m.Keys, fn, 2 * n), |m.Keys|) else p
    ensures q == Added(p, m.Keys - {key}, fn, key)
  {
    assert m.Keys - {key} + {key} == m.Keys;
  }

  lemma OverfullIs(t: Table, s: seq<Entry>, m: map<int, int>, key: int, fn: int -> nat)
    requires t.BucketsValid() && t.all == ToSet(s) && Keyed(t, s, fn) && Represents(s, m)
    ensures var n := |t.GrowthPolicy().mults|;
      n == t.numBuckets > 0 &&
      (t.Overfull(fn(key)) <==>
       Full(Load(m.Keys, fn, n, fn(key) % n) + 1, t.GrowthPolicy().mults[fn(key) % n], t.GrowthPolicy().noexpand))
  {
    hide Table.BucketsValid, Keyed, ToSet, Represents, Load, Full;
    t.HasBuckets(fn(key));
    ChainLoads(t, s, m, fn);
    assert Lengths(t.chains)[fn(key) % t.numBuckets] == |t.chains[fn(key) % t.numBuckets]|;
  }
}
