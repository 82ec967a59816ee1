/** The move-to-front list (block1-lru/src/naive.c). */
module Naive {
  import opened Seqs
  import opened Trace

  /** `llist_t`. */
  class ListNode {
    var prev: ListNode?
    var next: ListNode?
    const v: int

    constructor (prev: ListNode?, next: ListNode?, v: int)
      ensures this.prev == prev && this.next == next && this.v == v
    {
      this.prev, this.next, this.v := prev, next, v;
    }
  }

  ghost function At(s: seq<ListNode>, i: int): ListNode? {
    if 0 <= i < |s| then s[i] else null
  }

  /** Both links of node `i` agree with the sequence. */
  ghost predicate LinkedAt(s: seq<ListNode>, i: int)
    requires 0 <= i < |s|
    reads s
  {
    s[i].next == At(s, i + 1) && s[i].prev == At(s, i - 1)
  }

  ghost function Values(nodes: seq<ListNode>): (s: seq<int>)
    ensures |s| == |nodes| && forall i :: 0 <= i < |s| ==> s[i] == nodes[i].v
  {
    seq(|nodes|, i requires 0 <= i < |nodes| => nodes[i].v)
  }

  /** `llist_head_t`. */
  class List {
    var head: ListNode?
    ghost var nodes: seq<ListNode>

    ghost predicate Valid()
      reads this, nodes
    {
      head == At(nodes, 0) && NoRepeats(nodes) && forall i :: 0 <= i < |nodes| ==> LinkedAt(nodes, i)
    }

    constructor ()
      ensures Valid() && nodes == []
    {
      head, nodes := null, [];
    }

    /** `llist_push`. */
    method Push(v: int)
      requires Valid()
      modifies this, nodes
      ensures Valid() && |nodes| > 0 && nodes[1..] == old(nodes) && fresh(nodes[0]) && nodes[0].v == v
    {
      var n := new ListNode(null, head, v);
      ghost var s := nodes;
      if head != null {
        head.prev := n;
      }
      head := n;
      nodes := [n] + s;
      forall i | 0 <= i < |nodes| ensures LinkedAt(nodes, i) {
        if i > 0 {
          assert nodes[i] == s[i - 1] && old(LinkedAt(s, i - 1));
        }
      }
    }

    /** The search loop of `llist_remove`. */
    method Find(v: int) returns (i: ListNode?, d: nat)
      requires Valid()
      ensures d <= |nodes| && i == At(nodes, d)
      ensures v !in Values(nodes[..d]) && (i != null ==> i.v == v)
    {
      d := 0;
      i := head;
      while i != null
        invariant d <= |nodes| && i == At(nodes, d)
        invariant forall j :: 0 <= j < d ==> nodes[j].v != v
        decreases |nodes| - d
      {
        if i.v == v {
          break;
        }
        assert LinkedAt(nodes, d);
        i := i.next;
        d := d + 1;
      }
    }

    /** The relinking part of `llist_remove`. */
    method Unlink(i: ListNode, ghost d: nat)
      requires Valid() && d < |nodes| && i == nodes[d]
      modifies this, nodes
      ensures Valid() && nodes == Without(old(nodes), d)
    {
      ghost var s := nodes;
      assert LinkedAt(s, d);
      if i.prev != null {
        i.prev.next := i.next;
      } else {
        head := i.next;
      }
      if i.next != null {
        i.next.prev := i.prev;
      }
      nodes := Without(s, d);
      forall k | 0 <= k < |nodes| ensures LinkedAt(nodes, k) {
        var m := if k < d then k else k + 1;
        assert nodes[k] == s[m] && old(LinkedAt(s, m));
      }
    }

    /** `llist_remove`. */
    method Remove(v: int) returns (r: ListNode?, depth: nat)
      requires Valid()
      modifies this, nodes
      ensures Valid()
      ensures r == null ==> v !in Values(nodes) && nodes == old(nodes)
      ensures r != null ==> depth < |old(nodes)| && r == old(nodes)[depth] && r !in nodes
      ensures r != null ==> r.v == v && v !in Values(old(nodes)[..depth]) && nodes == Without(old(nodes), depth)
    {
      r, depth := Find(v);
      if r != null {
        Unlink(r, depth);
      } else {
        assert nodes[..depth] == nodes;
      }
    }
  }

  /** What one round of the naive loop does to the list, and the event it reports. */
  lemma {:induction false} Round(p: seq<int>, i: nat, s: seq<ListNode>, s': seq<ListNode>, found: bool, depth: nat)
    requires i < |p| && Values(s) == Recent(p, i) && |s'| > 0 && s'[0].v == p[i]
    requires found ==> depth < |s| && s[depth].v == p[i] && p[i] !in Values(s[..depth]) && s'[1..] == Without(s, depth)
    requires !found ==> p[i] !in Values(s) && s'[1..] == s
    ensures Values(s') == Recent(p, i + 1)
    ensures Distance(p, i) == if found then depth else INFINITE
  {
    hide Distance, Last, Accessed, Remove, ByRecency;
    var vs := Values(s);
    RecentByRecency(p, i);
    ValuesOf(s, s', p[i], found, depth);
    if found {
      RemoveAt(vs, p[i], depth);
      DepthIsDistance(vs, p, i, depth);
    } else {
      RemoveAbsent(vs, p[i]);
      Unseen(vs, p, i);
    }
  }

  lemma {:induction false} ValuesOf(s: seq<ListNode>, s': seq<ListNode>, x: int, found: bool, depth: nat)
    requires |s'| > 0 && s'[0].v == x
    requires found ==> depth < |s| && s[depth].v == x && x !in Values(s[..depth]) && s'[1..] == Without(s, depth)
    requires !found ==> x !in Values(s) && s'[1..] == s
    ensures found ==> Values(s') == [x] + Without(Values(s), depth) && forall j :: 0 <= j < depth ==> Values(s)[j] != x
    ensures !found ==> Values(s') == [x] + Values(s)
  {
    if found {
      assert Values(Without(s, depth)) == Without(Values(s), depth);
      assert forall j :: 0 <= j < depth ==> Values(s[..depth])[j] == Values(s)[j];
    }
    assert Values(s') == [x] + Values(s'[1..]);
  }

  lemma NothingRecent(p: seq<int>)
    ensures Recent(p, 0) == []
  {
  }

  /** `naive_process_trace`; `out` collects the arguments of the callback. */
  method ProcessTrace(p: seq<int>) returns (out: seq<Event>)
    ensures out == Distances(p)
  {
    hide Distance, Recent, NoRepeats, LinkedAt;
    var list := new List();
    NothingRecent(p);
    out := [];
    for i := 0 to |p|
      invariant fresh(list) && fresh(list.nodes) && list.Valid()
      invariant Values(list.nodes) == Recent(p, i)
      invariant |out| == i && forall k :: 0 <= k < i ==> out[k] == Event(k, Distance(p, k))
    {
      var addr := p[i];
      ghost var s := list.nodes;
      var prev, depth := list.Remove(addr);
      list.Push(addr);
      Round(p, i, s, list.nodes, prev != null, depth);
      out := out + [Event(i, if prev == null then INFINITE else depth)];
    }
  }
}
