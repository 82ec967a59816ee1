/** The in-order iterator over a tree of holes, with its fixed-size stack
    (block1-lru/src/itree.c). */
module ItreeIter {
  import opened Itree
  import opened ItreeFacts
  import opened Seqs

  /** The nodes in order. */
  ghost function InOrderNodes(t: Tree): seq<Node> {
    match t
    case Leaf => []
    case Fork(l, x, _, _, _, _, r) => InOrderNodes(l) + [x] + InOrderNodes(r)
  }

  /** What is left to visit when the stack holds the roots of `pending`: each root is still to be
      returned, followed by its right subtree. */
  ghost function Rest(pending: seq<Tree>): seq<Node> {
    if pending == [] then [] else
      var t := pending[|pending| - 1];
      (if t.Leaf? then [] else [t.x] + InOrderNodes(t.r)) + Rest(pending[..|pending| - 1])
  }

  /** Pushing a left spine schedules a whole subtree. */
  lemma {:induction false} RestPush(pending: seq<Tree>, t: Tree)
    requires t.Fork?
    ensures InOrderNodes(t) + Rest(pending) == InOrderNodes(t.l) + Rest(pending + [t])
  {
    assert (pending + [t])[..|pending|] == pending;
  }

  lemma {:induction false} RestPop(pending: seq<Tree>)
    ensures Rest([]) == []
    ensures pending != [] && pending[|pending| - 1].Fork? ==>
      var t := pending[|pending| - 1];
      Rest(pending) == [t.x] + (InOrderNodes(t.r) + Rest(pending[..|pending| - 1]))
  {
  }

  /** The nodes in order carry the intervals in order. */
  lemma {:induction false} InOrderFields(n: Node?, t: Tree)
    requires Shape(n, t)
    ensures |InOrderNodes(t)| == |InOrder(t)| == Size(t)
    ensures forall i :: 0 <= i < Size(t) ==>
      InOrderNodes(t)[i].k1 == InOrder(t)[i].lo && InOrderNodes(t)[i].k2 == InOrder(t)[i].hi
  {
    if t.Fork? {
      InOrderFields(n.l, t.l);
      InOrderFields(n.r, t.r);
    }
  }

  ghost function Elements(s: seq<Node>): set<Node> {
    set n | n in s
  }

  /** In order, every node of the tree comes exactly once. */
  lemma {:induction false} InOrderOnce(t: Tree)
    requires Distinct(t)
    ensures NoRepeats(InOrderNodes(t)) && Elements(InOrderNodes(t)) == Nodes(t)
  {
    hide NoRepeats, Elements;
    if t.Fork? {
      InOrderOnce(t.l);
      InOrderOnce(t.r);
      JoinOnce(InOrderNodes(t.l), t.x, InOrderNodes(t.r));
    } else {
      NoneOnce();
    }
  }

  lemma NoneOnce()
    ensures NoRepeats<Node>([]) && Elements([]) == {}
  {
  }

  lemma JoinOnce(a: seq<Node>, x: Node, b: seq<Node>)
    requires NoRepeats(a) && NoRepeats(b) && x !in Elements(a) && x !in Elements(b) && Elements(a) !! Elements(b)
    ensures NoRepeats(a + [x] + b) && Elements(a + [x] + b) == Elements(a) + {x} + Elements(b)
  {
    var s := a + [x] + b;
    assert forall i :: 0 <= i < |a| ==> a[i] in Elements(a);
    assert forall i :: 0 <= i < |b| ==> b[i] in Elements(b);
    forall i, j | 0 <= i < j < |s|
      ensures s[i] != s[j]
    {
      if i < |a| < j {
        assert s[i] == a[i] && s[j] == b[j - |a| - 1];
      }
    }
  }

  class Iter {
    const stack: array<Node?>
    var top: int
    ghost var pending: seq<Tree>

    /** Deeper entries are lower in the tree, so the stack cannot overflow. */
    ghost predicate Valid()
      reads this, stack, set t, x | t in pending && x in Nodes(t) :: x
    {
      stack.Length == MAX_DEPTH && 0 <= top == |pending| <= MAX_DEPTH &&
      forall i :: 0 <= i < top ==>
        pending[i].Fork? && Shape(stack[i], pending[i]) && i + Height(pending[i]) < MAX_DEPTH
    }

    /** `itree_iter_init`. */
    constructor (root: Node, ghost t: Tree)
      requires Shape(root, t) && Height(t) < MAX_DEPTH
      ensures Valid() && Rest(pending) == InOrderNodes(t) && fresh(stack)
      ensures forall s :: s in pending ==> Nodes(s) <= Nodes(t)
    {
      stack := new Node?[MAX_DEPTH](_ => null);
      top, pending := 0, [];
      new;
      Push(root, t, Nodes(t));
    }

    /** The loops that push a node and its left spine. */
    method Push(root: Node?, ghost t: Tree, ghost all: set<Node>)
      requires Valid() && Shape(root, t) && top + Height(t) < MAX_DEPTH && Nodes(t) <= all
      requires forall s :: s in pending ==> Nodes(s) <= all
      modifies this, stack
      ensures Valid() && Rest(pending) == InOrderNodes(t) + old(Rest(pending))
      ensures forall s :: s in pending ==> Nodes(s) <= all
    {
      hide Height, Rest;
      var n := root;
      ghost var s := t;
      while n != null
        invariant Valid() && Shape(n, s) && top + Height(s) < MAX_DEPTH && Nodes(s) <= all
        invariant InOrderNodes(s) + Rest(pending) == InOrderNodes(t) + old(Rest(pending))
        invariant forall u :: u in pending ==> Nodes(u) <= all
        decreases s
      {
        RestPush(pending, s);
        HeightPositive(s.l);
        HeightFork(s);
        stack[top] := n;
        top := top + 1;
        pending := pending + [s];
        n, s := n.l, s.l;
      }
    }

    /** `itree_iter_next`. */
    method Next(ghost all: set<Node>) returns (next: Node?)
      requires Valid() && forall s :: s in pending ==> Nodes(s) <= all
      modifies this, stack
      ensures Valid() && forall s :: s in pending ==> Nodes(s) <= all
      ensures old(Rest(pending)) == [] ==> next == null && Rest(pending) == []
      ensures old(Rest(pending)) != [] ==> next == old(Rest(pending))[0] && Rest(pending) == old(Rest(pending))[1..]
    {
      hide Height, Rest, InOrderNodes;
      RestPop(pending);
      if top == 0 {
        return null;
      }
      ghost var t := pending[top - 1];
      assert t in pending && t.Fork? && Shape(stack[top - 1], t);
      HeightPositive(t.r);
      HeightFork(t);
      top := top - 1;
      next := stack[top];
      pending := pending[..top];
      Push(next.r, t.r, all);
    }
  }

  lemma StepSlice<T>(s: seq<T>, i: nat)
    requires i < |s|
    ensures s[i..][0] == s[i] && s[i..][1..] == s[i + 1..] && s[..i] + [s[i]] == s[..i + 1]
  {
  }

  lemma WholeSlice<T>(s: seq<T>)
    ensures s[0..] == s && s[..|s|] == s && s[..0] == []
  {
  }

  /** An iterator asked for the next node until it returns null, as the tests use it. */
  method Collect(root: Node, ghost t: Tree) returns (out: seq<Interval>)
    requires Shape(root, t) && Height(t) < MAX_DEPTH
    ensures out == InOrder(t)
  {
    hide Shape, Height, Rest, InOrder, InOrderNodes, Nodes, Iter.Valid;
    Allocated(t);
    InOrderFields(root, t);
    ghost var nodes, vs := InOrderNodes(t), InOrder(t);
    WholeSlice(nodes);
    WholeSlice(vs);
    var iter := new Iter(root, t);
    out := [];
    if |nodes| > 0 {
      StepSlice(nodes, 0);
    }
    var n := iter.Next(Nodes(t));
    while n != null
      invariant fresh(iter) && fresh(iter.stack) && iter.Valid()
      invariant forall s :: s in iter.pending ==> Nodes(s) <= Nodes(t)
      invariant Shape(root, t)
      invariant |out| <= |nodes| == |vs| && out == vs[..|out|]
      invariant if n == null then |out| == |nodes|
        else |out| < |nodes| && n == nodes[|out|] && Rest(iter.pending) == nodes[|out| + 1..]
      decreases |nodes| - |out|
    {
      ghost var i := |out|;
      InOrderFields(root, t);
      StepSlice(vs, i);
      out := out + [Interval(n.k1, n.k2)];
      if i + 1 < |nodes| {
        StepSlice(nodes, i + 1);
      }
      n := iter.Next(Nodes(t));
    }
  }

  /** The nodes an iterator returns carry the maximal runs of the stored set, in increasing order. */
  method Drain(root: Node, ghost t: Tree, ghost a: int, ghost b: int) returns (out: seq<Interval>)
    requires Shape(root, t) && Between(t, a, b) && Height(t) < MAX_DEPTH
    ensures out == InOrder(t) && Separated(out)
    ensures forall lo, hi :: Interval(lo, hi) in out <==> MaximalRun(Idx(t), lo, hi)
  {
    hide Shape, Between, Height, InOrder, Separated, MaximalRun, Idx;
    out := Collect(root, t);
    InOrderBounds(t, a, b);
    forall lo, hi
      ensures Interval(lo, hi) in InOrder(t) <==> MaximalRun(Idx(t), lo, hi)
    {
      InOrderIsMaximalRuns(t, a, b, lo, hi);
    }
  }
}
