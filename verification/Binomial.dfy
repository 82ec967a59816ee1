/** The binomial tree, built in the heap, and the broadcast along it. */
module Binomial {
  import opened Bits
  import opened Mpi
  import opened Certificate
  import opened Pipeline
  import opened Rounds
  import opened Seqs

  const TAG := 42

  class Node {
    var parent: Node?
    var children: array<Node?>
    var order: nat
    var index: nat

    constructor (parent: Node?, order: nat, index: nat)
      ensures this.parent == parent && this.order == order && this.index == index
      ensures fresh(children) && children.Length == order
    {
      this.parent := parent;
      this.order := order;
      this.index := index;
      children := new Node?[order](_ => null);
    }
  }

  /** A snapshot of a subtree in the heap. */
  datatype Heap = Heap(node: Node, slots: array<Node?>, kids: seq<Heap>)

  ghost function Objects(t: Heap): set<object> {
    {t.node, t.slots} + Footprint(t.kids)
  }

  ghost function Footprint(kids: seq<Heap>): set<object> {
    set i: nat, o | i < |kids| && o in Objects(kids[i]) :: o
  }

  /** A node of order `order` has children of orders 0 to `order - 1`; child `i` sits at `index + 2^i`. */
  ghost predicate Built(t: Heap, parent: Node?, order: nat, index: nat)
    reads Objects(t)
    decreases order, 1
  {
    t.node.parent == parent && t.node.order == order && t.node.index == index &&
    t.node.children == t.slots && t.slots.Length == order == |t.kids| &&
    (forall i: nat | i < order :: t.slots[i] == t.kids[i].node) &&
    Forest(t.kids, t.node, index)
  }

  ghost predicate Forest(kids: seq<Heap>, parent: Node, index: nat)
    reads Footprint(kids)
    decreases |kids|, 0
  {
    forall i: nat | i < |kids| :: Built(kids[i], parent, i, index + Pow2(i))
  }

  /** The indices of a subtree, a node before its children. */
  ghost function Listing(t: Heap, n: nat): seq<nat>
    requires n <= |t.kids|
    reads Objects(t)
    decreases t, n
  {
    if n == 0 then [t.node.index] else
      var kid := t.kids[n - 1];
      assert Objects(kid) <= Footprint(t.kids);
      Listing(t, n - 1) + Listing(kid, |kid.kids|)
  }

  /** A subtree of order `order` at `index` holds each of the 2^order indices from `index` on exactly once,
      and lists them in order. */
  lemma {:induction false} ListsEveryIndex(t: Heap, parent: Node?, order: nat, index: nat, n: nat)
    requires Built(t, parent, order, index) && n <= order
    ensures Listing(t, n) == Consecutive(index, Pow2(n))
    decreases order, n
  {
    if n > 0 {
      var kid := t.kids[n - 1];
      ListsEveryIndex(t, parent, order, index, n - 1);
      ListsEveryIndex(kid, t.node, n - 1, index + Pow2(n - 1), n - 1);
      ConsecutiveSplit(index, Pow2(n - 1), Pow2(n - 1));
    }
  }

  // ---------------------------------------------------------------- the tree

  lemma NoPlants(parent: Node, index: nat)
    ensures Forest([], parent, index) && Footprint([]) == {}
  {
  }

  lemma Plant(kids: seq<Heap>, kid: Heap, parent: Node, index: nat)
    requires Forest(kids, parent, index) && Built(kid, parent, |kids|, index + Pow2(|kids|))
    ensures Forest(kids + [kid], parent, index)
    ensures Footprint(kids + [kid]) == Footprint(kids) + Objects(kid)
  {
    hide Built;
    var more := kids + [kid];
    assert forall i: nat | i < |kids| :: more[i] == kids[i];
    forall o | o in Objects(kid) ensures o in Footprint(more) {
      assert o in Objects(more[|kids|]);
    }
    forall o | o in Footprint(kids) ensures o in Footprint(more) {
      var i: nat :| i < |kids| && o in Objects(kids[i]);
      assert o in Objects(more[i]);
    }
  }

  /** `_node_create_subtree` */
  method CreateSubtree(parent: Node?, order: nat, index: nat) returns (self: Node, ghost t: Heap)
    ensures t.node == self && Built(t, parent, order, index)
    ensures forall o | o in Objects(t) :: allocated(o) && fresh(o)
    decreases order
  {
    hide Footprint, Forest;
    self := new Node(parent, order, index);
    ghost var kids: seq<Heap> := [];
    NoPlants(self, index);
    var nextIndex := index + 1;
    var i := 0;
    while i < order
      invariant 0 <= i <= order && |kids| == i && nextIndex == index + Pow2(i)
      invariant fresh(self) && fresh(self.children) && self.children.Length == order
      invariant self.parent == parent && self.order == order && self.index == index
      invariant forall j: nat | j < i :: self.children[j] == kids[j].node
      invariant Forest(kids, self, index)
      invariant forall o | o in Footprint(kids) :: allocated(o) && fresh(o) && o != self && o != self.children
    {
      var child;
      ghost var kid;
      child, kid := CreateSubtree(self, i, nextIndex);
      Plant(kids, kid, self, index);
      kids := kids + [kid];
      self.children[i] := child;
      nextIndex := nextIndex + Pow2(i);
      i := i + 1;
    }
    t := Heap(self, self.children, kids);
  }

  lemma KidAt(t: Heap, parent: Node?, order: nat, index: nat, i: nat)
    requires Built(t, parent, order, index) && i < order
    ensures i < |t.kids| == t.slots.Length && t.slots == t.node.children && t.slots[i] == t.kids[i].node
    ensures Objects(t.kids[i]) <= Objects(t) && Built(t.kids[i], t.node, i, index + Pow2(i))
  {
  }

  /** What a search finds: a node with its subtree, below its parent, of the order its index asks for. */
  ghost predicate Found(t: Heap, order: nat, start: nat, index: nat, u: Heap)
    reads Objects(t), Objects(u), u.node.parent
  {
    Objects(u) <= Objects(t) && Built(u, u.node.parent, u.node.order, index) &&
    if index == start then u == t
    else
      u.node.parent != null && u.node.parent in Objects(t) && u.node.order < order &&
      u.node.parent.index + Pow2(u.node.order) == index &&
      ((start == 0 || order <= LowBit(start)) ==> index > 0 && u.node.order == LowBit(index))
  }

  lemma FoundHere(t: Heap, order: nat, start: nat)
    requires Built(t, t.node.parent, order, start)
    ensures Found(t, order, start, start, t)
  {
  }

  /** `_node_find`: finds every index of the subtree and no other. */
  method Find(node: Node?, index: nat, ghost t: Heap, ghost order: nat, ghost start: nat)
    returns (found: Node?, ghost u: Heap)
    requires node != null ==> node == t.node && Built(t, t.node.parent, order, start)
    requires forall o | o in Objects(t) :: allocated(o)
    ensures found != null <==> node != null && start <= index < start + Pow2(order)
    ensures found != null ==> u.node == found && Found(t, order, start, index, u)
    decreases order
  {
    hide Found, Forest, Footprint;
    found, u := null, t;
    if node == null {
      return;
    }
    if index == node.index {
      found := node;
      FoundHere(t, order, start);
      return;
    }
    var i := node.order;
    while i > 0
      invariant 0 <= i <= order
      invariant Built(t, t.node.parent, order, start) && forall o | o in Objects(t) :: allocated(o)
      invariant i < order ==> index < start + Pow2(i)
    {
      i := i - 1;
      KidAt(t, t.node.parent, order, start, i);
      Pow2Grows(i, order);
      assert Pow2(i + 1) == 2 * Pow2(i);
      if index >= node.children[i].index {
        found, u := Find(node.children[i], index, t.kids[i], i, start + Pow2(i));
        if found != null {
          FoundDeeper(t, order, start, index, i, u);
        }
        return;
      }
    }
  }

  lemma BuiltAt(t: Heap, parent: Node?, order: nat, index: nat)
    requires Built(t, parent, order, index)
    ensures t.node.parent == parent && t.node.order == order && t.node.index == index && t.node in Objects(t)
  {
  }

  lemma FoundDeeper(t: Heap, order: nat, start: nat, index: nat, i: nat, u: Heap)
    requires Built(t, t.node.parent, order, start) && i < order
    requires Found(t.kids[i], i, start + Pow2(i), index, u) && index != start
    ensures Found(t, order, start, index, u)
  {
    hide Built, Forest, Objects, LowBit, Pow2;
    KidAt(t, t.node.parent, order, start, i);
    BuiltAt(t, t.node.parent, order, start);
    BuiltAt(t.kids[i], t.node, i, start + Pow2(i));
    if start == 0 || order <= LowBit(start) {
      LowBitPlus(start, i);
    }
  }

  // -------------------------------------------------------- order of the tree

  /** The order of the smallest tree with at least `n` nodes: the ceiling of the binary logarithm. */
  function Order(n: nat): nat {
    if n <= 1 then 0 else 1 + Order((n + 1) / 2)
  }

  lemma {:induction false} OrderIs(n: nat, k: nat)
    requires n <= Pow2(k) && (k > 0 ==> Pow2(k - 1) < n)
    ensures Order(n) == k
  {
    if n > 1 {
      if k > 1 {
        assert Pow2(k - 1) == 2 * Pow2(k - 2);
      }
      OrderIs((n + 1) / 2, k - 1);
    }
  }

  lemma {:induction false} OrderBounds(n: nat)
    ensures n <= Pow2(Order(n)) && (Order(n) > 0 ==> Pow2(Order(n) - 1) < n)
  {
    if n > 1 {
      OrderBounds((n + 1) / 2);
    }
  }

  /** `_node_create` */
  method Create(n: nat) returns (tree: Node, ghost t: Heap)
    ensures t.node == tree && Built(t, null, Order(n), 0)
    ensures forall o | o in Objects(t) :: allocated(o) && fresh(o)
  {
    hide Built, Objects;
    var order := 0;
    var i := 1;
    while i < n
      invariant i == Pow2(order) && (order > 0 ==> Pow2(order - 1) < n)
      decreases n - i
    {
      order := order + 1;
      i := i * 2;
    }
    OrderIs(n, order);
    tree, t := CreateSubtree(null, order, 0);
  }

  // ------------------------------------------------------------ tree of ranks

  /** The order of the node of 0-based rank `x`. */
  function OrderOf(size: nat, x: nat): nat {
    if x == 0 then Order(size) else LowBit(x)
  }

  /** The parent of a 0-based rank: the rank with the lowest set bit cleared. */
  function Parent0(x: nat): nat {
    if x == 0 then 0 else And(x, x - 1)
  }

  /** The live children of orders below `o`, largest first. */
  function KidsFrom(size: nat, root: nat, x: nat, o: nat): seq<nat>
    requires root < size
  {
    if o == 0 then [] else
      (if x + Pow2(o - 1) < size then [RankAt(size, root, x + Pow2(o - 1))] else []) + KidsFrom(size, root, x, o - 1)
  }

  function BinomialTree(size: nat, root: nat): Shape
    requires root < size
  {
    Shape(root,
          seq(size, r requires 0 <= r < size => RankAt(size, root, Parent0(Distance(size, root, r)))),
          seq(size, r requires 0 <= r < size =>
            KidsFrom(size, root, Distance(size, root, r), OrderOf(size, Distance(size, root, r)))),
          seq(size, r requires 0 <= r < size => Order(size) - 1 - OrderOf(size, Distance(size, root, r))),
          Order(size) + 1)
  }

  lemma TreeAt(size: nat, root: nat, r: nat)
    requires root < size && r < size
    ensures var sh, x := BinomialTree(size, root), Distance(size, root, r);
      Ranks(sh, r) && sh.root == root && sh.parent[r] == RankAt(size, root, Parent0(x)) &&
      sh.kids[r] == KidsFrom(size, root, x, OrderOf(size, x)) && sh.arrive[r] == Order(size) - 1 - OrderOf(size, x) &&
      sh.stride == Order(size) + 1
  {
  }

  lemma TreeSize(size: nat, root: nat, r: nat)
    requires root < size
    ensures Ranks(BinomialTree(size, root), r) <==> r < size
  {
  }

  function OneBlockCut(count: nat): Cut {
    Cut(count, if count == 0 then 1 else count, 1, TAG)
  }

  /** The operations of one rank: one block, and the tag of the source. */
  function Ops(size: nat, root: nat, count: nat, rank: nat): seq<Op>
    requires root < size && rank < size
  {
    Program(BinomialTree(size, root), OneBlockCut(count), rank)
  }

  // -------------------------------------------------------------------- calls

  lemma OpsOf(size: nat, root: nat, count: nat, rank: nat)
    requires root < size && rank < size && Ranks(BinomialTree(size, root), rank)
    ensures var sh, b := BinomialTree(size, root), OneBlockCut(count);
      Ops(size, root, count, rank) ==
      (if rank == root then [] else [Post(0, count, sh.parent[rank], TAG), Wait(sh.parent[rank], TAG)]) +
      SendAll(b, 0, sh.kids[rank])
  {
    hide BinomialTree, SendAll, Turn, Forward;
    TreeAt(size, root, rank);
    var sh, b := BinomialTree(size, root), OneBlockCut(count);
    assert Relay(sh, b, rank, 1) == Relay(sh, b, rank, 0) + Turn(sh, b, rank, 0);
    OneTurn(sh, b, rank);
  }

  lemma OneTurn(sh: Shape, b: Cut, r: nat)
    requires Ranks(sh, r)
    ensures Turn(sh, b, r, 0) ==
      if r == sh.root then SendAll(b, 0, sh.kids[r]) else [PostOp(sh, b, r, 0), WaitOp(sh, b, r, 0)]
    ensures Forward(sh, b, r, 1) == SendAll(b, 0, sh.kids[r])
  {
    assert Forward(sh, b, r, 0) == [];
  }

  lemma SendLower(calls: seq<Call>, count: nat, head: nat, tail: seq<nat>)
    ensures LowerAll(calls + [CallSend(0, count, head, TAG)]) + SendAll(OneBlockCut(count), 0, tail) ==
      LowerAll(calls) + SendAll(OneBlockCut(count), 0, [head] + tail)
  {
    hide LowerAll;
    Append(calls, CallSend(0, count, head, TAG));
    assert SendAll(OneBlockCut(count), 0, [head] + tail) ==
      [SendOp(OneBlockCut(count), 0, head)] + SendAll(OneBlockCut(count), 0, tail);
  }

  lemma RecvLower(count: nat, src: nat)
    ensures LowerAll([CallRecv(0, count, src, TAG)]) == [Post(0, count, src, TAG), Wait(src, TAG)]
  {
    Append([], CallRecv(0, count, src, TAG));
    assert [] + [CallRecv(0, count, src, TAG)] == [CallRecv(0, count, src, TAG)];
  }

  /** What a search in the whole tree finds for 0-based rank `x`. */
  lemma FoundRank(size: nat, t: Heap, x: nat, u: Heap)
    requires x < size && Built(t, null, Order(size), 0) && Found(t, Order(size), 0, x, u)
    ensures u.node.order == OrderOf(size, x) && (u.node.parent == null <==> x == 0)
    ensures u.node.parent != null ==> u.node.parent.index == Parent0(x)
    ensures Built(u, u.node.parent, OrderOf(size, x), x)
  {
    hide Objects, Pow2, LowBit, And, Order;
    if x > 0 {
      LowBitCleared(x);
    }
  }

  lemma KidIndices(u: Heap, parent: Node?, order: nat, index: nat)
    requires Built(u, parent, order, index)
    ensures u.node.order == order && u.node.children.Length == order
    ensures forall i: nat | i < order ::
      u.node.children[i] != null && u.node.children[i].index == index + Pow2(i)
  {
    hide Pow2;
    forall i: nat | i < order
      ensures u.node.children[i] != null && u.node.children[i].index == index + Pow2(i)
    {
      KidAt(u, parent, order, index, i);
      BuiltAt(u.kids[i], u.node, i, index + Pow2(i));
    }
  }

  /** The sends of one rank to its live children, largest first. */
  method SendKids(self: Node, size: nat, root: nat, count: nat, first: seq<Call>) returns (calls: seq<Call>)
    requires root < size && self.children.Length == self.order
    requires forall i: nat | i < self.order ::
      self.children[i] != null && self.children[i].index == self.index + Pow2(i)
    ensures LowerAll(calls) ==
      LowerAll(first) + SendAll(OneBlockCut(count), 0, KidsFrom(size, root, self.index, self.order))
  {
    hide LowerAll, SendAll, Pow2;
    calls := first;
    ghost var b := OneBlockCut(count);
    ghost var all := LowerAll(first) + SendAll(b, 0, KidsFrom(size, root, self.index, self.order));
    var i := self.order;
    while i > 0
      invariant 0 <= i <= self.order
      invariant LowerAll(calls) + SendAll(b, 0, KidsFrom(size, root, self.index, i)) == all
    {
      i := i - 1;
      if self.children[i] == null || self.children[i].index >= size {
        assert KidsFrom(size, root, self.index, i + 1) == KidsFrom(size, root, self.index, i);
        continue;
      }
      var child := (root + self.children[i].index) % size;
      SendLower(calls, count, child, KidsFrom(size, root, self.index, i));
      calls := calls + [CallSend(0, count, child, TAG)];
    }
    NoSends(b);
  }

  /** The calls `bcast_binomial` makes at one rank. */
  method BcastBinomial(rank: nat, size: nat, root: nat, count: nat) returns (calls: seq<Call>)
    requires rank < size && root < size
    ensures LowerAll(calls) == Ops(size, root, count, rank)
  {
    hide LowerAll, SendAll, Objects, Found, Forest, Built, Order, BinomialTree, Pow2, And, LowBit, Ops;
    var rank0 := (rank + size - root) % size;
    var node, self;
    ghost var t, u;
    node, t := Create(size);
    BuiltAt(t, null, Order(size), 0);
    OrderBounds(size);
    self, u := Find(node, rank0, t, Order(size), 0);
    FoundRank(size, t, rank0, u);
    BuiltAt(u, u.node.parent, OrderOf(size, rank0), rank0);
    KidIndices(u, u.node.parent, OrderOf(size, rank0), rank0);
    TreeAt(size, root, rank);
    DistanceIs(size, root, rank);
    OpsOf(size, root, count, rank);
    var parent: int := if self.parent == null then -1 else (root + self.parent.index) % size;
    calls := [];
    if rank != root {
      RecvLower(count, parent);
      calls := [CallRecv(0, count, parent, TAG)];
    } else {
      NoCalls();
    }
    calls := SendKids(self, size, root, count, calls);
  }

  lemma NoCalls()
    ensures LowerAll([]) == []
  {
  }

  lemma NoSends(b: Cut)
    ensures SendAll(b, 0, []) == []
  {
  }

  // ----------------------------------------------------------------- theorems

  ghost function BinomialPlan(size: nat, root: nat, data: seq<int>): Plan
    requires root < size
  {
    Plan(seq(size, r requires 0 <= r < size => Ops(size, root, |data|, r)), root, data)
  }

  /** Rank `c` is the child of `x` of some order below `o`: it sits a power of two above, and has that order. */
  predicate IsKid(size: nat, root: nat, x: nat, o: nat, c: nat)
    requires root < size
  {
    c < size && Distance(size, root, c) > 0 && LowBit(Distance(size, root, c)) < o &&
    Distance(size, root, c) == x + Pow2(LowBit(Distance(size, root, c)))
  }

  function OrderAt(size: nat, root: nat, c: nat): nat
    requires root < size
  {
    if c < size && Distance(size, root, c) > 0 then LowBit(Distance(size, root, c)) else 0
  }

  /** Children of orders below `o`, in decreasing order. */
  predicate KidsOf(size: nat, root: nat, x: nat, o: nat, kids: seq<nat>)
    requires root < size
  {
    (forall j: nat | j < |kids| :: IsKid(size, root, x, o, kids[j])) &&
    forall i: nat, j: nat | i < j < |kids| :: OrderAt(size, root, kids[j]) < OrderAt(size, root, kids[i])
  }

  lemma OneMore(size: nat, root: nat, x: nat, o: nat, c: nat, kids: seq<nat>)
    requires root < size && KidsOf(size, root, x, o, kids)
    requires IsKid(size, root, x, o + 1, c) && OrderAt(size, root, c) == o
    ensures KidsOf(size, root, x, o + 1, [c] + kids)
  {
    hide Distance, LowBit, Pow2;
    forall j: nat | j < |kids|
      ensures IsKid(size, root, x, o + 1, kids[j]) && OrderAt(size, root, kids[j]) < o
    {
      assert IsKid(size, root, x, o, kids[j]);
    }
  }

  lemma NoMore(size: nat, root: nat, x: nat, o: nat, kids: seq<nat>)
    requires root < size && KidsOf(size, root, x, o, kids)
    ensures KidsOf(size, root, x, o + 1, kids)
  {
    hide Distance, LowBit, Pow2;
    forall j: nat | j < |kids|
      ensures IsKid(size, root, x, o + 1, kids[j])
    {
      assert IsKid(size, root, x, o, kids[j]);
    }
  }

  lemma NewKid(size: nat, root: nat, x: nat, o: nat)
    requires root < size && x + Pow2(o) < size && (x == 0 || o < LowBit(x))
    ensures var c := RankAt(size, root, x + Pow2(o));
      IsKid(size, root, x, o + 1, c) && OrderAt(size, root, c) == o
  {
    hide Distance, RankAt, LowBit, Pow2;
    LowBitPlus(x, o);
    Positive(o);
    RankAtIs(size, root, x + Pow2(o));
  }

  lemma {:induction false} KidsAre(size: nat, root: nat, x: nat, o: nat)
    requires root < size && x < size && (x == 0 || o <= LowBit(x))
    ensures KidsOf(size, root, x, o, KidsFrom(size, root, x, o))
  {
    hide Distance, RankAt, LowBit, Pow2, IsKid, OrderAt, KidsOf;
    if o == 0 {
      NoKids(size, root, x);
    } else {
      var c, rest := RankAt(size, root, x + Pow2(o - 1)), KidsFrom(size, root, x, o - 1);
      KidsAre(size, root, x, o - 1);
      if x + Pow2(o - 1) < size {
        NewKid(size, root, x, o - 1);
        OneMore(size, root, x, o - 1, c, rest);
        assert KidsFrom(size, root, x, o) == [c] + rest;
      } else {
        NoMore(size, root, x, o - 1, rest);
        assert KidsFrom(size, root, x, o) == rest;
      }
    }
  }

  lemma NoKids(size: nat, root: nat, x: nat)
    requires root < size
    ensures KidsOf(size, root, x, 0, [])
  {
  }

  lemma Positive(n: nat)
    ensures Pow2(n) > 0
  {
  }

  /** Every live node one power of two above `x` is among its children. */
  lemma {:induction false} KidsAll(size: nat, root: nat, x: nat, o: nat, i: nat)
    requires root < size && i < o && x + Pow2(i) < size
    ensures RankAt(size, root, x + Pow2(i)) in KidsFrom(size, root, x, o)
  {
    hide RankAt;
    if i < o - 1 {
      KidsAll(size, root, x, o - 1, i);
    }
  }

  lemma OrderAbove(size: nat, x: nat)
    requires 0 < x < size
    ensures LowBit(x) < Order(size)
  {
    OrderBounds(size);
    LowBitFits(x);
    if Order(size) < LowBit(x) {
      Pow2Grows(Order(size), LowBit(x));
    }
  }

  lemma BinomialKids(size: nat, root: nat, r: nat)
    requires root < size && r < size
    ensures Ranks(BinomialTree(size, root), r) && KidsInTurn(BinomialTree(size, root), r)
  {
    hide BinomialTree, Distance, RankAt, LowBit, Pow2, And, Order, KidsFrom;
    var sh, x := BinomialTree(size, root), Distance(size, root, r);
    TreeAt(size, root, r);
    DistanceIs(size, root, r);
    KidsAre(size, root, x, OrderOf(size, x));
    forall j: nat | j < |sh.kids[r]|
      ensures var c := sh.kids[r][j];
        Ranks(sh, c) && c != root && sh.parent[c] == r &&
        sh.arrive[c] == Order(size) - 1 - LowBit(Distance(size, root, c)) &&
        LowBit(Distance(size, root, c)) < OrderOf(size, x) <= Order(size)
    {
      assert IsKid(size, root, x, OrderOf(size, x), sh.kids[r][j]);
      KidFacts(size, root, r, sh.kids[r][j]);
    }
  }

  lemma KidFacts(size: nat, root: nat, r: nat, c: nat)
    requires root < size && r < size && c < size && Distance(size, root, c) > 0
    requires LowBit(Distance(size, root, c)) < OrderOf(size, Distance(size, root, r))
    requires Distance(size, root, c) == Distance(size, root, r) + Pow2(LowBit(Distance(size, root, c)))
    ensures var sh := BinomialTree(size, root);
      Ranks(sh, c) && c != root && sh.parent[c] == r &&
        sh.arrive[c] == Order(size) - 1 - LowBit(Distance(size, root, c)) &&
      OrderOf(size, Distance(size, root, r)) <= Order(size)
  {
    hide BinomialTree, Distance, RankAt, LowBit, Pow2, And, Order, KidsFrom;
    TreeAt(size, root, c);
    DistanceIs(size, root, r);
    DistanceIs(size, root, c);
    LowBitCleared(Distance(size, root, c));
    if Distance(size, root, r) > 0 {
      OrderAbove(size, Distance(size, root, r));
    }
  }

  lemma BinomialParent(size: nat, root: nat, r: nat)
    requires root < size && r < size && r != root
    ensures var sh := BinomialTree(size, root);
      Ranks(sh, r) && sh.arrive[r] >= 0 && Ranks(sh, sh.parent[r]) && r in sh.kids[sh.parent[r]]
  {
    hide BinomialTree, Distance, RankAt, LowBit, Pow2, And, Order, KidsFrom;
    var x := Distance(size, root, r);
    DistanceIs(size, root, r);
    TreeAt(size, root, r);
    OrderAbove(size, x);
    LowBitCleared(x);
    LowBitMinus(x);
    var y := Parent0(x);
    Positive(LowBit(x));
    RankAtIs(size, root, y);
    TreeAt(size, root, RankAt(size, root, y));
    KidsAll(size, root, y, OrderOf(size, y), LowBit(x));
  }

  lemma BinomialIsTree(size: nat, root: nat)
    requires root < size
    ensures Tree(BinomialTree(size, root))
  {
    hide BinomialTree, KidsInTurn;
    var sh := BinomialTree(size, root);
    TreeAt(size, root, root);
    forall r: nat | Ranks(sh, r)
      ensures KidsInTurn(sh, r)
      ensures r != root ==> sh.arrive[r] >= 0 && Ranks(sh, sh.parent[r]) && r in sh.kids[sh.parent[r]]
    {
      TreeSize(size, root, r);
      BinomialKids(size, root, r);
      if r != root {
        BinomialParent(size, root, r);
      }
    }
  }

  lemma PlanIsRelay(size: nat, root: nat, data: seq<int>)
    requires root < size
    ensures Tree(BinomialTree(size, root)) && WellCut(OneBlockCut(|data|))
    ensures BinomialPlan(size, root, data) == PlanOf(BinomialTree(size, root), OneBlockCut(|data|), data)
  {
    hide Program, Tree;
    BinomialIsTree(size, root);
    var p, p' := BinomialPlan(size, root, data), PlanOf(BinomialTree(size, root), OneBlockCut(|data|), data);
    assert p.prog == p'.prog;
  }

  /** The binomial tree broadcasts in every run, whatever is buffered, for every size and every buffer. */
  lemma BinomialDelivers(size: nat, root: nat, data: seq<int>)
    requires root < size
    ensures Delivers(BinomialPlan(size, root, data))
  {
    hide BinomialTree, Delivers, Tree, BinomialPlan, WellCut;
    PlanIsRelay(size, root, data);
    PlanCertified(BinomialTree(size, root), OneBlockCut(|data|), data);
    CertifiedDelivers(BinomialPlan(size, root, data), ClockOf(BinomialTree(size, root), OneBlockCut(|data|)));
  }

  /** In every run of the binomial tree a rank sends only the root's data, and nothing that it is
      receiving into. */
  lemma BinomialSafe(size: nat, root: nat, data: seq<int>, run: seq<State>, st: State, r: nat)
    requires root < size && Run(BinomialPlan(size, root, data), run) && st in run && r < size
    ensures var p := BinomialPlan(size, root, data);
      Fits(p, run[0]) && Fits(p, st) &&
      Ranks(BinomialTree(size, root), r) &&
      (r != root ==> HoldsCompleted(BinomialTree(size, root), OneBlockCut(|data|), p, run[0].ranks[r].buf, st, r)) &&
      forall op: Op | op.Send? && Current(p, st, r, op) ::
        op.off + op.len <= |data| && st.ranks[r].buf[op.off..op.off + op.len] == data[op.off..op.off + op.len] &&
        forall q | Receiving(p, st, r, q) :: !Overlap(op, q)
  {
    hide Tree, Run, BinomialPlan, Fits, Current, Receiving, HoldsCompleted;
    PlanIsRelay(size, root, data);
    TreeAt(size, root, r);
    RelaysSafely(BinomialTree(size, root), OneBlockCut(|data|), data, run, st, r);
  }

  /** In every run of the binomial tree a rank holds what it started with until it posts its receive,
      the root's data once the receive has returned, and one of the two in between. */
  lemma AllOrNothing(size: nat, root: nat, data: seq<int>, run: seq<State>, st: State, r: nat)
    requires root < size && Run(BinomialPlan(size, root, data), run) && st in run && r < size && r != root
    ensures var p, parent := BinomialPlan(size, root, data), RankAt(size, root, Parent0(Distance(size, root, r)));
      Fits(p, run[0]) && Fits(p, st) && r < |p.prog| &&
      (st.ranks[r].buf == data || st.ranks[r].buf == run[0].ranks[r].buf) &&
      (Done(p, st, r, Wait(parent, TAG)) ==> st.ranks[r].buf == data) &&
      (!Done(p, st, r, Post(0, |data|, parent, TAG)) ==> st.ranks[r].buf == run[0].ranks[r].buf)
  {
    hide Run, BinomialTree, HoldsCompleted, Current, Receiving, Fits, Done, Distance, RankAt, Parent0, Ops;
    BinomialSafe(size, root, data, run, st, r);
    TreeAt(size, root, r);
    FitsRanks(BinomialPlan(size, root, data), run[0]);
    var p := BinomialPlan(size, root, data);
    WholeBlock(BinomialTree(size, root), OneBlockCut(|data|), p, run[0].ranks[r].buf, st, r);
  }

  lemma WholeBlock(sh: Shape, b: Cut, p: Plan, buf0: seq<int>, st: State, r: nat)
    requires Fits(p, st) && r < |p.prog| && Ranks(sh, r) && b == OneBlockCut(|p.data|)
    requires HoldsCompleted(sh, b, p, buf0, st, r)
    ensures st.ranks[r].buf == p.data || st.ranks[r].buf == buf0
    ensures Done(p, st, r, Wait(sh.parent[r], TAG)) ==> st.ranks[r].buf == p.data
    ensures !Done(p, st, r, Post(0, b.count, sh.parent[r], TAG)) ==> st.ranks[r].buf == buf0
  {
    hide Fits, Done;
    FitsRanks(p, st);
    var n: nat :| HoldsFirst(sh, b, p, buf0, st, r, n);
    assert WaitOp(sh, b, r, 0) == Wait(sh.parent[r], TAG) && PostOp(sh, b, r, 0) == Post(0, b.count, sh.parent[r], TAG);
    TimesIsProduct(b.size, n);
    if n == 0 {
      assert st.ranks[r].buf == buf0;
    } else {
      assert st.ranks[r].buf == p.data;
    }
  }

  /** Every rank but the root posts exactly one receive, its parent is live and sends it exactly one
      message, and nobody else sends to it. */
  lemma OneMessage(size: nat, root: nat, data: seq<int>, r: nat, q: Op)
    requires root < size && r < size && r != root
    ensures var p, x := BinomialPlan(size, root, data), Distance(size, root, r);
      var parent := RankAt(size, root, Parent0(x));
      (Has(p, r, q) && q.Post? <==> q == Post(0, |data|, parent, 42)) &&
      parent < size && Has(p, parent, Send(0, |data|, r, 42)) &&
      (forall s: nat, op | Has(p, s, op) && op.Send? && op.dst == r :: s == parent && op == Send(0, |data|, r, 42)) &&
      forall s: nat | s < size :: NoRepeats(p.prog[s])
  {
    hide BinomialTree, Distance, RankAt, And, KidsFrom, Order, BinomialPlan, Tree, Program, Has, NoRepeats;
    var sh, b, p := BinomialTree(size, root), OneBlockCut(|data|), BinomialPlan(size, root, data);
    PlanIsRelay(size, root, data);
    DistanceIs(size, root, r);
    TreeAt(size, root, r);
    BinomialParent(size, root, r);
    TreeSize(size, root, sh.parent[r]);
    if Has(p, r, q) && q.Post? {
      var k := BlockAt(sh, b, data, r, q);
    }
    HasAt(sh, b, data, r, PostOp(sh, b, r, 0), 0);
    HasAt(sh, b, data, sh.parent[r], SendOp(b, 0, r), 0);
    forall s: nat, op | Has(p, s, op) && op.Send? && op.dst == r
      ensures s == sh.parent[r] && op == Send(0, |data|, r, TAG)
    {
      OnlySender(size, root, data, s, op);
    }
    OpsOnce(size, root, data);
  }

  lemma OnlySender(size: nat, root: nat, data: seq<int>, s: nat, op: Op)
    requires root < size && Has(BinomialPlan(size, root, data), s, op) && op.Send?
    ensures var sh := BinomialTree(size, root);
      Ranks(sh, op.dst) && s == sh.parent[op.dst] && op == Send(0, |data|, op.dst, TAG)
  {
    hide BinomialTree, BinomialPlan, Tree, Program, Has;
    var sh, b := BinomialTree(size, root), OneBlockCut(|data|);
    PlanIsRelay(size, root, data);
    var k := BlockAt(sh, b, data, s, op);
    TreeSize(size, root, s);
    BinomialKids(size, root, s);
  }

  lemma OpsOnce(size: nat, root: nat, data: seq<int>)
    requires root < size
    ensures |BinomialPlan(size, root, data).prog| == size
    ensures forall s: nat | s < size :: NoRepeats(BinomialPlan(size, root, data).prog[s])
  {
    hide BinomialTree, Program, Tree, Time, WellCut;
    var sh, b := BinomialTree(size, root), OneBlockCut(|data|);
    PlanIsRelay(size, root, data);
    PlanOrdered(sh, b, data);
    OrderedOnce(BinomialPlan(size, root, data), ClockOf(sh, b));
  }

  /** In lock step a node of order `i` is served in round `k - i` of a tree of order `k`, so the broadcast
      takes at most the ceiling of the binary logarithm of the size. */
  lemma BinomialRounds(size: nat, root: nat, data: seq<int>)
    requires root < size
    ensures var p, R := BinomialPlan(size, root, data), RoundOf(BinomialTree(size, root), OneBlockCut(|data|));
      LockStep(p, R) && RunsInRounds(p, R) &&
      forall s: nat, op | Has(p, s, op) && op.Send? ::
        op.dst < size && R(s, op) == Order(size) - OrderOf(size, Distance(size, root, op.dst)) <= Order(size)
  {
    hide Tree, Time, Program, LockStep, RunsInRounds, Has, BinomialPlan, BinomialTree, Distance, Pow2, Order, LowBit;
    var p, sh, b := BinomialPlan(size, root, data), BinomialTree(size, root), OneBlockCut(|data|);
    PlanIsRelay(size, root, data);
    RelaysInLockStep(sh, b, data);
    RelaysRun(sh, b, data);
    forall s: nat, op | Has(p, s, op) && op.Send?
      ensures op.dst < size && RoundOf(sh, b)(s, op) == Order(size) - OrderOf(size, Distance(size, root, op.dst))
    {
      var k := BlockAt(sh, b, data, s, op);
      SendRound(sh, b, s, op, k);
      TreeSize(size, root, op.dst);
      TreeAt(size, root, op.dst);
    }
  }

  /** No schedule serves all ranks in fewer rounds. */
  lemma NoFewerRounds(size: nat, root: nat, data: seq<int>, R: Clock)
    requires root < size && size >= 2 && Paced(BinomialPlan(size, root, data), R)
    ensures Order(size) >= 1 && SomeSendAt(BinomialPlan(size, root, data), R, Order(size))
  {
    hide Tree, Paced, BinomialTree, SomeSendAt, WellCut, Certified, Distance, RankAt, Parent0, Ops, Has;
    var p, sh, b, t := BinomialPlan(size, root, data), BinomialTree(size, root), OneBlockCut(|data|), Order(size) - 1;
    PlanIsRelay(size, root, data);
    PlanCertified(sh, b, data);
    OrderBounds(size);
    forall r: nat | r < |p.prog| && r != root
      ensures Listens(p, r)
    {
      var q := Post(0, |data|, RankAt(size, root, Parent0(Distance(size, root, r))), TAG);
      OneMessage(size, root, data, r, q);
      assert Has(p, r, q);
    }
    if !SomeSendAt(p, R, t + 1) {
      LogRounds(p, ClockOf(sh, b), R, t);
    }
  }
}
