/** The tree of holes: an AVL tree of closed, pairwise non-adjacent intervals
    (block1-lru/src/itree.c).

    Heap nodes are described by a ghost `Tree`, a snapshot of the nodes reachable from a
    pointer.  `Shape(n, t)` ties the two together; every invariant is a property of `t`. */
module Itree {

  /** `itree_t`. */
  class Node {
    var l: Node?
    var r: Node?
    var k1: int
    var k2: int
    var v: int
    var h: int

    /** `_itree_new_node`: calloc, then both interval ends are set. */
    constructor (index: int)
      ensures l == null && r == null && k1 == index && k2 == index && v == 0 && h == 0
    {
      l, r, k1, k2, v, h := null, null, index, index, 0, 0;
    }
  }

  /** `itree_util_t`: the upper and lower nodes adjacent to the new index. */
  class Util {
    var u: Node?
    var l: Node?

    constructor ()
      ensures u == null && l == null
    {
      u, l := null, null;
    }
  }

  // ---------------------------------------------------------------- snapshots

  datatype Tree = Leaf | Fork(l: Tree, x: Node, k1: int, k2: int, v: int, h: int, r: Tree)

  ghost function Nodes(t: Tree): set<Node> {
    match t
    case Leaf => {}
    case Fork(l, x, _, _, _, _, r) => Nodes(l) + {x} + Nodes(r)
  }

  ghost predicate Distinct(t: Tree) {
    match t
    case Leaf => true
    case Fork(l, x, _, _, _, _, r) =>
      Distinct(l) && Distinct(r) && x !in Nodes(l) && x !in Nodes(r) && Nodes(l) !! Nodes(r)
  }

  ghost predicate Shape(n: Node?, t: Tree)
    reads Nodes(t)
  {
    match t
    case Leaf => n == null
    case Fork(l, x, k1, k2, v, h, r) =>
      n == x && x.k1 == k1 && x.k2 == k2 && x.v == v && x.h == h && Shape(x.l, l) && Shape(x.r, r)
  }

  // --------------------------------------------------- what a snapshot denotes

  function Range(a: int, b: int): (s: set<int>)
    ensures forall i :: i in s <==> a <= i <= b
    decreases b - a
  {
    if a > b then {} else {a} + Range(a + 1, b)
  }

  /** The indices stored in the tree. */
  ghost function Idx(t: Tree): set<int> {
    match t
    case Leaf => {}
    case Fork(l, _, k1, k2, _, _, r) => Idx(l) + Range(k1, k2) + Idx(r)
  }

  /** The number of indices, added up interval by interval. */
  ghost function Sum(t: Tree): int {
    match t
    case Leaf => 0
    case Fork(l, _, k1, k2, _, _, r) => Sum(l) + (k2 - k1 + 1) + Sum(r)
  }

  /** The number of stored indices greater than `i`, for an `i` not stored. */
  ghost function Above(t: Tree, i: int): int {
    match t
    case Leaf => 0
    case Fork(l, _, k1, k2, _, _, r) =>
      if i < k1 then Above(l, i) + (k2 - k1 + 1) + Sum(r) else Above(r, i)
  }

  datatype Interval = Interval(lo: int, hi: int)

  /** The intervals in order. */
  ghost function InOrder(t: Tree): seq<Interval> {
    match t
    case Leaf => []
    case Fork(l, _, k1, k2, _, _, r) => InOrder(l) + [Interval(k1, k2)] + InOrder(r)
  }

  /** The number of nodes. */
  ghost function Size(t: Tree): nat {
    match t
    case Leaf => 0
    case Fork(l, _, _, _, _, _, r) => Size(l) + 1 + Size(r)
  }

  ghost function Height(t: Tree): int {
    match t
    case Leaf => -1
    case Fork(l, _, _, _, _, _, r) => Max(Height(l), Height(r)) + 1
  }

  function Max(a: int, b: int): int {
    if a > b then a else b
  }

  function Abs(a: int): int {
    if a < 0 then -a else a
  }

  // -------------------------------------------------------------- invariants

  /** Every interval is non-empty and separated by at least one missing index from its
      neighbours, from `a` below and from `b` above. */
  ghost predicate Between(t: Tree, a: int, b: int) {
    match t
    case Leaf => true
    case Fork(l, _, k1, k2, _, _, r) =>
      a + 2 <= k1 <= k2 <= b - 2 && Between(l, a, k1) && Between(r, k2, b)
  }

  /** Cached heights are exact and sibling heights differ by at most one. */
  ghost predicate Avl(t: Tree) {
    match t
    case Leaf => true
    case Fork(l, _, _, _, _, h, r) =>
      Avl(l) && Avl(r) && Abs(Height(l) - Height(r)) <= 1 && h == Height(t)
  }

  /** Cached right-subtree sums are exact. */
  ghost predicate SumsExact(t: Tree) {
    match t
    case Leaf => true
    case Fork(l, _, _, _, v, _, r) => SumsExact(l) && SumsExact(r) && v == Sum(r)
  }

  ghost predicate WellFormed(t: Tree, a: int, b: int) {
    Distinct(t) && Between(t, a, b) && Avl(t) && SumsExact(t)
  }

  // ------------------------------------------------------------ small helpers

  /** `_itree_height`. */
  function NodeHeight(n: Node?): int
    reads if n == null then {} else {n}
  {
    if n == null then -1 else n.h
  }

  /** The value `_itree_set_height` stores in `n.h`. */
  function ChildHeight(n: Node): int
    reads n, n.l, n.r
  {
    Max(NodeHeight(n.l), NodeHeight(n.r)) + 1
  }

  /** `_itree_count`. */
  function Count(n: Node?, ghost t: Tree): (c: int)
    requires Shape(n, t) && SumsExact(t)
    reads Nodes(t)
    ensures c == Sum(t)
    decreases t
  {
    if n == null then 0 else n.k2 - n.k1 + 1 + n.v + Count(n.l, t.l)
  }

  lemma HeightExact(n: Node?, t: Tree)
    requires Shape(n, t) && Avl(t)
    ensures NodeHeight(n) == Height(t)
    ensures Height(t) >= -1
  {
    if t.Fork? {
      HeightExact(n.l, t.l);
      HeightExact(n.r, t.r);
    }
  }

  lemma HeightFork(t: Tree)
    requires t.Fork?
    ensures Height(t) == 1 + Max(Height(t.l), Height(t.r))
  {
  }

  lemma HeightPositive(t: Tree)
    ensures Height(t) >= -1
    ensures t.Fork? ==> Height(t) >= 0
  {
  }

  /** The snapshot after the left child is raised above `t`; only the height of the old root
      is brought up to date. */
  ghost function RaiseLeft(t: Tree): Tree
    requires t.Fork? && t.l.Fork?
  {
    var l := t.l;
    Fork(l.l, l.x, l.k1, l.k2, l.v + (t.v + t.k2 - t.k1 + 1), l.h,
         Fork(l.r, t.x, t.k1, t.k2, t.v, Max(Height(l.r), Height(t.r)) + 1, t.r))
  }

  /** The mirror image; the sum of the old root is recounted. */
  ghost function RaiseRight(t: Tree): Tree
    requires t.Fork? && t.r.Fork?
  {
    var r := t.r;
    Fork(Fork(t.l, t.x, t.k1, t.k2, Sum(r.l), Max(Height(t.l), Height(r.l)) + 1, r.l),
         r.x, r.k1, r.k2, r.v, r.h, r.r)
  }

  ghost predicate SubtreesAvl(t: Tree) {
    t.Fork? ==> Avl(t.l) && Avl(t.r)
  }

  ghost function FixHeight(t: Tree): Tree {
    if t.Leaf? then t else t.(h := Max(Height(t.l), Height(t.r)) + 1)
  }

  /** What a rotation keeps. */
  ghost predicate SameContents(t: Tree, t': Tree) {
    InOrder(t') == InOrder(t) && Nodes(t') == Nodes(t) && Idx(t') == Idx(t) && Sum(t') == Sum(t)
  }

  /** Everything but balance. */
  ghost predicate Valid(t: Tree, a: int, b: int) {
    Distinct(t) && SumsExact(t) && Between(t, a, b)
  }

  lemma {:induction false} RaiseLeftKeeps(t: Tree, a: int, b: int)
    requires t.Fork? && t.l.Fork? && Valid(t, a, b)
    ensures SameContents(t, RaiseLeft(t)) && Valid(RaiseLeft(t), a, b)
  {
    assert Valid(t.l, a, t.k1);
    assert Valid(RaiseLeft(t).r, t.l.k2, b);
  }

  lemma {:induction false} RaiseRightKeeps(t: Tree, a: int, b: int)
    requires t.Fork? && t.r.Fork? && Valid(t, a, b)
    ensures SameContents(t, RaiseRight(t)) && Valid(RaiseRight(t), a, b)
  {
    assert Valid(t.r, t.k2, b);
    assert Valid(RaiseRight(t).l, a, t.r.k1);
  }

  lemma Allocated(t: Tree)
    ensures forall x :: x in Nodes(t) ==> allocated(x)
  {
    if t.Fork? {
      Allocated(t.l);
      Allocated(t.r);
    }
  }

  lemma {:induction false} Unfold(n: Node?, t: Tree)
    requires t.Fork? && Shape(n, t) && Distinct(t)
    ensures SumsExact(t) ==> SumsExact(t.l) && SumsExact(t.r) && t.v == Sum(t.r)
    ensures Nodes(t) == Nodes(t.l) + {t.x} + Nodes(t.r) && Nodes(t.l) !! Nodes(t.r)
    ensures t.x !in Nodes(t.l) && t.x !in Nodes(t.r) && Distinct(t.l) && Distinct(t.r)
    ensures n == t.x && Shape(t.x.l, t.l) && Shape(t.x.r, t.r)
    ensures n.k1 == t.k1 && n.k2 == t.k2 && n.v == t.v && n.h == t.h
  {
  }

  /** Raises the left child of `n` above `n`: the pointer, sum and height updates shared by
      the right-left and left-left cases. */
  method RaiseLeftChild(n: Node, ghost t: Tree) returns (top: Node)
    requires t.Fork? && t.l.Fork? && Shape(n, t) && Distinct(t) && SumsExact(t)
    requires Avl(t.l.r) && Avl(t.r)
    modifies Nodes(t)`l, Nodes(t)`r, Nodes(t)`v, Nodes(t)`h
    ensures Shape(top, RaiseLeft(t))
  {
    hide Avl, SumsExact, Distinct, Height;
    ghost var a, b, c := t.l.l, t.l.r, t.r;
    Unfold(n, t);
    Unfold(n.l, t.l);
    HeightExact(n.l.r, b);
    HeightExact(n.r, c);
    top := n.l;
    var m := top.r;
    n.l := top.r;
    assert Shape(m, b);
    top.r := n;
    assert Shape(m, b);
    top.v := top.v + (n.v + n.k2 - n.k1 + 1);
    assert Shape(m, b);
    n.h := ChildHeight(n);
    assert n.h == Max(Height(b), Height(c)) + 1;
    assert Shape(m, b);
    assert Shape(top.l, a);
    assert Shape(n.r, c);
  }

  /** The mirror image, shared by the left-right and right-right cases. */
  method RaiseRightChild(n: Node, ghost t: Tree) returns (top: Node)
    requires t.Fork? && t.r.Fork? && Shape(n, t) && Distinct(t) && SumsExact(t)
    requires Avl(t.l) && Avl(t.r.l)
    modifies Nodes(t)`l, Nodes(t)`r, Nodes(t)`v, Nodes(t)`h
    ensures Shape(top, RaiseRight(t))
  {
    hide Avl, SumsExact, Distinct, Height;
    ghost var a, b, c := t.l, t.r.l, t.r.r;
    Unfold(n, t);
    Unfold(n.r, t.r);
    HeightExact(n.l, a);
    HeightExact(n.r.l, b);
    top := n.r;
    n.r := top.l;
    top.l := n;
    assert Shape(n.r, b);
    n.v := Count(n.r, b);
    n.h := ChildHeight(n);
    assert n.h == Max(Height(a), Height(b)) + 1;
    assert Shape(n.l, a);
    assert Shape(n.r, b);
    assert Shape(top.r, c);
  }

  /** `_itree_set_height`. */
  method SetHeight(n: Node, ghost t: Tree)
    requires t.Fork? && Shape(n, t) && Distinct(t) && SubtreesAvl(t)
    modifies n`h
    ensures Shape(n, FixHeight(t))
  {
    HeightExact(n.l, t.l);
    HeightExact(n.r, t.r);
    n.h := ChildHeight(n);
    assert Shape(n.l, t.l) && Shape(n.r, t.r);
  }

  /** The rotations applied when the right child is two levels higher: right-left first if its
      own left side is the higher one. */
  ghost function RotateRight(t: Tree): Tree
    requires t.Fork? && t.r.Fork?
    requires Height(t.r.l) > Height(t.r.r) ==> t.r.l.Fork?
  {
    FixHeight(RaiseRight(if Height(t.r.l) > Height(t.r.r) then t.(r := RaiseLeft(t.r)) else t))
  }

  ghost function RotateLeft(t: Tree): Tree
    requires t.Fork? && t.l.Fork?
    requires Height(t.l.r) > Height(t.l.l) ==> t.l.r.Fork?
  {
    FixHeight(RaiseLeft(if Height(t.l.r) > Height(t.l.l) then t.(l := RaiseRight(t.l)) else t))
  }

  lemma {:induction false} AvlChildren(t: Tree)
    requires Avl(t) && t.Fork?
    ensures Avl(t.l) && Avl(t.r) && -1 <= Height(t.l) < Height(t) && -1 <= Height(t.r) < Height(t)
    ensures Height(t) == 1 + Max(Height(t.l), Height(t.r)) && Abs(Height(t.l) - Height(t.r)) <= 1
  {
    HeightPositive(t.l);
    HeightPositive(t.r);
  }

  lemma {:induction false} AvlFork(t: Tree)
    requires t.Fork? && Avl(t.l) && Avl(t.r) && Abs(Height(t.l) - Height(t.r)) <= 1
    requires t.h == 1 + Max(Height(t.l), Height(t.r))
    ensures Avl(t) && Height(t) == t.h
  {
  }

  lemma {:induction false} DoubleRight(t: Tree)
    requires t.Fork? && t.r.Fork? && t.r.l.Fork? && Avl(t.l) && Avl(t.r)
    requires Height(t.r) == Height(t.l) + 2 && Height(t.r.l) > Height(t.r.r)
    ensures Avl(RotateRight(t)) && Height(RotateRight(t)) == Height(t.r)
  {
    hide Avl, Height;
    AvlChildren(t.r);
    AvlChildren(t.r.l);
    var t' := RotateRight(t);
    assert t'.l.l == t.l && t'.l.r == t.r.l.l && t'.r.l == t.r.l.r && t'.r.r == t.r.r;
    AvlFork(t'.l);
    AvlFork(t'.r);
    AvlFork(t');
  }

  lemma {:induction false} SingleRight(t: Tree)
    requires t.Fork? && t.r.Fork? && Avl(t.l) && Avl(t.r)
    requires Height(t.r) == Height(t.l) + 2 && Height(t.r.l) <= Height(t.r.r)
    ensures Avl(RotateRight(t)) && Height(t.r) <= Height(RotateRight(t)) <= Height(t.r) + 1
  {
    hide Avl, Height;
    AvlChildren(t.r);
    var t' := RotateRight(t);
    AvlFork(t'.l);
    AvlFork(t');
  }

  lemma {:induction false} RotateRightRestores(t: Tree)
    requires t.Fork? && Avl(t.l) && Avl(t.r) && Height(t.r) == Height(t.l) + 2
    ensures t.r.Fork? && (Height(t.r.l) > Height(t.r.r) ==> t.r.l.Fork?)
    ensures Avl(RotateRight(t)) && Height(t) - 1 <= Height(RotateRight(t)) <= Height(t)
    ensures RotateRight(t).r.Fork? && RotateRight(t).l.Fork? && RotateRight(t).l.x == t.x
  {
    hide Avl;
    HeightPositive(t.l);
    AvlChildren(t.r);
    if Height(t.r.l) > Height(t.r.r) {
      DoubleRight(t);
    } else {
      SingleRight(t);
    }
  }

  lemma {:induction false} DoubleLeft(t: Tree)
    requires t.Fork? && t.l.Fork? && t.l.r.Fork? && Avl(t.l) && Avl(t.r)
    requires Height(t.l) == Height(t.r) + 2 && Height(t.l.r) > Height(t.l.l)
    ensures Avl(RotateLeft(t)) && Height(RotateLeft(t)) == Height(t.l)
  {
    hide Avl, Height;
    AvlChildren(t.l);
    AvlChildren(t.l.r);
    var t' := RotateLeft(t);
    assert t'.l.l == t.l.l && t'.l.r == t.l.r.l && t'.r.l == t.l.r.r && t'.r.r == t.r;
    AvlFork(t'.l);
    AvlFork(t'.r);
    AvlFork(t');
  }

  lemma {:induction false} SingleLeft(t: Tree)
    requires t.Fork? && t.l.Fork? && Avl(t.l) && Avl(t.r)
    requires Height(t.l) == Height(t.r) + 2 && Height(t.l.r) <= Height(t.l.l)
    ensures Avl(RotateLeft(t)) && Height(t.l) <= Height(RotateLeft(t)) <= Height(t.l) + 1
  {
    hide Avl, Height;
    AvlChildren(t.l);
    var t' := RotateLeft(t);
    AvlFork(t'.r);
    AvlFork(t');
  }

  lemma {:induction false} RotateLeftRestores(t: Tree)
    requires t.Fork? && Avl(t.l) && Avl(t.r) && Height(t.l) == Height(t.r) + 2
    ensures t.l.Fork? && (Height(t.l.r) > Height(t.l.l) ==> t.l.r.Fork?)
    ensures Avl(RotateLeft(t)) && Height(t) - 1 <= Height(RotateLeft(t)) <= Height(t)
    ensures RotateLeft(t).l.Fork? && RotateLeft(t).r.Fork? && RotateLeft(t).r.x == t.x
  {
    hide Avl;
    HeightPositive(t.r);
    AvlChildren(t.l);
    if Height(t.l.r) > Height(t.l.l) {
      DoubleLeft(t);
    } else {
      SingleLeft(t);
    }
  }

  lemma {:induction false} RotateRightKeeps(t: Tree, a: int, b: int)
    requires t.Fork? && t.r.Fork? && Valid(t, a, b)
    requires Height(t.r.l) > Height(t.r.r) ==> t.r.l.Fork?
    ensures SameContents(t, RotateRight(t)) && Valid(RotateRight(t), a, b)
  {
    var t1 := t;
    if Height(t.r.l) > Height(t.r.r) {
      RaiseLeftKeeps(t.r, t.k2, b);
      t1 := t.(r := RaiseLeft(t.r));
    }
    RaiseRightKeeps(t1, a, b);
  }

  lemma {:induction false} RotateLeftKeeps(t: Tree, a: int, b: int)
    requires t.Fork? && t.l.Fork? && Valid(t, a, b)
    requires Height(t.l.r) > Height(t.l.l) ==> t.l.r.Fork?
    ensures SameContents(t, RotateLeft(t)) && Valid(RotateLeft(t), a, b)
  {
    var t1 := t;
    if Height(t.l.r) > Height(t.l.l) {
      RaiseRightKeeps(t.l, a, t.k1);
      t1 := t.(l := RaiseRight(t.l));
    }
    RaiseLeftKeeps(t1, a, b);
  }

  /** `_itree_rebalance`. */
  method Rebalance(root: Node, ghost t: Tree, ghost a: int, ghost b: int)
    returns (root': Node, ghost t': Tree)
    requires Shape(root, t) && t.Fork? && Valid(t, a, b)
    requires Avl(t.l) && Avl(t.r) && Abs(Height(t.l) - Height(t.r)) <= 2
    modifies Nodes(t)`l, Nodes(t)`r, Nodes(t)`v, Nodes(t)`h
    ensures Shape(root', t') && SameContents(t, t') && Valid(t', a, b)
    ensures Abs(Height(t.l) - Height(t.r)) <= 1 ==> t' == t && root' == root
    ensures Abs(Height(t.l) - Height(t.r)) == 2 ==>
      Avl(t') && Height(t) - 1 <= Height(t') <= Height(t)
      && t'.Fork? && t'.l.Fork? && t'.r.Fork? && (t'.l.x == root || t'.r.x == root)
  {
    HeightExact(root.l, t.l);
    HeightExact(root.r, t.r);
    root', t' := root, t;
    var lh, rh := NodeHeight(root.l), NodeHeight(root.r);
    if Abs(lh - rh) < 2 {
      return;
    }
    if lh < rh {
      RotateRightRestores(t);
      RotateRightKeeps(t, a, b);
      root' := RebalanceRight(root, t, a, b);
      t' := RotateRight(t);
    } else {
      RotateLeftRestores(t);
      RotateLeftKeeps(t, a, b);
      root' := RebalanceLeft(root, t, a, b);
      t' := RotateLeft(t);
    }
  }

  /** The right-left case. */
  method RightLeft(root: Node, ghost t: Tree, ghost a: int, ghost b: int)
    requires t.Fork? && t.r.Fork? && t.r.l.Fork? && Shape(root, t) && Valid(t, a, b) && Avl(t.r)
    modifies Nodes(t)`l, Nodes(t)`r, Nodes(t)`v, Nodes(t)`h
    ensures Shape(root, t.(r := RaiseLeft(t.r))) && Valid(t.(r := RaiseLeft(t.r)), a, b)
    ensures Nodes(t.(r := RaiseLeft(t.r))) == Nodes(t)
  {
    Unfold(root, t);
    Allocated(t.l);
    RaiseLeftKeeps(t.r, t.k2, b);
    root.r := RaiseLeftChild(root.r, t.r);
    assert Shape(root.l, t.l);
  }

  /** The left-right case. */
  method LeftRight(root: Node, ghost t: Tree, ghost a: int, ghost b: int)
    requires t.Fork? && t.l.Fork? && t.l.r.Fork? && Shape(root, t) && Valid(t, a, b) && Avl(t.l)
    modifies Nodes(t)`l, Nodes(t)`r, Nodes(t)`v, Nodes(t)`h
    ensures Shape(root, t.(l := RaiseRight(t.l))) && Valid(t.(l := RaiseRight(t.l)), a, b)
    ensures Nodes(t.(l := RaiseRight(t.l))) == Nodes(t)
  {
    Unfold(root, t);
    Allocated(t.r);
    RaiseRightKeeps(t.l, a, t.k1);
    root.l := RaiseRightChild(root.l, t.l);
    assert Shape(root.r, t.r);
  }

  /** The right-left and right-right cases of `_itree_rebalance`. */
  method RebalanceRight(root: Node, ghost t: Tree, ghost a: int, ghost b: int) returns (root': Node)
    requires Shape(root, t) && t.Fork? && Valid(t, a, b)
    requires Avl(t.l) && Avl(t.r) && Height(t.r) == Height(t.l) + 2
    requires t.r.Fork? && (Height(t.r.l) > Height(t.r.r) ==> t.r.l.Fork?)
    requires Avl(RotateRight(t))
    modifies Nodes(t)`l, Nodes(t)`r, Nodes(t)`v, Nodes(t)`h
    ensures Shape(root', RotateRight(t))
  {
    ghost var t1 := t;
    HeightExact(root.r.l, t.r.l);
    HeightExact(root.r.r, t.r.r);
    if NodeHeight(root.r.l) > NodeHeight(root.r.r) {
      RightLeft(root, t, a, b);
      t1 := t.(r := RaiseLeft(t.r));
    }
    RaiseRightKeeps(t1, a, b);
    root' := RaiseRightChild(root, t1);
    SetHeight(root', RaiseRight(t1));
  }

  /** The left-right and left-left cases of `_itree_rebalance`. */
  method RebalanceLeft(root: Node, ghost t: Tree, ghost a: int, ghost b: int) returns (root': Node)
    requires Shape(root, t) && t.Fork? && Valid(t, a, b)
    requires Avl(t.l) && Avl(t.r) && Height(t.l) == Height(t.r) + 2
    requires t.l.Fork? && (Height(t.l.r) > Height(t.l.l) ==> t.l.r.Fork?)
    requires Avl(RotateLeft(t))
    modifies Nodes(t)`l, Nodes(t)`r, Nodes(t)`v, Nodes(t)`h
    ensures Shape(root', RotateLeft(t))
  {
    ghost var t1 := t;
    HeightExact(root.l.l, t.l.l);
    HeightExact(root.l.r, t.l.r);
    if NodeHeight(root.l.r) > NodeHeight(root.l.l) {
      LeftRight(root, t, a, b);
      t1 := t.(l := RaiseRight(t.l));
    }
    RaiseLeftKeeps(t1, a, b);
    root' := RaiseLeftChild(root, t1);
    SetHeight(root', RaiseLeft(t1));
  }
}
