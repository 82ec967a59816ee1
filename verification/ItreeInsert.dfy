/** `itree_insert`: one recursive descent that counts the larger indices, then adds a node,
    widens a node, or merges two nodes and unlinks one of them (block1-lru/src/itree.c).

    While the descent unwinds, the upper adjacent node `util->u` has already been widened by the
    innermost call, so every call between it and that node works on a tree that is not yet the
    final one.  `Result` says what a call has done to its own subtree. */
module ItreeInsert {
  import opened Itree
  import opened ItreeFacts
  import opened Seqs

  /** What `_itree_insert` expects of `util` in a subtree lying strictly between `a` and `b`:
      an ancestor ends at `a == index - 1`, or starts at `b == index + 1`, exactly when it has
      been recorded. */
  ghost predicate Seen(index: int, w: Util, t: Tree, a: int, b: int)
    reads w, w.u, w.l
  {
    (a != index - 1 && b != index + 1 ==> w.u == null && w.l == null) &&
    ((a == index - 1) != (b == index + 1) ==>
      w.u != null && w.l == null && w.u !in Nodes(t) &&
      if a == index - 1 then w.u.k2 == a else w.u.k1 == b) &&
    (a == index - 1 && b == index + 1 ==>
      w.u != null && w.l != null && w.u != w.l &&
      ((w.u.k2 == a && w.l.k1 == b) || (w.u.k1 == b && w.l.k2 == a)))
  }

  /** `s` is `t` without the node `x` and its interval [lo, hi]. */
  ghost predicate Removed(t: Tree, s: Tree, x: Node, lo: int, hi: int, a: int, b: int) {
    Valid(s, a, b) && x in Nodes(t) && Nodes(s) == Nodes(t) - {x} &&
    Idx(t) == Idx(s) + Range(lo, hi) && Sum(s) == Sum(t) - (hi - lo + 1)
  }

  /** The subtree left once `x`, if it is the root of `t`, is replaced by its only child, which is
      on the side away from the new index. */
  ghost function Cut(t: Tree, x: Node?, right: bool): Tree {
    if t.Fork? && t.x == x then (if right then t.r else t.l) else t
  }

  /** How the subtree `t` is left by an insertion, the absorbed node being `x` with interval
      [lo, hi].  The three cases: no neighbour above `t`, one neighbour above, two above. */
  ghost predicate Result(t: Tree, t': Tree, index: int, a: int, b: int, x: Node?, lo: int, hi: int) {
    if a != index - 1 && b != index + 1 then
      Valid(t', a, b) && t'.Fork? && Idx(t') == Idx(t) + {index} && Sum(t') == Sum(t) + 1 &&
      if x != null then x in Nodes(t) && Nodes(t') == Nodes(t) - {x} else Nodes(t) <= Nodes(t')
    else if a == index - 1 && b == index + 1 then
      t == t' == Leaf
    else if x == null then
      t' == t && if a == index - 1 then Between(t, index, b) else Between(t, a, index)
    else
      var right := a == index - 1;
      lo <= hi && (if right then lo == index + 1 else hi == index - 1) &&
      Removed(t, Cut(t', x, right), x, lo, hi, if right then hi else a, if right then b else lo) &&
      (t'.Fork? && t'.x == x ==> t' == t && t.k1 == lo && t.k2 == hi && if right then t.l.Leaf? else t.r.Leaf?)
  }

  /** The new interval of the upper node. */
  ghost predicate Widened(index: int, a: int, b: int, k1: int, k2: int, k1': int, k2': int,
                          x: Node?, lo: int, hi: int) {
    if a == index - 1 && (b != index + 1 || k2 == a) then
      k1' == k1 && k2' == if x == null then index else hi
    else
      k2' == k2 && k1' == if x == null then index else lo
  }

  function Lo(x: Node?): int
    reads x
  {
    if x == null then 0 else x.k1
  }

  function Hi(x: Node?): int
    reads x
  {
    if x == null then 0 else x.k2
  }

  /** `_itree_extend_node`. */
  method ExtendNode(index: int, node: Node)
    requires index == node.k1 - 1 || node.k2 + 1 == index
    requires node.k1 <= node.k2
    modifies node`k1, node`k2
    ensures node.k1 == (if index == old(node.k1) - 1 then index else old(node.k1))
    ensures node.k2 == (if index == old(node.k1) - 1 then old(node.k2) else index)
  {
    if index < node.k1 {
      node.k1 := index;
    } else {
      node.k2 := index;
    }
  }

  /** `_itree_merge_nodes`. */
  method MergeNodes(upper: Node, lower: Node)
    requires upper.k2 + 1 == lower.k1 - 1 || upper.k1 - 1 == lower.k2 + 1
    requires upper.k1 <= upper.k2 && lower.k1 <= lower.k2
    modifies upper`k1, upper`k2
    ensures upper.k1 == Min(old(upper.k1), lower.k1) && upper.k2 == Max(old(upper.k2), lower.k2)
  {
    if upper.k1 > lower.k2 {
      upper.k1 := lower.k1;
    } else {
      upper.k2 := lower.k2;
    }
  }

  /** The preconditions shared by `_itree_insert` and its two descents. */
  ghost predicate Ready(index: int, root: Node?, w: Util, t: Tree, a: int, b: int)
    reads Nodes(t), w, w.u, w.l
  {
    Shape(root, t) && WellFormed(t, a, b) && a < index < b && index !in Idx(t) && Seen(index, w, t, a, b) &&
    (w.u != null ==> w.u.k1 <= w.u.k2) && (w.l != null ==> w.l.k1 <= w.l.k2)
  }

  function UpperNode(w: Util): set<Node>
    reads w
  {
    if w.u == null then {} else {w.u}
  }

  lemma LeafFacts(a: int, b: int)
    ensures Valid(Leaf, a, b) && Idx(Leaf) == {} && Sum(Leaf) == 0 && Height(Leaf) == -1 && Nodes(Leaf) == {}
  {
  }

  /** Entry facts of a descent from `t`. */
  ghost predicate Descends(t: Tree, index: int, a: int, b: int) {
    t.Fork? && Valid(t, a, b) && a < index < b && a + 2 <= t.k1 <= t.k2 <= b - 2
  }

  /** A left descent from a node that no recorded neighbour lies above; `c` is the child the
      recursive call leaves. */
  lemma {:induction false} LeftPlain(t: Tree, c: Tree, index: int, a: int, b: int, x: Node?, lo: int, hi: int)
    requires Descends(t, index, a, b) && index < t.k1 - 1 && a != index - 1
    requires Result(t.l, c, index, a, t.k1, x, lo, hi)
    requires Nodes(c) !! Nodes(t) - Nodes(t.l)
    ensures Result(t, t.(l := c), index, a, b, x, lo, hi) && Cut(c, x, false) == c
  {
    assert Valid(t.l, a, t.k1) && Valid(t.r, t.k2, b);
    assert Valid(t.(l := c), a, b);
  }

  lemma RangeJoin(a: int, i: int, b: int)
    requires a <= i <= b
    ensures Range(a, b) == Range(a, i - 1) + {i} + Range(i + 1, b)
  {
  }

  /** A left descent from the upper neighbour itself. */
  lemma {:induction false} LeftUpper(t: Tree, c: Tree, index: int, a: int, b: int, x: Node?, lo: int, hi: int)
    requires Descends(t, index, a, b) && index == t.k1 - 1 && a != index - 1
    requires Result(t.l, c, index, a, t.k1, x, lo, hi)
    ensures Result(t, t.(l := Cut(c, x, false), k1 := if x == null then index else lo), index, a, b, x, lo, hi)
  {
    assert Valid(t.l, a, t.k1) && Valid(t.r, t.k2, b);
    var t1 := t.(l := Cut(c, x, false), k1 := if x == null then index else lo);
    assert Valid(t1.l, a, t1.k1);
    assert Valid(t1, a, b);
    if x != null {
      RangeJoin(lo, index, t.k2);
      hide Range;
      assert Idx(t1) == Idx(t) + {index};
    }
  }

  /** A left descent below the upper neighbour, towards the lower one. */
  lemma {:induction false} LeftBelow(t: Tree, c: Tree, index: int, a: int, b: int, x: Node?, lo: int, hi: int)
    requires Descends(t, index, a, b) && index < t.k1 - 1 && a == index - 1
    requires Result(t.l, c, index, a, t.k1, x, lo, hi)
    ensures Result(t, t.(l := Cut(c, x, true)), index, a, b, x, lo, hi)
  {
    assert Valid(t.l, a, t.k1) && Valid(t.r, t.k2, b);
    var t1 := t.(l := Cut(c, x, true));
    if x == null {
      assert Between(t, index, b);
    } else {
      assert t1.x != x;
      assert Valid(t1.l, hi, t.k1);
      assert Valid(t1, hi, b);
    }
  }

  /** A left descent from the lower neighbour. */
  lemma {:induction false} LeftLower(t: Tree, c: Tree, index: int, a: int, b: int)
    requires Descends(t, index, a, b) && index == t.k1 - 1 && a == index - 1
    requires Result(t.l, c, index, a, t.k1, t.x, t.k1, t.k2)
    ensures c == t.l && Result(t, t, index, a, b, t.x, t.k1, t.k2)
  {
    assert Valid(t.r, t.k2, b);
    LeafFacts(a, b);
  }

  ghost function Width(x: Node?, lo: int, hi: int): int {
    if x == null then 0 else hi - lo + 1
  }

  /** The four cases of a right descent; here the cached sum of the root changes as well. */
  lemma {:induction false} RightPlain(t: Tree, c: Tree, index: int, a: int, b: int, x: Node?, lo: int, hi: int)
    requires Descends(t, index, a, b) && t.k2 + 1 < index && b != index + 1
    requires Result(t.r, c, index, t.k2, b, x, lo, hi)
    requires Nodes(c) !! Nodes(t) - Nodes(t.r)
    ensures Result(t, t.(r := c, v := t.v + 1), index, a, b, x, lo, hi) && Cut(c, x, false) == c
  {
    assert Valid(t.l, a, t.k1) && Valid(t.r, t.k2, b);
    assert Valid(t.(r := c, v := t.v + 1), a, b);
  }

  lemma {:induction false} RightUpper(t: Tree, c: Tree, index: int, a: int, b: int, x: Node?, lo: int, hi: int)
    requires Descends(t, index, a, b) && t.k2 + 1 == index && b != index + 1
    requires Result(t.r, c, index, t.k2, b, x, lo, hi)
    ensures Result(t, t.(r := Cut(c, x, true), k2 := if x == null then index else hi, v := t.v - Width(x, lo, hi)),
                   index, a, b, x, lo, hi)
    ensures x != t.x
  {
    assert Valid(t.l, a, t.k1) && Valid(t.r, t.k2, b);
    var t1 := t.(r := Cut(c, x, true), k2 := if x == null then index else hi, v := t.v - Width(x, lo, hi));
    assert Valid(t1.r, t1.k2, b);
    assert Valid(t1, a, b);
    if x != null {
      RangeJoin(t.k1, index, hi);
      hide Range;
      assert Idx(t1) == Idx(t) + {index};
    }
  }

  lemma {:induction false} RightBelow(t: Tree, c: Tree, index: int, a: int, b: int, x: Node?, lo: int, hi: int)
    requires Descends(t, index, a, b) && t.k2 + 1 < index && b == index + 1
    requires Result(t.r, c, index, t.k2, b, x, lo, hi)
    ensures Result(t, t.(r := Cut(c, x, false), v := t.v - Width(x, lo, hi)), index, a, b, x, lo, hi)
    ensures x != t.x
  {
    assert Valid(t.l, a, t.k1) && Valid(t.r, t.k2, b);
    var t1 := t.(r := Cut(c, x, false), v := t.v - Width(x, lo, hi));
    if x == null {
      assert Between(t, a, index);
    } else {
      assert t1.x != x;
      assert Valid(t1.r, t.k2, lo);
      assert Valid(t1, a, lo);
    }
  }

  lemma {:induction false} RightLower(t: Tree, c: Tree, index: int, a: int, b: int)
    requires Descends(t, index, a, b) && t.k2 + 1 == index && b == index + 1
    requires Result(t.r, c, index, t.k2, b, t.x, t.k1, t.k2)
    ensures c == t.r && Result(t, t, index, a, b, t.x, t.k1, t.k2)
  {
    assert Valid(t.l, a, t.k1);
    LeafFacts(a, b);
  }

  /** The parts of a descent's result that rebalancing relies on. */
  ghost predicate NearlyBalanced(t: Tree, t1: Tree) {
    t.Fork? && t1.Fork? && t1.x == t.x && Avl(t1.l) && Avl(t1.r) &&
    Abs(Height(t1.l) - Height(t.l)) + Abs(Height(t1.r) - Height(t.r)) <= 1
  }

  /** The snapshot a left descent leaves before rebalancing. */
  ghost function AfterLeft(t: Tree, c: Tree, index: int, a: int, x: Node?, lo: int): Tree
    requires t.Fork?
  {
    t.(l := Cut(c, x, a == index - 1),
       k1 := if a == index - 1 || t.k1 != index + 1 then t.k1 else if x == null then index else lo)
  }

  lemma {:induction false} LeftResult(t: Tree, c: Tree, index: int, a: int, b: int, x: Node?, lo: int, hi: int)
    requires Descends(t, index, a, b) && index < t.k1
    requires Result(t.l, c, index, a, t.k1, x, lo, hi)
    requires Nodes(c) !! Nodes(t) - Nodes(t.l)
    requires a == index - 1 && t.k1 == index + 1 ==> x == t.x && lo == t.k1 && hi == t.k2
    requires var s := Cut(c, x, a == index - 1); Avl(t) && Avl(s) && Abs(Height(s) - Height(t.l)) <= 1
    ensures Result(t, AfterLeft(t, c, index, a, x, lo), index, a, b, x, lo, hi)
    ensures NearlyBalanced(t, AfterLeft(t, c, index, a, x, lo))
  {
    hide Result, Valid;
    if a == index - 1 {
      if t.k1 == index + 1 {
        LeftLower(t, c, index, a, b);
      } else {
        LeftBelow(t, c, index, a, b, x, lo, hi);
      }
    } else if t.k1 == index + 1 {
      LeftUpper(t, c, index, a, b, x, lo, hi);
    } else {
      LeftPlain(t, c, index, a, b, x, lo, hi);
    }
  }

  /** The end of the root interval after a right descent. */
  ghost function EndAfter(t: Tree, index: int, b: int, x: Node?, hi: int): int
    requires t.Fork?
  {
    if b == index + 1 || t.k2 != index - 1 then t.k2 else if x == null then index else hi
  }

  /** The cached sum after a right descent. */
  ghost function SumAfter(t: Tree, index: int, b: int, x: Node?, lo: int, hi: int): int
    requires t.Fork?
  {
    if b != index + 1 && t.k2 != index - 1 then t.v + 1
    else if x == t.x then t.v
    else t.v - Width(x, lo, hi)
  }

  /** The snapshot a right descent leaves before rebalancing. */
  ghost function AfterRight(t: Tree, c: Tree, index: int, b: int, x: Node?, lo: int, hi: int): Tree
    requires t.Fork?
  {
    t.(r := Cut(c, x, t.k2 == index - 1), k2 := EndAfter(t, index, b, x, hi), v := SumAfter(t, index, b, x, lo, hi))
  }

  lemma {:induction false} RightResult(t: Tree, c: Tree, index: int, a: int, b: int, x: Node?, lo: int, hi: int)
    requires Descends(t, index, a, b) && t.k2 < index
    requires Result(t.r, c, index, t.k2, b, x, lo, hi)
    requires Nodes(c) !! Nodes(t) - Nodes(t.r)
    requires b == index + 1 && t.k2 == index - 1 ==> x == t.x && lo == t.k1 && hi == t.k2
    requires var s := Cut(c, x, t.k2 == index - 1); Avl(t) && Avl(s) && Abs(Height(s) - Height(t.r)) <= 1
    ensures Result(t, AfterRight(t, c, index, b, x, lo, hi), index, a, b, x, lo, hi)
    ensures NearlyBalanced(t, AfterRight(t, c, index, b, x, lo, hi)) && Above(t, index) == Above(t.r, index)
  {
    hide Result, Valid;
    if b == index + 1 {
      if t.k2 == index - 1 {
        RightLower(t, c, index, a, b);
      } else {
        RightBelow(t, c, index, a, b, x, lo, hi);
      }
    } else if t.k2 == index - 1 {
      RightUpper(t, c, index, a, b, x, lo, hi);
    } else {
      RightPlain(t, c, index, a, b, x, lo, hi);
    }
  }

  /** The nodes of `t'` are nodes of `t` or newly allocated. */
  twostate predicate OnlyNew(t: Tree, new t': Tree) {
    forall n :: n in Nodes(t') ==> n in Nodes(t) || fresh(n)
  }

  /** What a call did to `util` and to the upper node it was given. */
  twostate predicate UtilDone(index: int, w: Util, a: int, b: int)
    reads w, w.u, w.l
  {
    (old(w.u) != null ==>
      w.u == old(w.u) &&
      Widened(index, a, b, old(w.u.k1), old(w.u.k2), w.u.k1, w.u.k2, w.l, Lo(w.l), Hi(w.l))) &&
    (old(w.l) != null ==> w.l == old(w.l) && w.l.k1 == old(w.l.k1) && w.l.k2 == old(w.l.k2))
  }

  lemma Facts(index: int, root: Node?, w: Util, t: Tree, a: int, b: int)
    requires Ready(index, root, w, t, a, b) && t.Fork?
    ensures Descends(t, index, a, b) && Valid(t, a, b) && Distinct(t) && Avl(t) && Shape(root, t)
    ensures Seen(index, w, t, a, b) && (w.u != null ==> w.u.k1 <= w.u.k2)
    ensures index < t.k1 || t.k2 < index
    ensures root == t.x && root.k1 == t.k1 && root.k2 == t.k2
  {
    assert forall i :: i in Range(t.k1, t.k2) ==> i in Idx(t);
  }

  /** The test at the start of `_itree_descend_l`: records `root` if it starts right after the
      new index. */
  method MarkLeft(index: int, root: Node, w: Util, ghost t: Tree, ghost a: int, ghost b: int)
    requires Ready(index, root, w, t, a, b) && t.Fork? && index < t.k1
    modifies w
    ensures Ready(index, root.l, w, t.l, a, t.k1) && Shape(root, t)
    ensures t.k1 != index + 1 ==> w.u == old(w.u) && w.l == old(w.l)
    ensures t.k1 == index + 1 && a != index - 1 ==> old(w.u) == null && w.u == root && w.l == null
    ensures t.k1 == index + 1 && a == index - 1 ==> w.u == old(w.u) && w.u != null && old(w.l) == null && w.l == root
    ensures (w.u == root || w.u !in Nodes(t)) && (w.u == root <==> a != index - 1 && t.k1 == index + 1)
  {
    Unfold(root, t);
    if root.k1 == index + 1 {
      if w.u == null {
        w.u := root;
      } else {
        w.l := root;
      }
    }
    assert Shape(root.l, t.l) && Shape(root.r, t.r);
  }

  lemma UnlinkSide(t: Tree, c: Tree, index: int, a: int, b: int, x: Node?, lo: int, hi: int)
    requires Result(t, c, index, a, b, x, lo, hi) && x != null && c.Fork? && c.x == x
    ensures (index == hi + 1) == (a != index - 1)
  {
  }

  lemma ShapeFork(n: Node, t: Tree)
    requires t.Fork? && Shape(n.l, t.l) && Shape(n.r, t.r)
    requires n == t.x && n.k1 == t.k1 && n.k2 == t.k2 && n.v == t.v && n.h == t.h
    ensures Shape(n, t)
  {
  }

  lemma CutNodes(c: Tree, x: Node?, right: bool)
    ensures Nodes(Cut(c, x, right)) <= Nodes(c)
  {
  }

  /** The recursive call of a left descent. */
  method RecurseLeft(index: int, root: Node, holes: int, w: Util, ghost t: Tree, ghost a: int)
    returns (holes': int, ghost c: Tree)
    requires t.Fork? && Shape(root, t) && Distinct(t)
    requires Ready(index, root.l, w, t.l, a, t.k1) && (w.u == root || w.u !in Nodes(t))
    requires w.u == root <==> a != index - 1 && t.k1 == index + 1
    modifies Nodes(t), w, UpperNode(w)`k1, UpperNode(w)`k2
    ensures Shape(root.l, c) && Shape(root.r, t.r) && root.v == t.v && root.h == t.h
    ensures root.k1 == AfterLeft(t, c, index, a, w.l, Lo(w.l)).k1 && root.k2 == t.k2
    ensures OnlyNew(t.l, c) && root !in Nodes(c) && Nodes(c) !! Nodes(t.r)
    ensures Result(t.l, c, index, a, t.k1, w.l, Lo(w.l), Hi(w.l))
    ensures var s := Cut(c, w.l, a == index - 1); Avl(s) && Abs(Height(s) - Height(t.l)) <= 1
    ensures holes' == holes + Above(t.l, index)
    ensures UtilDone(index, w, a, t.k1)
    decreases Size(t), 0
  {
    hide Ready, Result, Avl, Shape, Distinct, SumsExact, Height, Above;
    Unfold(root, t);
    Allocated(t);
    var child;
    child, holes', c := Insert(index, root.l, holes, w, t.l, a, t.k1);
    assert root !in Nodes(c);
    assert Shape(root.r, t.r);
    root.l := child;
  }

  /** The removal of the lower node, if it is the left child. */
  method UnlinkLeft(index: int, root: Node, w: Util, ghost t: Tree, ghost c: Tree, ghost a: int)
    requires t.Fork? && Shape(root.l, c) && Shape(root.r, t.r) && root !in Nodes(c) && root !in Nodes(t.r)
    requires Result(t.l, c, index, a, t.k1, w.l, Lo(w.l), Hi(w.l))
    modifies root`l
    ensures Shape(root.l, Cut(c, w.l, a == index - 1)) && Shape(root.r, t.r)
  {
    hide Result;
    assert Shape(root.r, t.r);
    if w.l != null && w.l == root.l {
      UnlinkSide(t.l, c, index, a, t.k1, w.l, Lo(w.l), Hi(w.l));
      var inLeftSubtree := index == w.l.k2 + 1;
      root.l := if inLeftSubtree then w.l.l else w.l.r;
      assert Shape(root.l, Cut(c, w.l, a == index - 1));
    }
  }

  /** `_itree_descend_l`. */
  method DescendL(index: int, root: Node, holes: int, w: Util, ghost t: Tree, ghost a: int, ghost b: int)
    returns (holes': int, ghost t1: Tree)
    requires Ready(index, root, w, t, a, b) && t.Fork? && index < t.k1
    modifies Nodes(t), w, UpperNode(w)`k1, UpperNode(w)`k2
    ensures Shape(root, t1)
    ensures OnlyNew(t, t1)
    ensures NearlyBalanced(t, t1)
    ensures Result(t, t1, index, a, b, w.l, Lo(w.l), Hi(w.l))
    ensures holes' == holes + Above(t, index)
    ensures UtilDone(index, w, a, b)
    decreases Size(t), 1
  {
    hide Result, Ready, WellFormed, Shape, Avl, SumsExact, Height, Idx, Cut, Between, Distinct, NearlyBalanced;
    Facts(index, root, w, t, a, b);
    Unfold(root, t);
    holes' := holes + (root.v + root.k2 - root.k1 + 1);
    MarkLeft(index, root, w, t, a, b);
    ghost var c;
    Allocated(t);
    holes', c := RecurseLeft(index, root, holes', w, t, a);
    UnlinkLeft(index, root, w, t, c, a);
    t1 := AfterLeft(t, c, index, a, w.l, Lo(w.l));
    CutNodes(c, w.l, a == index - 1);
    assert Nodes(t1) == Nodes(Cut(c, w.l, a == index - 1)) + {root} + Nodes(t.r);
    LeftResult(t, c, index, a, b, w.l, Lo(w.l), Hi(w.l));
    ShapeFork(root, t1);
  }

  /** The start of `_itree_descend_r`: records `root` if it ends right before the new index; if
      nothing has been recorded, the index is going to be a new one in the right subtree. */
  method MarkRight(index: int, root: Node, w: Util, ghost t: Tree, ghost a: int, ghost b: int)
    returns (belowMerge: bool, ghost t0: Tree)
    requires Ready(index, root, w, t, a, b) && t.Fork? && t.k2 < index
    modifies w, root`v
    ensures belowMerge == (w.u != null) && t0 == if belowMerge then t else t.(v := t.v + 1)
    ensures Ready(index, root.r, w, t.r, t.k2, b) && Shape(root, t0) && Distinct(t0) && Nodes(t0) == Nodes(t)
    ensures t.k2 != index - 1 ==> w.u == old(w.u) && w.l == old(w.l)
    ensures t.k2 == index - 1 && b != index + 1 ==> old(w.u) == null && w.u == root && w.l == null
    ensures t.k2 == index - 1 && b == index + 1 ==> w.u == old(w.u) && w.u != null && old(w.l) == null && w.l == root
    ensures (w.u == root || w.u !in Nodes(t)) && (w.u == root <==> b != index + 1 && t.k2 == index - 1)
  {
    Unfold(root, t);
    t0 := t;
    if root.k2 == index - 1 {
      if w.u == null {
        w.u := root;
      } else {
        w.l := root;
      }
    }
    assert Shape(root.l, t.l) && Shape(root.r, t.r);
    belowMerge := w.u != null;
    if w.u == null && w.u != root {
      root.v := root.v + 1;
      t0 := t.(v := t.v + 1);
      assert Shape(root.l, t.l) && Shape(root.r, t.r);
    }
  }

  /** The recursive call of a right descent. */
  method RecurseRight(index: int, root: Node, holes: int, w: Util, ghost t: Tree, ghost b: int)
    returns (holes': int, ghost c: Tree)
    requires t.Fork? && Shape(root, t) && Distinct(t)
    requires Ready(index, root.r, w, t.r, t.k2, b) && (w.u == root || w.u !in Nodes(t))
    requires w.u == root <==> b != index + 1 && t.k2 == index - 1
    modifies Nodes(t), w, UpperNode(w)`k1, UpperNode(w)`k2
    ensures Shape(root.r, c) && Shape(root.l, t.l) && root.v == t.v && root.h == t.h
    ensures root.k1 == t.k1 && root.k2 == EndAfter(t, index, b, w.l, Hi(w.l))
    ensures OnlyNew(t.r, c) && root !in Nodes(c) && Nodes(c) !! Nodes(t.l)
    ensures Result(t.r, c, index, t.k2, b, w.l, Lo(w.l), Hi(w.l))
    ensures var s := Cut(c, w.l, t.k2 == index - 1); Avl(s) && Abs(Height(s) - Height(t.r)) <= 1
    ensures holes' == holes + Above(t.r, index)
    ensures UtilDone(index, w, t.k2, b)
    decreases Size(t), 0
  {
    hide Ready, Result, Avl, Shape, Distinct, SumsExact, Height, Above;
    Unfold(root, t);
    Allocated(t);
    var child;
    child, holes', c := Insert(index, root.r, holes, w, t.r, t.k2, b);
    assert root !in Nodes(c);
    assert Shape(root.l, t.l);
    root.r := child;
  }

  /** The end of `_itree_descend_r`: the removal of the lower node, if it is the right child, and
      the adjustment of the cached sum. */
  method UnlinkRight(index: int, root: Node, w: Util, belowMerge: bool,
                     ghost t: Tree, ghost c: Tree, ghost a: int, ghost b: int)
    requires t.Fork? && root == t.x && Shape(root.r, c) && Shape(root.l, t.l)
    requires root !in Nodes(c) && root !in Nodes(t.l)
    requires Descends(t, index, a, b) && t.k2 < index && root !in Nodes(t.r)
    requires Result(t.r, c, index, t.k2, b, w.l, Lo(w.l), Hi(w.l))
    requires b == index + 1 && t.k2 == index - 1 ==> w.l == root
    requires belowMerge <==> b == index + 1 || t.k2 == index - 1
    requires root.v == if belowMerge then t.v else t.v + 1
    modifies root`r, root`v
    ensures Shape(root.r, Cut(c, w.l, t.k2 == index - 1)) && Shape(root.l, t.l)
    ensures root.v == SumAfter(t, index, b, w.l, Lo(w.l), Hi(w.l))
  {
    hide Result, Valid;
    assert Shape(root.l, t.l);
    if w.l != null && w.l == root.r {
      UnlinkSide(t.r, c, index, t.k2, b, w.l, Lo(w.l), Hi(w.l));
      var inLeftSubtree := index == w.l.k2 + 1;
      root.r := if inLeftSubtree then w.l.l else w.l.r;
      assert Shape(root.r, Cut(c, w.l, t.k2 == index - 1));
    }
    if w.l != null && w.l != root && belowMerge {
      root.v := root.v - (w.l.k2 - w.l.k1 + 1);
      assert Shape(root.l, t.l);
    }
  }

  /** `_itree_descend_r`. */
  method DescendR(index: int, root: Node, holes: int, w: Util, ghost t: Tree, ghost a: int, ghost b: int)
    returns (holes': int, ghost t1: Tree)
    requires Ready(index, root, w, t, a, b) && t.Fork? && t.k2 < index
    modifies Nodes(t), w, UpperNode(w)`k1, UpperNode(w)`k2
    ensures Shape(root, t1)
    ensures OnlyNew(t, t1)
    ensures NearlyBalanced(t, t1)
    ensures Result(t, t1, index, a, b, w.l, Lo(w.l), Hi(w.l))
    ensures holes' == holes + Above(t, index)
    ensures UtilDone(index, w, a, b)
    decreases Size(t), 1
  {
    hide Result, Ready, WellFormed, Shape, Avl, SumsExact, Height, Idx, Cut, Between, Distinct, NearlyBalanced;
    Facts(index, root, w, t, a, b);
    Unfold(root, t);
    var belowMerge;
    ghost var t0;
    belowMerge, t0 := MarkRight(index, root, w, t, a, b);
    Allocated(t);
    ghost var c;
    holes', c := RecurseRight(index, root, holes, w, t0, b);
    UnlinkRight(index, root, w, belowMerge, t, c, a, b);
    t1 := AfterRight(t, c, index, b, w.l, Lo(w.l), Hi(w.l));
    CutNodes(c, w.l, t.k2 == index - 1);
    assert Nodes(t1) == Nodes(t.l) + {root} + Nodes(Cut(c, w.l, t.k2 == index - 1));
    RightResult(t, c, index, a, b, w.l, Lo(w.l), Hi(w.l));
    ShapeFork(root, t1);
  }

  /** The bounds within which a descent leaves its subtree: those it was given, unless a node
      other than its root was absorbed. */
  ghost function LowAfter(t1: Tree, index: int, a: int, b: int, x: Node?, hi: int): int {
    if a == index - 1 && x != null && t1.Fork? && t1.x != x then hi else a
  }

  ghost function HighAfter(t1: Tree, index: int, a: int, b: int, x: Node?, lo: int): int {
    if a != index - 1 && b == index + 1 && x != null && t1.Fork? && t1.x != x then lo else b
  }

  lemma {:induction false} ResultValid(t: Tree, t1: Tree, index: int, a: int, b: int, x: Node?, lo: int, hi: int)
    requires Result(t, t1, index, a, b, x, lo, hi) && Valid(t, a, b) && t1.Fork?
    ensures Valid(t1, LowAfter(t1, index, a, b, x, hi), HighAfter(t1, index, a, b, x, lo))
    ensures Nodes(t1) <= Nodes(t) || (a != index - 1 && b != index + 1)
  {
  }

  /** `t'` is `t1` with balance restored: unchanged but for the root height, or rotated. */
  ghost predicate Restored(t1: Tree, t': Tree, a1: int, b1: int) {
    t1.Fork? && SameContents(t1, t') && Valid(t', a1, b1) && Avl(t') &&
    (if Abs(Height(t1.l) - Height(t1.r)) <= 1 then t' == FixHeight(t1) && Height(t') == Height(t1)
     else t'.Fork? && Height(t1) - 1 <= Height(t') <= Height(t1))
  }

  lemma NearlyDiffers(t: Tree, t1: Tree)
    requires NearlyBalanced(t, t1) && Avl(t)
    ensures t1.Fork? && Avl(t1.l) && Avl(t1.r) && Abs(Height(t1.l) - Height(t1.r)) <= 2
  {
    hide Height;
    AvlChildren(t);
  }

  lemma {:induction false} RestoredHeight(t: Tree, t1: Tree, t': Tree, a1: int, b1: int)
    requires NearlyBalanced(t, t1) && Avl(t) && Restored(t1, t', a1, b1)
    ensures Avl(t') && Abs(Height(t') - Height(t)) <= 1 && t'.Fork?
    ensures t1 == t ==> t' == t
  {
    hide Avl, Height, SameContents, Valid;
    AvlChildren(t);
    HeightFork(t1);
    if t1 == t {
      AvlHeight(t);
    }
  }

  lemma AvlHeight(t: Tree)
    requires Avl(t)
    ensures FixHeight(t) == t
  {
  }

  lemma RootCut(t: Tree, index: int, a: int, b: int, x: Node?, lo: int, hi: int)
    requires Result(t, t, index, a, b, x, lo, hi) && Avl(t) && t.Fork?
    ensures var s := Cut(t, x, a == index - 1); s == t || ((s == t.l || s == t.r) && Abs(Height(s) - Height(t)) <= 1)
  {
    AvlChildren(t);
  }

  /** Rebalancing does not change what an insertion has achieved. */
  lemma {:induction false} RestoredResult(t: Tree, t1: Tree, t': Tree, index: int, a: int, b: int,
                                          x: Node?, lo: int, hi: int)
    requires Result(t, t1, index, a, b, x, lo, hi) && NearlyBalanced(t, t1) && Avl(t) && Valid(t, a, b)
    requires Restored(t1, t', LowAfter(t1, index, a, b, x, hi), HighAfter(t1, index, a, b, x, lo))
    requires a < index < b
    ensures Result(t, t', index, a, b, x, lo, hi)
    ensures var s := Cut(t', x, a == index - 1); Avl(s) && Abs(Height(s) - Height(t)) <= 1
  {
    RestoredHeight(t, t1, t', LowAfter(t1, index, a, b, x, hi), HighAfter(t1, index, a, b, x, lo));
    if t1 == t {
      hide Result, Between, SumsExact, Distinct;
      RootCut(t, index, a, b, x, lo, hi);
      AvlChildren(t);
    } else {
      hide Avl, Height, SumsExact, Between, Distinct;
      assert x == null || x !in Nodes(t1);
      assert t'.x in Nodes(t');
      assert Cut(t', x, a == index - 1) == t' && Cut(t1, x, a == index - 1) == t1;
    }
  }

  /** Sets the height of `n`, which is the root of `t` or, after a rotation, one of the children
      of the new root. */
  method SetHeightWithin(top: Node, n: Node, ghost t: Tree)
    requires Shape(top, t) && Distinct(t) && t.Fork? && SubtreesAvl(t)
    requires n == t.x || (Avl(t) && t.l.Fork? && t.r.Fork? && (t.l.x == n || t.r.x == n))
    modifies n`h
    ensures Shape(top, if n == t.x then FixHeight(t) else t)
  {
    Unfold(top, t);
    Allocated(t);
    ghost var s := if n == t.x then t else if t.l.x == n then t.l else t.r;
    assert Shape(n, s) && Distinct(s) && SubtreesAvl(s);
    assert n == t.x || (n != top && if t.l.x == n then n !in Nodes(t.r) else n !in Nodes(t.l));
    SetHeight(n, s);
    if n != t.x {
      AvlHeight(s);
      assert Shape(if t.l.x == n then top.r else top.l, if t.l.x == n then t.r else t.l);
    }
  }

  /** The end of `_itree_insert`: rebalance, then set the height of the old root. */
  method Restore(droot: Node, ghost t1: Tree, ghost a1: int, ghost b1: int) returns (root': Node, ghost t': Tree)
    requires t1.Fork? && Shape(droot, t1) && Valid(t1, a1, b1)
    requires Avl(t1.l) && Avl(t1.r) && Abs(Height(t1.l) - Height(t1.r)) <= 2
    modifies Nodes(t1)`l, Nodes(t1)`r, Nodes(t1)`v, Nodes(t1)`h
    ensures Shape(root', t') && Restored(t1, t', a1, b1) && Nodes(t') == Nodes(t1)
  {
    root', t' := Rebalance(droot, t1, a1, b1);
    SetHeightWithin(root', droot, t');
    if droot == t'.x {
      t' := FixHeight(t');
    }
  }

  /** The bottom of the recursion: merge, extend, or a new node. */
  method InsertHere(index: int, w: Util, ghost a: int, ghost b: int) returns (root': Node?, ghost t': Tree)
    requires Ready(index, null, w, Leaf, a, b)
    modifies UpperNode(w)`k1, UpperNode(w)`k2
    ensures Shape(root', t') && Avl(t') && OnlyNew(Leaf, t')
    ensures Result(Leaf, t', index, a, b, w.l, Lo(w.l), Hi(w.l))
    ensures var s := Cut(t', w.l, a == index - 1); Avl(s) && Abs(Height(s) - Height(Leaf)) <= 1
    ensures UtilDone(index, w, a, b)
  {
    root', t' := null, Leaf;
    LeafFacts(index, b);
    LeafFacts(a, index);
    if w.l != null {
      MergeNodes(w.u, w.l);
    } else if w.u != null {
      ExtendNode(index, w.u);
    } else {
      root' := new Node(index);
      t' := Fork(Leaf, root', index, index, 0, 0, Leaf);
    }
  }

  /** The part of `_itree_insert` below its null tests: descend, rebalance, set the height. */
  method InsertBelow(index: int, root: Node, holes: int, w: Util, ghost t: Tree, ghost a: int, ghost b: int)
    returns (root': Node, holes': int, ghost t': Tree)
    requires Ready(index, root, w, t, a, b) && t.Fork?
    modifies Nodes(t), w, UpperNode(w)`k1, UpperNode(w)`k2
    ensures Shape(root', t') && Avl(t') && OnlyNew(t, t')
    ensures Result(t, t', index, a, b, w.l, Lo(w.l), Hi(w.l))
    ensures var s := Cut(t', w.l, a == index - 1); Avl(s) && Abs(Height(s) - Height(t)) <= 1
    ensures holes' == holes + Above(t, index)
    ensures UtilDone(index, w, a, b)
    decreases Size(t), 2
  {
    hide Result, Ready, Restored, Avl, Height, WellFormed, Valid, Shape, Idx, Between, SumsExact, NearlyBalanced;
    Facts(index, root, w, t, a, b);
    ghost var t1;
    if root.k1 > index {
      holes', t1 := DescendL(index, root, holes, w, t, a, b);
    } else if index > root.k2 {
      holes', t1 := DescendR(index, root, holes, w, t, a, b);
    } else {
      assert false;
    }
    NearlyDiffers(t, t1);
    ResultValid(t, t1, index, a, b, w.l, Lo(w.l), Hi(w.l));
    ghost var a1, b1 := LowAfter(t1, index, a, b, w.l, Hi(w.l)), HighAfter(t1, index, a, b, w.l, Lo(w.l));
    root', t' := Restore(root, t1, a1, b1);
    RestoredResult(t, t1, t', index, a, b, w.l, Lo(w.l), Hi(w.l));
  }

  /** `_itree_insert`. */
  method Insert(index: int, root: Node?, holes: int, w: Util, ghost t: Tree, ghost a: int, ghost b: int)
    returns (root': Node?, holes': int, ghost t': Tree)
    requires Ready(index, root, w, t, a, b)
    modifies Nodes(t), w, UpperNode(w)`k1, UpperNode(w)`k2
    ensures Shape(root', t') && Avl(t') && OnlyNew(t, t')
    ensures Result(t, t', index, a, b, w.l, Lo(w.l), Hi(w.l))
    ensures var s := Cut(t', w.l, a == index - 1); Avl(s) && Abs(Height(s) - Height(t)) <= 1
    ensures holes' == holes + Above(t, index)
    ensures UtilDone(index, w, a, b)
    decreases Size(t), 3
  {
    if root == null {
      assert t == Leaf;
      holes' := holes;
      root', t' := InsertHere(index, w, a, b);
    } else {
      root', holes', t' := InsertBelow(index, root, holes, w, t, a, b);
    }
  }

  lemma {:induction false} NodeCount(t: Tree)
    requires Distinct(t)
    ensures |Nodes(t)| == Size(t)
  {
    if t.Fork? {
      NodeCount(t.l);
      NodeCount(t.r);
      DisjointUnion(Nodes(t.l), {t.x}, Nodes(t.r));
    }
  }

  lemma {:induction false} WholeResult(t: Tree, t': Tree, index: int, x: Node?, lo: int, hi: int)
    requires Result(t, t', index, LOW, HIGH, x, lo, hi) && WellFormed(t, LOW, HIGH)
    requires 0 <= index < HIGH - 1 && index !in Idx(t)
    ensures Valid(t', LOW, HIGH) && Idx(t') == Idx(t) + {index}
    ensures Size(t') == Size(t) + 1 - Present(Idx(t), index - 1) - Present(Idx(t), index + 1)
    ensures Nodes(t) - Nodes(t') == if x == null then {} else {x}
    ensures x != null <==> index - 1 in Idx(t) && index + 1 in Idx(t)
  {
    SizeIsRuns(t, LOW, HIGH);
    SizeIsRuns(t', LOW, HIGH);
    StartsAfterInsert(Idx(t), index);
    NodeCount(t);
    NodeCount(t');
  }

  /** `itree_insert`.  `freed` is the absorbed node, which the C code frees. */
  method InsertIndex(index: int, root: Node?, ghost t: Tree)
    returns (root': Node?, holes: int, freed: Node?, ghost t': Tree)
    requires Shape(root, t) && WellFormed(t, LOW, HIGH)
    requires 0 <= index < 0x1_0000_0000_0000_0000 && index !in Idx(t)
    modifies Nodes(t)
    ensures Shape(root', t') && WellFormed(t', LOW, HIGH)
    ensures forall n :: n in Nodes(t') ==> n in Nodes(t) || fresh(n)
    ensures Idx(t') == Idx(t) + {index}
    ensures holes == |Larger(Idx(t), index)|
    ensures Size(t') == Size(t) + 1 - Present(Idx(t), index - 1) - Present(Idx(t), index + 1)
    ensures Nodes(t) - Nodes(t') == if freed == null then {} else {freed}
    ensures freed != null <==> index - 1 in Idx(t) && index + 1 in Idx(t)
  {
    hide Result, Between, Avl, SumsExact, Distinct, Idx, Larger, Nodes, Shape, Size, Above, Valid;
    Allocated(t);
    var w := new Util();
    root', holes, t' := Insert(index, root, 0, w, t, LOW, HIGH);
    freed := w.l;
    AboveIsCount(t, LOW, HIGH, index);
    WholeResult(t, t', index, w.l, Lo(w.l), Hi(w.l));
  }
}
