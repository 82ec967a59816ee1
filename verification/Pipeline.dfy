/** Broadcasts that relay blocks down a tree of ranks, and the clock that certifies them.

    The chain, the binary tree and the binomial tree run the same program on different trees: the
    root sends each block to its children in turn; another rank posts the receive of a block, sends
    the block before it to its children, and waits.  The chain does this with `MPI_Sendrecv`, the
    binary tree with `MPI_Irecv` and `MPI_Wait`, and the binomial tree has only one block. */
module Pipeline {
  import opened Mpi
  import opened Certificate
  import opened Rounds
  import opened Seqs

  /** `n` times `k`, as repeated addition. */
  function Times(n: nat, k: nat): nat {
    if k == 0 then 0 else Times(n, k - 1) + n
  }

  lemma {:induction false} TimesIsProduct(n: nat, k: nat)
    ensures Times(n, k) == n * k
  {
    if k > 0 {
      TimesIsProduct(n, k - 1);
    }
  }

  lemma {:induction false} TimesGrows(n: nat, j: nat, k: nat)
    requires j < k
    ensures Times(n, j) + n <= Times(n, k)
  {
    if j + 1 < k {
      TimesGrows(n, j, k - 1);
    }
  }

  /** The number of the block of size `n` that holds element `x`. */
  function Index(n: nat, x: nat): nat
    requires n > 0
  {
    if x < n then 0 else 1 + Index(n, x - n)
  }

  lemma {:induction false} IndexOf(n: nat, k: nat, x: nat)
    requires n > 0 && Times(n, k) <= x < Times(n, k) + n
    ensures Index(n, x) == k
  {
    if k > 0 {
      TimesShift(n, k - 1);
      IndexOf(n, k - 1, x - n);
    }
  }

  lemma TimesShift(n: nat, k: nat)
    ensures Times(n, k + 1) == Times(n, k) + n
  {
  }

  lemma {:induction false} IndexBounds(n: nat, x: nat)
    requires n > 0
    ensures Times(n, Index(n, x)) <= x < Times(n, Index(n, x)) + n
  {
    if x >= n {
      IndexBounds(n, x - n);
    }
  }

  /** The 0-based rank: how far `rank` is from the root, going round. */
  function Distance(size: nat, root: nat, rank: nat): nat
    requires root < size && rank < size
  {
    (rank + size - root) % size
  }

  /** The rank at a distance from the root. */
  function RankAt(size: nat, root: nat, x: nat): nat
    requires root < size
  {
    (root + x) % size
  }

  lemma ModOnce(x: nat, m: nat)
    requires m > 0 && x < 2 * m
    ensures x % m == if x < m then x else x - m
  {
  }

  lemma DistanceIs(size: nat, root: nat, rank: nat)
    requires root < size && rank < size
    ensures Distance(size, root, rank) == if rank >= root then rank - root else rank + size - root
    ensures RankAt(size, root, Distance(size, root, rank)) == rank
    ensures Distance(size, root, rank) < size && (Distance(size, root, rank) == 0 <==> rank == root)
  {
    ModOnce(rank + size - root, size);
    ModOnce(root + Distance(size, root, rank), size);
  }

  lemma RankAtIs(size: nat, root: nat, x: nat)
    requires root < size && x < size
    ensures RankAt(size, root, x) < size && Distance(size, root, RankAt(size, root, x)) == x
  {
    ModOnce(root + x, size);
    DistanceIs(size, root, RankAt(size, root, x));
  }

  /** How a buffer of `count` elements is cut into blocks; `base` is added to an offset to make a tag. */
  datatype Cut = Cut(count: nat, size: nat, blocks: nat, base: int)

  predicate WellCut(b: Cut) {
    b.size > 0 && b.count <= Times(b.size, b.blocks) && (b.blocks > 0 ==> Times(b.size, b.blocks - 1) <= b.count)
  }

  function Off(b: Cut, k: nat): nat {
    Times(b.size, k)
  }

  function Len(b: Cut, k: nat): nat {
    if Off(b, k) >= b.count then 0 else if b.count - Off(b, k) < b.size then b.count - Off(b, k) else b.size
  }

  /** The number of blocks a loop from 0 to `count` in steps of `size` visits. */
  function Blocks(count: nat, size: nat): nat
    requires size > 0
  {
    if count == 0 then 0 else Index(size, count - 1) + 1
  }

  lemma BlocksIs(count: nat, size: nat, k: nat)
    requires size > 0 && count <= Times(size, k) && (k > 0 ==> Times(size, k - 1) < count)
    ensures Blocks(count, size) == k
  {
    if k > 0 {
      IndexOf(size, k - 1, count - 1);
    }
  }

  /** The cut of the pipelined broadcasts: tags are offsets, and a rank that receives block 0 before
      its loop has a block even when the buffer is empty. */
  function CutOf(count: nat, size: nat, eager: bool): Cut
    requires size > 0
  {
    Cut(count, size, if eager && count == 0 then 1 else Blocks(count, size), 0)
  }

  lemma CutFields(count: nat, size: nat, eager: bool)
    requires size > 0
    ensures var b := CutOf(count, size, eager); b.count == count && b.size == size && b.base == 0
  {
  }

  lemma CutIsWell(count: nat, size: nat, eager: bool)
    requires size > 0
    ensures WellCut(CutOf(count, size, eager))
  {
    if count > 0 {
      IndexBounds(size, count - 1);
    }
  }

  /** A loop over offsets stands at `i` after `k` blocks, none of them past the end but the first. */
  predicate Visits(b: Cut, i: nat, k: nat) {
    b.size > 0 && i == Off(b, k) && (k > 1 ==> Off(b, k - 1) < b.count)
  }

  lemma FirstVisit(b: Cut)
    requires b.size > 0
    ensures Visits(b, 0, 0) && Visits(b, b.size, 1) && Off(b, 0) == 0 && Len(b, 0) == Min(b.size, b.count)
  {
    TimesShift(b.size, 0);
  }

  lemma NextVisit(b: Cut, i: nat, k: nat)
    requires Visits(b, i, k) && i < b.count
    ensures Visits(b, i + b.size, k + 1) && i == Off(b, k) && Min(b.size, b.count - i) == Len(b, k)
  {
    TimesShift(b.size, k);
  }

  /** At the end of the loop every block has been visited. */
  lemma LastVisit(count: nat, size: nat, eager: bool, i: nat, k: nat)
    requires size > 0 && Visits(CutOf(count, size, eager), i, k) && count <= i
    requires if eager then k > 0 else k > 0 ==> count > 0
    ensures k == CutOf(count, size, eager).blocks
  {
    if count > 0 {
      BlocksIs(count, size, k);
    }
  }

  /** A tree of ranks.  Block 0 reaches rank `r` in round `arrive[r]` and each later block `stride`
      rounds after the one before. */
  datatype Shape = Shape(root: nat, parent: seq<nat>, kids: seq<seq<nat>>, arrive: seq<int>, stride: nat)

  predicate Ranks(sh: Shape, r: nat) {
    r < |sh.arrive| == |sh.kids| == |sh.parent|
  }

  predicate KidsInTurn(sh: Shape, r: nat)
    requires Ranks(sh, r)
  {
    (forall j: nat | j < |sh.kids[r]| ::
      var c := sh.kids[r][j];
      Ranks(sh, c) && c != sh.root && sh.parent[c] == r && sh.arrive[r] < sh.arrive[c] <= sh.arrive[r] + sh.stride) &&
    forall i: nat, j: nat | i < j < |sh.kids[r]| :: sh.arrive[sh.kids[r][i]] < sh.arrive[sh.kids[r][j]]
  }

  /** Every rank but the root is a child of its parent; children are served one round after another. */
  ghost predicate Tree(sh: Shape) {
    Ranks(sh, sh.root) && sh.stride > 0 &&
    (forall r: nat | Ranks(sh, r) :: KidsInTurn(sh, r)) &&
    forall r: nat | Ranks(sh, r) && r != sh.root ::
      sh.arrive[r] >= 0 && Ranks(sh, sh.parent[r]) && r in sh.kids[sh.parent[r]]
  }

  // ----------------------------------------------------------------- programs

  function SendOp(b: Cut, k: nat, c: nat): Op {
    Send(Off(b, k), Len(b, k), c, b.base + Off(b, k))
  }

  function PostOp(sh: Shape, b: Cut, r: nat, k: nat): Op
    requires Ranks(sh, r)
  {
    Post(Off(b, k), Len(b, k), sh.parent[r], b.base + Off(b, k))
  }

  function WaitOp(sh: Shape, b: Cut, r: nat, k: nat): Op
    requires Ranks(sh, r)
  {
    Wait(sh.parent[r], b.base + Off(b, k))
  }

  function SendAll(b: Cut, k: nat, kids: seq<nat>): seq<Op> {
    seq(|kids|, j requires 0 <= j < |kids| => SendOp(b, k, kids[j]))
  }

  /** The sends that forward the block before block `k`. */
  function Forward(sh: Shape, b: Cut, r: nat, k: nat): seq<Op>
    requires Ranks(sh, r)
  {
    if k == 0 then [] else SendAll(b, k - 1, sh.kids[r])
  }

  /** What rank `r` does for the first `k` blocks. */
  function Relay(sh: Shape, b: Cut, r: nat, k: nat): seq<Op>
    requires Ranks(sh, r)
  {
    if k == 0 then [] else Relay(sh, b, r, k - 1) + Turn(sh, b, r, k - 1)
  }

  function Turn(sh: Shape, b: Cut, r: nat, k: nat): seq<Op>
    requires Ranks(sh, r)
  {
    if r == sh.root then SendAll(b, k, sh.kids[r])
    else [PostOp(sh, b, r, k)] + Forward(sh, b, r, k) + [WaitOp(sh, b, r, k)]
  }

  function Program(sh: Shape, b: Cut, r: nat): seq<Op>
    requires Ranks(sh, r)
  {
    Relay(sh, b, r, b.blocks) + if r == sh.root then [] else Forward(sh, b, r, b.blocks)
  }

  ghost function PlanOf(sh: Shape, b: Cut, data: seq<int>): Plan
    requires Tree(sh)
  {
    Plan(seq(|sh.arrive|, r requires 0 <= r < |sh.arrive| => Program(sh, b, r)), sh.root, data)
  }

  /** With one child, the turn of a rank that is not the root is what `MPI_Sendrecv` does. */
  lemma OneKidTurn(sh: Shape, b: Cut, r: nat, k: nat, c: nat)
    requires Ranks(sh, r) && r != sh.root && k > 0 && sh.kids[r] == [c]
    ensures Turn(sh, b, r, k) == [PostOp(sh, b, r, k), SendOp(b, k - 1, c), WaitOp(sh, b, r, k)]
  {
    assert Forward(sh, b, r, k) == [SendOp(b, k - 1, c)];
  }

  lemma NextTurn(sh: Shape, b: Cut, r: nat, k: nat)
    requires Ranks(sh, r) && r != sh.root && k > 0
    ensures Relay(sh, b, r, k + 1) ==
      Relay(sh, b, r, k) + ([PostOp(sh, b, r, k)] + SendAll(b, k - 1, sh.kids[r]) + [WaitOp(sh, b, r, k)])
  {
  }

  lemma ForwardIs(sh: Shape, b: Cut, r: nat, k: nat)
    requires Ranks(sh, r) && k > 0
    ensures Forward(sh, b, r, k) == SendAll(b, k - 1, sh.kids[r])
  {
  }

  lemma NoTurns(sh: Shape, b: Cut, r: nat)
    requires Ranks(sh, r)
    ensures Relay(sh, b, r, 0) == LowerAll([])
  {
  }

  // -------------------------------------------------------------- membership

  /** Operation `op` of rank `r` is about block `k`. */
  predicate At(sh: Shape, b: Cut, r: nat, op: Op, k: nat)
    requires Ranks(sh, r)
  {
    match op
    case Post(_, _, _, _) => r != sh.root && op == PostOp(sh, b, r, k)
    case Wait(_, _) => r != sh.root && op == WaitOp(sh, b, r, k)
    case Send(_, _, c, _) => c in sh.kids[r] && op == SendOp(b, k, c)
  }

  lemma SendAllHas(b: Cut, k: nat, kids: seq<nat>, op: Op)
    ensures op in SendAll(b, k, kids) <==> op.Send? && op.dst in kids && op == SendOp(b, k, op.dst)
  {
    if op in SendAll(b, k, kids) {
      var j: nat :| j < |kids| && SendAll(b, k, kids)[j] == op;
    }
    if op.Send? && op.dst in kids && op == SendOp(b, k, op.dst) {
      var j: nat :| j < |kids| && kids[j] == op.dst;
      assert SendAll(b, k, kids)[j] == op;
    }
  }

  lemma ForwardHas(sh: Shape, b: Cut, r: nat, k: nat, op: Op)
    requires Ranks(sh, r)
    ensures op in SendAll(b, k, sh.kids[r]) <==> op.Send? && At(sh, b, r, op, k)
  {
    SendAllHas(b, k, sh.kids[r], op);
  }

  lemma TurnHas(sh: Shape, b: Cut, r: nat, k: nat, op: Op)
    requires Ranks(sh, r)
    ensures op in Turn(sh, b, r, k) <==>
      if op.Send? && r != sh.root then k > 0 && At(sh, b, r, op, k - 1) else At(sh, b, r, op, k)
  {
    ForwardHas(sh, b, r, k, op);
    if k > 0 {
      ForwardHas(sh, b, r, k - 1, op);
    }
  }

  lemma {:induction false} RelayHas(sh: Shape, b: Cut, r: nat, k: nat, op: Op)
    requires Ranks(sh, r)
    ensures op in Relay(sh, b, r, k) <==>
      exists i: nat :: i < k && At(sh, b, r, op, i) && (op.Send? && r != sh.root ==> i + 1 < k)
  {
    hide At, Turn;
    if k > 0 {
      RelayHas(sh, b, r, k - 1, op);
      TurnHas(sh, b, r, k - 1, op);
    }
  }

  lemma ProgramHas(sh: Shape, b: Cut, r: nat, op: Op)
    requires Ranks(sh, r)
    ensures op in Program(sh, b, r) <==> exists k: nat :: k < b.blocks && At(sh, b, r, op, k)
  {
    hide At, Relay;
    RelayHas(sh, b, r, b.blocks, op);
    if r != sh.root && b.blocks > 0 {
      var last := b.blocks - 1;
      ForwardHas(sh, b, r, last, op);
      if k: nat :| k < b.blocks && At(sh, b, r, op, k) {
        assert k == last || k + 1 < b.blocks;
      }
    }
  }

  // -------------------------------------------------------------------- clock

  /** The round in which block `k` reaches rank `r`, counted from 0. */
  function Round(sh: Shape, r: nat, k: nat): int
    requires Ranks(sh, r)
  {
    sh.arrive[r] + Times(sh.stride, k)
  }

  /** The time of an operation of rank `r` about block `k`: a send happens in the round in which its
      block arrives, after the receive is posted and before it is waited for. */
  function TimeAt(sh: Shape, r: nat, op: Op, k: nat): int
    requires Ranks(sh, r) && (op.Send? ==> Ranks(sh, op.dst))
  {
    match op
    case Post(_, _, _, _) => 3 * (Round(sh, r, k) + 1 - sh.stride)
    case Send(_, _, c, _) => 3 * Round(sh, c, k) + 1
    case Wait(_, _) => 3 * Round(sh, r, k) + 2
  }

  /** The offset of the block an operation is about. */
  function Offset(b: Cut, op: Op): int {
    if op.Wait? then op.tag - b.base else op.off
  }

  function Time(sh: Shape, b: Cut, r: nat, op: Op): int {
    if b.size > 0 && Ranks(sh, r) && (op.Send? ==> Ranks(sh, op.dst)) && Offset(b, op) >= 0
    then TimeAt(sh, r, op, Index(b.size, Offset(b, op)))
    else 0
  }

  lemma TimeIs(sh: Shape, b: Cut, r: nat, op: Op, k: nat)
    requires b.size > 0 && Tree(sh) && Ranks(sh, r) && At(sh, b, r, op, k)
    ensures op.Send? ==> Ranks(sh, op.dst)
    ensures Time(sh, b, r, op) == TimeAt(sh, r, op, k)
  {
    IndexOf(b.size, k, Off(b, k));
  }

  // ---------------------------------------------------------- order of a program

  /** The operations have increasing times from `lo` to below `hi`. */
  ghost predicate Ascending(sh: Shape, b: Cut, r: nat, ops: seq<Op>, lo: int, hi: int) {
    (forall i: nat | i < |ops| :: lo <= Time(sh, b, r, ops[i]) < hi) &&
    forall i: nat, j: nat | i < j < |ops| :: Time(sh, b, r, ops[i]) < Time(sh, b, r, ops[j])
  }

  lemma AscendingConcat(sh: Shape, b: Cut, r: nat, xs: seq<Op>, ys: seq<Op>, lo: int, mid: int, hi: int)
    requires Ascending(sh, b, r, xs, lo, mid) && Ascending(sh, b, r, ys, mid, hi) && lo <= mid <= hi
    ensures Ascending(sh, b, r, xs + ys, lo, hi)
  {
    hide Time;
    var zs := xs + ys;
    forall i: nat, j: nat | i < j < |zs|
      ensures Time(sh, b, r, zs[i]) < Time(sh, b, r, zs[j])
    {
      if i < |xs| <= j {
        assert Time(sh, b, r, zs[i]) < mid <= Time(sh, b, r, zs[j]);
      }
    }
  }

  lemma SendAllAscends(sh: Shape, b: Cut, r: nat, k: nat)
    requires b.size > 0 && Tree(sh) && Ranks(sh, r)
    ensures Ascending(sh, b, r, SendAll(b, k, sh.kids[r]),
                      3 * (Round(sh, r, k) + 1) + 1, 3 * (Round(sh, r, k) + sh.stride) + 2)
  {
    hide Time;
    var kids := sh.kids[r];
    forall j: nat | j < |kids|
      ensures Time(sh, b, r, SendOp(b, k, kids[j])) == 3 * Round(sh, kids[j], k) + 1
    {
      TimeIs(sh, b, r, SendOp(b, k, kids[j]), k);
    }
    assert KidsInTurn(sh, r);
  }

  lemma NoneAscends(sh: Shape, b: Cut, r: nat, lo: int, hi: int)
    ensures Ascending(sh, b, r, [], lo, hi)
  {
  }

  lemma OneAscends(sh: Shape, b: Cut, r: nat, op: Op, k: nat)
    requires b.size > 0 && Tree(sh) && Ranks(sh, r) && At(sh, b, r, op, k)
    ensures op.Send? ==> Ranks(sh, op.dst)
    ensures Ascending(sh, b, r, [op], TimeAt(sh, r, op, k), TimeAt(sh, r, op, k) + 1)
  {
    hide Time;
    TimeIs(sh, b, r, op, k);
  }

  lemma ForwardAscends(sh: Shape, b: Cut, r: nat, k: nat)
    requires b.size > 0 && Tree(sh) && Ranks(sh, r)
    ensures Ascending(sh, b, r, Forward(sh, b, r, k),
                      3 * (Round(sh, r, k) + 1 - sh.stride) + 1, 3 * Round(sh, r, k) + 2)
  {
    hide Time, Ascending;
    if k > 0 {
      SendAllAscends(sh, b, r, k - 1);
      assert Round(sh, r, k) == Round(sh, r, k - 1) + sh.stride;
    } else {
      NoneAscends(sh, b, r, 3 * (Round(sh, r, k) + 1 - sh.stride) + 1, 3 * Round(sh, r, k) + 2);
    }
  }

  lemma TurnAscends(sh: Shape, b: Cut, r: nat, k: nat)
    requires b.size > 0 && Tree(sh) && Ranks(sh, r) && r != sh.root
    ensures Ascending(sh, b, r, Turn(sh, b, r, k), 3 * (Round(sh, r, k) + 1 - sh.stride), 3 * (Round(sh, r, k) + 1))
  {
    hide Time, Ascending, Round, Tree, Forward;
    var post, wait := PostOp(sh, b, r, k), WaitOp(sh, b, r, k);
    OneAscends(sh, b, r, post, k);
    OneAscends(sh, b, r, wait, k);
    ForwardAscends(sh, b, r, k);
    var lo, t := TimeAt(sh, r, post, k), TimeAt(sh, r, wait, k);
    Positive(sh);
    AscendingConcat(sh, b, r, [post], Forward(sh, b, r, k), lo, lo + 1, t);
    AscendingConcat(sh, b, r, [post] + Forward(sh, b, r, k), [wait], lo, t, t + 1);
  }

  lemma Positive(sh: Shape)
    requires Tree(sh)
    ensures sh.stride > 0
  {
  }

  lemma RootTurnAscends(sh: Shape, b: Cut, k: nat)
    requires b.size > 0 && Tree(sh)
    ensures Ascending(sh, b, sh.root, Turn(sh, b, sh.root, k),
                      3 * (Round(sh, sh.root, k) + 1), 3 * (Round(sh, sh.root, k) + sh.stride + 1))
  {
    hide Time;
    SendAllAscends(sh, b, sh.root, k);
  }

  lemma {:induction false} RelayAscends(sh: Shape, b: Cut, r: nat, k: nat, d: nat)
    requires b.size > 0 && Tree(sh) && Ranks(sh, r) && d == if r == sh.root then 0 else sh.stride
    ensures Ascending(sh, b, r, Relay(sh, b, r, k), 3 * (sh.arrive[r] + 1 - d), 3 * (Round(sh, r, k) + 1 - d))
  {
    hide Time, Ascending, Turn, Tree;
    var lo, hi := 3 * (sh.arrive[r] + 1 - d), 3 * (Round(sh, r, k) + 1 - d);
    if k == 0 {
      NoneAscends(sh, b, r, lo, hi);
    } else {
      var mid := 3 * (Round(sh, r, k - 1) + 1 - d);
      RelayAscends(sh, b, r, k - 1, d);
      assert Round(sh, r, k) == Round(sh, r, k - 1) + sh.stride;
      if r == sh.root {
        RootTurnAscends(sh, b, k - 1);
      } else {
        TurnAscends(sh, b, r, k - 1);
      }
      AscendingConcat(sh, b, r, Relay(sh, b, r, k - 1), Turn(sh, b, r, k - 1), lo, mid, hi);
    }
  }

  lemma ProgramAscends(sh: Shape, b: Cut, r: nat)
    requires b.size > 0 && Tree(sh) && Ranks(sh, r)
    ensures exists lo: int, hi: int :: Ascending(sh, b, r, Program(sh, b, r), lo, hi)
  {
    hide Time, Ascending, Tree, Forward;
    var n := b.blocks;
    var d := if r == sh.root then 0 else sh.stride;
    RelayAscends(sh, b, r, n, d);
    var lo, mid, hi := 3 * (sh.arrive[r] + 1 - d), 3 * (Round(sh, r, n) + 1 - d), 3 * (Round(sh, r, n) + 1);
    TimesPositive(sh.stride, n);
    if r == sh.root {
      NoneAscends(sh, b, r, mid, hi);
      AscendingConcat(sh, b, r, Relay(sh, b, r, n), [], lo, mid, hi);
    } else {
      ForwardAscends(sh, b, r, n);
      Widen(sh, b, r, Forward(sh, b, r, n), mid + 1, hi - 1, mid, hi);
      AscendingConcat(sh, b, r, Relay(sh, b, r, n), Forward(sh, b, r, n), lo, mid, hi);
    }
    assert Ascending(sh, b, r, Program(sh, b, r), lo, hi);
  }

  lemma TimesPositive(n: nat, k: nat)
    ensures Times(n, k) >= 0
  {
  }

  lemma Widen(sh: Shape, b: Cut, r: nat, ops: seq<Op>, lo: int, hi: int, lo': int, hi': int)
    requires Ascending(sh, b, r, ops, lo, hi) && lo' <= lo && hi <= hi'
    ensures Ascending(sh, b, r, ops, lo', hi')
  {
    hide Time;
  }

  // -------------------------------------------------------------- certificate

  function ClockOf(sh: Shape, b: Cut): Clock {
    (r: nat, op: Op) => Time(sh, b, r, op)
  }

  ghost predicate Emits(sh: Shape, b: Cut, r: nat, op: Op)
    requires Ranks(sh, r)
  {
    exists k: nat :: k < b.blocks && At(sh, b, r, op, k)
  }

  lemma PlanHas(sh: Shape, b: Cut, data: seq<int>, r: nat, op: Op)
    requires Tree(sh)
    ensures Has(PlanOf(sh, b, data), r, op) <==> Ranks(sh, r) && Emits(sh, b, r, op)
  {
    if Ranks(sh, r) {
      ProgramHas(sh, b, r, op);
    }
  }

  lemma BlockAt(sh: Shape, b: Cut, data: seq<int>, r: nat, op: Op) returns (k: nat)
    requires Tree(sh) && Has(PlanOf(sh, b, data), r, op)
    ensures Ranks(sh, r) && k < b.blocks && At(sh, b, r, op, k)
  {
    PlanHas(sh, b, data, r, op);
    k :| k < b.blocks && At(sh, b, r, op, k);
  }

  lemma HasAt(sh: Shape, b: Cut, data: seq<int>, r: nat, op: Op, k: nat)
    requires Tree(sh) && Ranks(sh, r) && k < b.blocks && At(sh, b, r, op, k)
    ensures Has(PlanOf(sh, b, data), r, op)
  {
    PlanHas(sh, b, data, r, op);
  }

  lemma PlanSizes(sh: Shape, b: Cut, data: seq<int>, r: nat)
    requires Tree(sh)
    ensures r < |PlanOf(sh, b, data).prog| <==> Ranks(sh, r)
  {
  }

  lemma PlanOrdered(sh: Shape, b: Cut, data: seq<int>)
    requires b.size > 0 && Tree(sh)
    ensures Ordered(PlanOf(sh, b, data), ClockOf(sh, b))
  {
    hide Time, Program;
    var p := PlanOf(sh, b, data);
    forall r: nat, i: nat, j: nat | r < |p.prog| && i < j < |p.prog[r]|
      ensures Time(sh, b, r, p.prog[r][i]) < Time(sh, b, r, p.prog[r][j])
    {
      ProgramAscends(sh, b, r);
    }
  }

  /** Blocks lie within the buffer, and every element is in one. */
  lemma BlockFits(b: Cut, k: nat)
    requires WellCut(b) && k < b.blocks
    ensures Off(b, k) + Len(b, k) <= b.count && Len(b, k) <= b.size
  {
    if k < b.blocks - 1 {
      TimesGrows(b.size, k, b.blocks - 1);
    }
  }

  lemma BlockOf(b: Cut, x: nat) returns (k: nat)
    requires WellCut(b) && x < b.count
    ensures k < b.blocks && Off(b, k) <= x < Off(b, k) + Len(b, k)
  {
    k := Index(b.size, x);
    IndexBounds(b.size, x);
    if b.blocks < k {
      TimesGrows(b.size, b.blocks, k);
    }
  }

  lemma SendMeets(sh: Shape, b: Cut, data: seq<int>, s: nat, op: Op)
    requires WellCut(b) && |data| == b.count && Tree(sh) && Has(PlanOf(sh, b, data), s, op) && op.Send?
    ensures var p, T := PlanOf(sh, b, data), ClockOf(sh, b);
      op.dst < |p.prog| && op.dst != s && op.off + op.len <= |data| &&
      Has(p, op.dst, PostFor(s, op)) && Has(p, op.dst, WaitFor(s, op)) &&
      T(op.dst, PostFor(s, op)) < T(s, op) < T(op.dst, WaitFor(s, op))
  {
    hide Time, PlanOf, Has, WellCut, Times;
    var k := BlockAt(sh, b, data, s, op);
    BlockFits(b, k);
    Cuts(b);
    assert KidsInTurn(sh, s);
    var c := op.dst;
    PlanSizes(sh, b, data, c);
    HasAt(sh, b, data, c, PostFor(s, op), k);
    HasAt(sh, b, data, c, WaitFor(s, op), k);
    TimeIs(sh, b, s, op, k);
    TimeIs(sh, b, c, PostFor(s, op), k);
    TimeIs(sh, b, c, WaitFor(s, op), k);
  }

  lemma Cuts(b: Cut)
    requires WellCut(b)
    ensures b.size > 0
  {
  }

  lemma PostMeets(sh: Shape, b: Cut, data: seq<int>, d: nat, q: Op)
    requires Tree(sh) && Has(PlanOf(sh, b, data), d, q) && q.Post?
    ensures var p := PlanOf(sh, b, data);
      d != sh.root && Has(p, q.src, Send(q.off, q.len, d, q.tag)) && Has(p, d, Wait(q.src, q.tag))
  {
    hide PlanOf, Has, Times;
    var k := BlockAt(sh, b, data, d, q);
    HasAt(sh, b, data, q.src, Send(q.off, q.len, d, q.tag), k);
    HasAt(sh, b, data, d, Wait(q.src, q.tag), k);
  }

  lemma WaitMeets(sh: Shape, b: Cut, data: seq<int>, d: nat, w: Op)
    requires Tree(sh) && Has(PlanOf(sh, b, data), d, w) && w.Wait?
    ensures Expects(PlanOf(sh, b, data), d, w.src, w.tag)
  {
    hide PlanOf, Has, Times, Tree;
    var k := BlockAt(sh, b, data, d, w);
    var q := PostOp(sh, b, d, k);
    HasAt(sh, b, data, d, q, k);
  }

  lemma SameOffset(n: nat, j: nat, k: nat)
    requires n > 0 && Times(n, j) == Times(n, k)
    ensures j == k
  {
    IndexOf(n, j, Times(n, j));
    IndexOf(n, k, Times(n, k));
  }

  lemma PostUnique(sh: Shape, b: Cut, data: seq<int>, d: nat, q: Op, q': Op)
    requires b.size > 0 && Tree(sh) && Has(PlanOf(sh, b, data), d, q) && Has(PlanOf(sh, b, data), d, q')
    requires q.Post? && q'.Post? && q.tag == q'.tag
    ensures q == q'
  {
    hide PlanOf, Has, Times, Tree;
    var j := BlockAt(sh, b, data, d, q);
    var k := BlockAt(sh, b, data, d, q');
    SameOffset(b.size, j, k);
  }

  /** At one rank, the receive of a block is waited for before the block is sent. */
  lemma WaitBeforeSend(sh: Shape, b: Cut, s: nat, op: Op, k: nat)
    requires b.size > 0 && Tree(sh) && Ranks(sh, s) && s != sh.root && op.Send? && At(sh, b, s, op, k)
    ensures Time(sh, b, s, WaitOp(sh, b, s, k)) < Time(sh, b, s, op)
  {
    hide Time, Times;
    assert KidsInTurn(sh, s);
    TimeIs(sh, b, s, op, k);
    TimeIs(sh, b, s, WaitOp(sh, b, s, k), k);
  }

  lemma SendHeld(sh: Shape, b: Cut, data: seq<int>, s: nat, op: Op)
    requires b.size > 0 && Tree(sh) && Has(PlanOf(sh, b, data), s, op) && op.Send? && s != sh.root
    ensures exists src: nat, tag: int ::
      Has(PlanOf(sh, b, data), s, Post(op.off, op.len, src, tag)) &&
      ClockOf(sh, b)(s, Wait(src, tag)) < ClockOf(sh, b)(s, op)
  {
    hide Time, PlanOf, Has, Times, Tree;
    var k := BlockAt(sh, b, data, s, op);
    var q := PostOp(sh, b, s, k);
    HasAt(sh, b, data, s, q, k);
    WaitBeforeSend(sh, b, s, op, k);
    assert q == Post(op.off, op.len, q.src, q.tag);
  }

  lemma OneBlock(b: Cut, j: nat, k: nat)
    requires WellCut(b) && j < b.blocks && k < b.blocks
    requires Off(b, j) < Off(b, k) + Len(b, k) && Off(b, k) < Off(b, j) + Len(b, j)
    ensures j == k
  {
    BlockFits(b, j);
    BlockFits(b, k);
    if j < k {
      TimesGrows(b.size, j, k);
    } else if k < j {
      TimesGrows(b.size, k, j);
    }
  }

  lemma PostSeparate(sh: Shape, b: Cut, data: seq<int>, s: nat, op: Op, q: Op)
    requires WellCut(b) && Tree(sh) && Has(PlanOf(sh, b, data), s, op) && Has(PlanOf(sh, b, data), s, q)
    requires op.Send? && q.Post? && Overlap(op, q)
    ensures ClockOf(sh, b)(s, Wait(q.src, q.tag)) < ClockOf(sh, b)(s, op)
  {
    hide Time, PlanOf, Has, Times, Tree, WellCut;
    var j := BlockAt(sh, b, data, s, op);
    var k := BlockAt(sh, b, data, s, q);
    OneBlock(b, j, k);
    Cuts(b);
    WaitBeforeSend(sh, b, s, op, k);
  }

  lemma PlanComplete(sh: Shape, b: Cut, data: seq<int>, r: nat, x: nat)
    requires WellCut(b) && Tree(sh) && Ranks(sh, r) && r != sh.root && x < b.count
    ensures Receives(PlanOf(sh, b, data), r, x)
  {
    hide PlanOf, Has, Times, Tree, WellCut;
    var k := BlockOf(b, x);
    var q := PostOp(sh, b, r, k);
    HasAt(sh, b, data, r, q, k);
    assert Covers(q, x);
  }

  lemma Rooted(sh: Shape)
    requires Tree(sh)
    ensures Ranks(sh, sh.root)
  {
  }

  /** Relaying blocks down any tree of ranks is certified. */
  lemma PlanCertified(sh: Shape, b: Cut, data: seq<int>)
    requires WellCut(b) && |data| == b.count && Tree(sh)
    ensures Certified(PlanOf(sh, b, data), ClockOf(sh, b))
  {
    hide Has, Program, Time, Tree, WellCut;
    Cuts(b);
    Rooted(sh);
    var p, T := PlanOf(sh, b, data), ClockOf(sh, b);
    PlanOrdered(sh, b, data);
    forall s: nat, op | Has(p, s, op) && op.Send? {
      SendMeets(sh, b, data, s, op);
    }
    forall d: nat, q | Has(p, d, q) && q.Post? {
      PostMeets(sh, b, data, d, q);
    }
    forall d: nat, w | Has(p, d, w) && w.Wait?
      ensures Expects(p, d, w.src, w.tag)
    {
      WaitMeets(sh, b, data, d, w);
    }
    forall d: nat, q, q' | Has(p, d, q) && Has(p, d, q') && q.Post? && q'.Post? && q.src == q'.src && q.tag == q'.tag {
      PostUnique(sh, b, data, d, q, q');
    }
    forall s: nat, op | Has(p, s, op) && op.Send? && s != p.root {
      SendHeld(sh, b, data, s, op);
    }
    forall s: nat, op, q | Has(p, s, op) && Has(p, s, q) && op.Send? && q.Post? && Overlap(op, q) {
      PostSeparate(sh, b, data, s, op, q);
    }
    forall r: nat, x: nat | r < |p.prog| && r != p.root && x < |p.data|
      ensures Receives(p, r, x)
    {
      PlanSizes(sh, b, data, r);
      PlanComplete(sh, b, data, r, x);
    }
  }

  // ----------------------------------------------------------------- prefixes

  /** Rank `r` has received block `k`. */
  predicate Got(sh: Shape, b: Cut, st: State, r: nat, k: nat)
    requires Ranks(sh, r) && r < |st.ranks|
  {
    (sh.parent[r], b.base + Off(b, k)) in st.ranks[r].got
  }

  /** Blocks are received in order. */
  lemma GotInOrder(sh: Shape, b: Cut, data: seq<int>, st0: State, st: State, r: nat, j: nat, k: nat)
    requires b.size > 0 && Tree(sh) && Ranks(sh, r) && r != sh.root && j < k < b.blocks
    requires Inv(PlanOf(sh, b, data), st0, st) && Got(sh, b, st, r, k)
    ensures Got(sh, b, st, r, j)
  {
    hide Time, Times, Tree, Buffers, Delivered, Flying, PlanOf, Has;
    var p := PlanOf(sh, b, data);
    var w, q := WaitOp(sh, b, r, j), PostOp(sh, b, r, k);
    HasAt(sh, b, data, r, w, j);
    HasAt(sh, b, data, r, q, k);
    TimeIs(sh, b, r, w, j);
    TimeIs(sh, b, r, q, k);
    TimesGrows(sh.stride, j, k);
    PlanOrdered(sh, b, data);
    PlanSizes(sh, b, data, r);
    DonePrefix(p, ClockOf(sh, b), st, r, w, q);
  }

  lemma HeldIsGot(sh: Shape, b: Cut, data: seq<int>, st: State, r: nat, x: nat, k: nat)
    requires WellCut(b) && |data| == b.count && Tree(sh) && Ranks(sh, r) && r != sh.root && k < b.blocks
    requires Off(b, k) <= x < Off(b, k) + Len(b, k) && Fits(PlanOf(sh, b, data), st)
    ensures |st.ranks| == |sh.arrive|
    ensures Held(PlanOf(sh, b, data), st, r, x) <==> Got(sh, b, st, r, k)
  {
    hide Times, Tree, WellCut, Has, Fits;
    var p := PlanOf(sh, b, data);
    FitsRanks(p, st);
    var q := PostOp(sh, b, r, k);
    HasAt(sh, b, data, r, q, k);
    assert Covers(q, x);
    if Held(p, st, r, x) {
      var q' :| Has(p, r, q') && Covers(q', x) && (q'.src, q'.tag) in st.ranks[r].got;
      var j := BlockAt(sh, b, data, r, q');
      OneBlock(b, j, k);
    }
  }

  lemma FitsRanks(p: Plan, st: State)
    requires Fits(p, st)
    ensures |st.ranks| == |p.prog|
  {
  }

  /** The number of leading blocks, of the first `m`, that rank `r` has received. */
  function Prefix(sh: Shape, b: Cut, st: State, r: nat, m: nat): nat
    requires Ranks(sh, r) && r < |st.ranks|
  {
    if m == 0 then 0 else if Got(sh, b, st, r, m - 1) then m else Prefix(sh, b, st, r, m - 1)
  }

  /** Rank `r` holds the root's data on its first `n` blocks and what it started with, `buf0`, on the
      rest.  These are exactly the blocks it has completed: every block it has waited for is among
      them, and it has posted the receive of each. */
  ghost predicate HoldsFirst(sh: Shape, b: Cut, p: Plan, buf0: seq<int>, st: State, r: nat, n: nat)
    requires Fits(p, st) && r < |p.prog| && Ranks(sh, r)
  {
    n <= b.blocks && |buf0| == |p.data| == b.count &&
    (var m := Min(Off(b, n), b.count); st.ranks[r].buf == p.data[..m] + buf0[m..]) &&
    (forall k: nat | k < b.blocks && Done(p, st, r, WaitOp(sh, b, r, k)) :: k < n) &&
    forall k: nat | k < n :: Done(p, st, r, PostOp(sh, b, r, k))
  }

  ghost predicate HoldsCompleted(sh: Shape, b: Cut, p: Plan, buf0: seq<int>, st: State, r: nat)
    requires Fits(p, st) && r < |p.prog| && Ranks(sh, r)
  {
    exists n: nat :: HoldsFirst(sh, b, p, buf0, st, r, n)
  }

  lemma HoldsData(sh: Shape, b: Cut, data: seq<int>, st0: State, st: State, r: nat, n: nat)
    requires WellCut(b) && |data| == b.count && Tree(sh) && Ranks(sh, r) && r != sh.root && n <= b.blocks
    requires Inv(PlanOf(sh, b, data), st0, st)
    requires r < |st.ranks| && forall k: nat | k < b.blocks :: Got(sh, b, st, r, k) <==> k < n
    ensures r < |st0.ranks| && |st0.ranks[r].buf| == b.count
    ensures var m := Min(Off(b, n), b.count); st.ranks[r].buf == data[..m] + st0.ranks[r].buf[m..]
  {
    hide Times, Tree, WellCut, Has, Delivered, Flying, Waited, Posted, Got;
    PlanSizes(sh, b, data, r);
    var m := Min(Off(b, n), b.count);
    forall x: nat | x < b.count
      ensures st.ranks[r].buf[x] == if x < m then data[x] else st0.ranks[r].buf[x]
    {
      var k := BlockOf(b, x);
      HeldIsGot(sh, b, data, st, r, x, k);
      BlockOrder(b, k, n, x);
    }
    assert st.ranks[r].buf == data[..m] + st0.ranks[r].buf[m..];
  }

  /** A block that has been waited for has been received; one received has been posted. */
  lemma GotBetween(sh: Shape, b: Cut, data: seq<int>, st0: State, st: State, r: nat, k: nat)
    requires Tree(sh) && Ranks(sh, r) && r != sh.root && k < b.blocks
    requires Inv(PlanOf(sh, b, data), st0, st)
    ensures r < |PlanOf(sh, b, data).prog| && r < |st.ranks|
    ensures Done(PlanOf(sh, b, data), st, r, WaitOp(sh, b, r, k)) ==> Got(sh, b, st, r, k)
    ensures Got(sh, b, st, r, k) ==> Done(PlanOf(sh, b, data), st, r, PostOp(sh, b, r, k))
  {
    hide Times, Tree, Has, Delivered, Flying, Buffers, PlanOf;
    PlanSizes(sh, b, data, r);
    HasAt(sh, b, data, r, PostOp(sh, b, r, k), k);
  }

  /** In every state of every run, a rank other than the root holds the root's data on exactly the
      blocks it has completed, which are a prefix, and what it held at the start on the rest. */
  lemma HoldsPrefix(sh: Shape, b: Cut, data: seq<int>, st0: State, st: State, r: nat)
    requires WellCut(b) && |data| == b.count && Tree(sh) && Ranks(sh, r) && r != sh.root
    requires Inv(PlanOf(sh, b, data), st0, st)
    ensures Fits(PlanOf(sh, b, data), st) && r < |PlanOf(sh, b, data).prog| && r < |st0.ranks|
    ensures HoldsFirst(sh, b, PlanOf(sh, b, data), st0.ranks[r].buf, st, r, Prefix(sh, b, st, r, b.blocks))
    ensures HoldsCompleted(sh, b, PlanOf(sh, b, data), st0.ranks[r].buf, st, r)
  {
    hide Times, Tree, WellCut, Has, Inv, Got, Prefix, Done;
    var p := PlanOf(sh, b, data);
    PlanSizes(sh, b, data, r);
    InvFits(p, st0, st);
    Cuts(b);
    var n := Prefix(sh, b, st, r, b.blocks);
    PrefixIsAll(sh, b, data, st0, st, r, b.blocks);
    HoldsData(sh, b, data, st0, st, r, n);
    forall k: nat | k < b.blocks
      ensures Done(p, st, r, WaitOp(sh, b, r, k)) ==> k < n
      ensures k < n ==> Done(p, st, r, PostOp(sh, b, r, k))
    {
      GotBetween(sh, b, data, st0, st, r, k);
    }
    assert HoldsFirst(sh, b, p, st0.ranks[r].buf, st, r, n);
  }

  /** In every run of a relayed broadcast, a rank other than the root holds the root's data on exactly
      the blocks it has completed and what it started with on the rest; a rank sends only the root's
      data; and no receive that it has posted and not waited for overlaps what it sends. */
  lemma RelaysSafely(sh: Shape, b: Cut, data: seq<int>, run: seq<State>, st: State, r: nat)
    requires WellCut(b) && |data| == b.count && Tree(sh) && Run(PlanOf(sh, b, data), run) && st in run && Ranks(sh, r)
    ensures var p := PlanOf(sh, b, data);
      Fits(p, run[0]) && Fits(p, st) &&
      (r != sh.root ==> HoldsCompleted(sh, b, p, run[0].ranks[r].buf, st, r)) &&
      forall op: Op | op.Send? && Current(p, st, r, op) ::
        op.off + op.len <= |data| && st.ranks[r].buf[op.off..op.off + op.len] == data[op.off..op.off + op.len] &&
        forall q | Receiving(p, st, r, q) :: !Overlap(op, q)
  {
    hide Tree, WellCut, Program, Certified, Inv, Run, Has, Time, Current, Receiving, Fits, HoldsFirst, HoldsCompleted;
    var p, T := PlanOf(sh, b, data), ClockOf(sh, b);
    PlanCertified(sh, b, data);
    RunStarts(p, run);
    Broadcasts(p, T, run);
    var i: nat :| i < |run| && run[i] == st;
    RunKeeps(p, T, run, i);
    InvFits(p, run[0], st);
    PlanSizes(sh, b, data, r);
    if r != sh.root {
      HoldsPrefix(sh, b, data, run[0], st, r);
    }
  }

  lemma BlockOrder(b: Cut, k: nat, n: nat, x: nat)
    requires Off(b, k) <= x < Off(b, k) + Len(b, k)
    ensures k < n <==> x < Off(b, n)
  {
    if k < n {
      TimesGrows(b.size, k, n);
    } else if n < k {
      TimesGrows(b.size, n, k);
    }
  }

  lemma {:induction false} PrefixIsAll(sh: Shape, b: Cut, data: seq<int>, st0: State, st: State, r: nat, m: nat)
    requires b.size > 0 && Tree(sh) && Ranks(sh, r) && r != sh.root && m <= b.blocks && r < |st.ranks|
    requires Inv(PlanOf(sh, b, data), st0, st)
    ensures Prefix(sh, b, st, r, m) <= m
    ensures forall k: nat | k < m :: Got(sh, b, st, r, k) <==> k < Prefix(sh, b, st, r, m)
  {
    hide Got, Inv, Tree, PlanOf;
    if m > 0 {
      if Got(sh, b, st, r, m - 1) {
        forall k: nat | k < m - 1 ensures Got(sh, b, st, r, k) {
          GotInOrder(sh, b, data, st0, st, r, k, m - 1);
        }
      } else {
        PrefixIsAll(sh, b, data, st0, st, r, m - 1);
      }
    }
  }

  // ------------------------------------------------------------------- rounds

  function RoundOf(sh: Shape, b: Cut): Clock {
    (s: nat, op: Op) => (Time(sh, b, s, op) - 1) / 3 + 1
  }

  lemma SendRound(sh: Shape, b: Cut, s: nat, op: Op, k: nat)
    requires b.size > 0 && Tree(sh) && Ranks(sh, s) && op.Send? && At(sh, b, s, op, k)
    ensures Ranks(sh, op.dst)
    ensures RoundOf(sh, b)(s, op) == Round(sh, op.dst, k) + 1 >= 1
    ensures Time(sh, b, s, op) == 3 * Round(sh, op.dst, k) + 1
  {
    hide Time, Times;
    TimeIs(sh, b, s, op, k);
    assert KidsInTurn(sh, s);
  }

  lemma BeforeInTime(sh: Shape, b: Cut, data: seq<int>, s: nat, x: Op, y: Op)
    requires b.size > 0 && Tree(sh) && Has(PlanOf(sh, b, data), s, x) && Has(PlanOf(sh, b, data), s, y)
    ensures Before(PlanOf(sh, b, data), s, x, y) <==> Time(sh, b, s, x) < Time(sh, b, s, y)
  {
    hide Time, Program, Tree;
    var p := PlanOf(sh, b, data);
    PlanOrdered(sh, b, data);
    assert forall i: nat, j: nat | i < j < |p.prog[s]| ::
      ClockOf(sh, b)(s, p.prog[s][i]) < ClockOf(sh, b)(s, p.prog[s][j]);
    var i: nat :| i < |p.prog[s]| && p.prog[s][i] == x;
    var j: nat :| j < |p.prog[s]| && p.prog[s][j] == y;
    if Time(sh, b, s, x) < Time(sh, b, s, y) {
      assert i < j;
    }
  }

  /** A rank posts the receive of the next block before it sends a block on, and waits for it afterwards. */
  lemma PostsAhead(sh: Shape, b: Cut, data: seq<int>, r: nat, c: nat, k: nat)
    requires b.size > 0 && Tree(sh) && Ranks(sh, r) && r != sh.root && c in sh.kids[r] && k + 1 < b.blocks
    ensures var p := PlanOf(sh, b, data);
      Before(p, r, WaitOp(sh, b, r, k), SendOp(b, k, c)) && Before(p, r, PostOp(sh, b, r, k + 1), SendOp(b, k, c)) &&
      Before(p, r, SendOp(b, k, c), WaitOp(sh, b, r, k + 1))
  {
    hide Tree, Time, PlanOf, Before, Has, SendOp, PostOp, WaitOp;
    var send, wait := SendOp(b, k, c), WaitOp(sh, b, r, k);
    var post, wait' := PostOp(sh, b, r, k + 1), WaitOp(sh, b, r, k + 1);
    AheadTimes(sh, b, r, c, k);
    HasAt(sh, b, data, r, send, k);
    HasAt(sh, b, data, r, wait, k);
    HasAt(sh, b, data, r, post, k + 1);
    HasAt(sh, b, data, r, wait', k + 1);
    BeforeInTime(sh, b, data, r, wait, send);
    BeforeInTime(sh, b, data, r, post, send);
    BeforeInTime(sh, b, data, r, send, wait');
  }

  lemma AheadTimes(sh: Shape, b: Cut, r: nat, c: nat, k: nat)
    requires b.size > 0 && Tree(sh) && Ranks(sh, r) && r != sh.root && c in sh.kids[r]
    ensures var send, wait, post, wait' :=
        SendOp(b, k, c), WaitOp(sh, b, r, k), PostOp(sh, b, r, k + 1), WaitOp(sh, b, r, k + 1);
      At(sh, b, r, send, k) && At(sh, b, r, wait, k) && At(sh, b, r, post, k + 1) && At(sh, b, r, wait', k + 1) &&
      Time(sh, b, r, wait) < Time(sh, b, r, send) && Time(sh, b, r, post) < Time(sh, b, r, send) < Time(sh, b, r, wait')
  {
    hide Time, Times;
    var send, wait := SendOp(b, k, c), WaitOp(sh, b, r, k);
    var post, wait' := PostOp(sh, b, r, k + 1), WaitOp(sh, b, r, k + 1);
    TimeIs(sh, b, r, send, k);
    TimeIs(sh, b, r, wait, k);
    TimeIs(sh, b, r, post, k + 1);
    TimeIs(sh, b, r, wait', k + 1);
    TimesShift(sh.stride, k);
    assert KidsInTurn(sh, r);
  }

  lemma ScaledLeq(j: nat, k: nat, n: nat)
    requires j <= k
    ensures j * n <= k * n
  {
  }

  /** A loop from 0 to `count` in steps of `size` visits block `k` exactly if it starts before `count`. */
  lemma BlockCount(count: nat, size: nat, k: nat)
    requires size > 0
    ensures k < Blocks(count, size) <==> k * size < count
  {
    if count > 0 {
      var m := Index(size, count - 1);
      IndexBounds(size, count - 1);
      TimesIsProduct(size, m);
      TimesIsProduct(size, m + 1);
      if k <= m {
        ScaledLeq(k, m, size);
      } else {
        ScaledLeq(m + 1, k, size);
      }
    } else {
      ScaledLeq(0, k, size);
    }
  }

  lemma BlockInside(count: nat, size: nat, k: nat)
    requires size > 0
    ensures var b := CutOf(count, size, false);
      (k < b.blocks <==> k * size < count) && Off(b, k) == k * size &&
      (k * size < count ==> Len(b, k) == Min(size, count - k * size))
  {
    hide Blocks;
    TimesIsProduct(size, k);
    BlockCount(count, size, k);
  }

  /** `op` sends block `k` of blocks of `size` elements to `dst`, with the offset of the block as the tag. */
  predicate SendsBlock(op: Op, count: nat, size: nat, k: nat, dst: nat) {
    k * size < count && op == Send(k * size, Min(size, count - k * size), dst, k * size)
  }

  /** The senders of a relayed broadcast keep the rounds. */
  lemma RelaysPaced(sh: Shape, b: Cut, data: seq<int>)
    requires b.size > 0 && Tree(sh)
    ensures Paced(PlanOf(sh, b, data), RoundOf(sh, b))
  {
    hide Time, Times, Tree, Has, PlanOf, Before;
    var p, R := PlanOf(sh, b, data), RoundOf(sh, b);
    forall s: nat, op | Has(p, s, op) && op.Send?
      ensures R(s, op) >= 1
    {
      var k := BlockAt(sh, b, data, s, op);
      SendRound(sh, b, s, op, k);
    }
    forall s: nat, x: Op, y: Op | x.Send? && y.Send? && Before(p, s, x, y)
      ensures R(s, x) < R(s, y)
    {
      BeforeHas(p, s, x, y);
      BeforeInTime(sh, b, data, s, x, y);
      LaterRound(sh, b, data, s, x, s, y);
    }
    forall s: nat, op: Op, q: Op |
      Has(p, s, op) && op.Send? && Has(p, s, q) && q.Post? && q.off == op.off && q.len == op.len
      ensures R(q.src, Send(q.off, q.len, s, q.tag)) < R(s, op)
    {
      SentAfterReceived(sh, b, data, s, op, q);
    }
  }

  /** Of two messages the earlier is in an earlier round, or in the same one at the same time. */
  lemma LaterRound(sh: Shape, b: Cut, data: seq<int>, s: nat, x: Op, s': nat, y: Op)
    requires b.size > 0 && Tree(sh) && Has(PlanOf(sh, b, data), s, x) && Has(PlanOf(sh, b, data), s', y)
    requires x.Send? && y.Send?
    ensures Time(sh, b, s, x) < Time(sh, b, s', y) <==> RoundOf(sh, b)(s, x) < RoundOf(sh, b)(s', y)
  {
    hide Time, Times, Tree, Has, PlanOf;
    var j := BlockAt(sh, b, data, s, x);
    var k := BlockAt(sh, b, data, s', y);
    SendRound(sh, b, s, x, j);
    SendRound(sh, b, s', y, k);
  }

  /** Messages meet their receives in these rounds. */
  lemma RelaysMeet(sh: Shape, b: Cut, data: seq<int>)
    requires WellCut(b) && |data| == b.count && Tree(sh)
    ensures Rendezvous(PlanOf(sh, b, data), RoundOf(sh, b)) && InTurn(PlanOf(sh, b, data), RoundOf(sh, b))
  {
    hide Time, Times, Tree, Has, PlanOf, Before, WellCut;
    Cuts(b);
    var p, R := PlanOf(sh, b, data), RoundOf(sh, b);
    forall s: nat, op: Op, a: Op | Has(p, s, op) && op.Send? && a.Send? && Before(p, op.dst, a, PostFor(s, op))
      ensures R(op.dst, a) < R(s, op)
    {
      SendMeets(sh, b, data, s, op);
      BeforeHas(p, op.dst, a, PostFor(s, op));
      BeforeInTime(sh, b, data, op.dst, a, PostFor(s, op));
      LaterRound(sh, b, data, op.dst, a, s, op);
    }
    forall s: nat, op: Op, a: Op | Has(p, s, op) && op.Send? && a.Send? && Before(p, op.dst, WaitFor(s, op), a)
      ensures R(s, op) < R(op.dst, a)
    {
      SendMeets(sh, b, data, s, op);
      BeforeHas(p, op.dst, WaitFor(s, op), a);
      BeforeInTime(sh, b, data, op.dst, WaitFor(s, op), a);
      LaterRound(sh, b, data, s, op, op.dst, a);
    }
    forall s: nat, op: Op, s': nat, op': Op |
      Has(p, s, op) && Has(p, s', op') && op.Send? && op'.Send? && op.dst == op'.dst &&
      Before(p, op.dst, WaitFor(s, op), PostFor(s', op'))
      ensures R(s, op) < R(s', op')
    {
      SendMeets(sh, b, data, s, op);
      SendMeets(sh, b, data, s', op');
      BeforeInTime(sh, b, data, op.dst, WaitFor(s, op), PostFor(s', op'));
      LaterRound(sh, b, data, s, op, s', op');
    }
  }

  /** Two messages to one rank are in different rounds. */
  lemma RelaysApart(sh: Shape, b: Cut, data: seq<int>, s: nat, op: Op, s': nat, op': Op)
    requires b.size > 0 && Tree(sh) && Has(PlanOf(sh, b, data), s, op) && Has(PlanOf(sh, b, data), s', op')
    requires op.Send? && op'.Send? && op.dst == op'.dst && RoundOf(sh, b)(s, op) == RoundOf(sh, b)(s', op')
    ensures s == s' && op == op'
  {
    hide Time, Times, Has, PlanOf;
    var j := BlockAt(sh, b, data, s, op);
    var k := BlockAt(sh, b, data, s', op');
    SendRound(sh, b, s, op, j);
    SendRound(sh, b, s', op', k);
    SameOffset(sh.stride, j, k);
    assert KidsInTurn(sh, s) && KidsInTurn(sh, s');
  }

  /** A relayed broadcast can keep lock step, block `k` reaching rank `r` in round `Round(r, k) + 1`. */
  lemma RelaysInLockStep(sh: Shape, b: Cut, data: seq<int>)
    requires WellCut(b) && |data| == b.count && Tree(sh)
    ensures LockStep(PlanOf(sh, b, data), RoundOf(sh, b))
  {
    hide Paced, Rendezvous, InTurn, Time, Tree, Has, PlanOf, WellCut;
    Cuts(b);
    RelaysPaced(sh, b, data);
    RelaysMeet(sh, b, data);
    var p, R := PlanOf(sh, b, data), RoundOf(sh, b);
    forall s: nat, op: Op, s': nat, op': Op |
      Has(p, s, op) && Has(p, s', op') && op.Send? && op'.Send? && op.dst == op'.dst && R(s, op) == R(s', op')
      ensures s == s' && op == op'
    {
      RelaysApart(sh, b, data, s, op, s', op');
    }
  }

  lemma ArrivesSome(sh: Shape, r: nat)
    requires Tree(sh) && Ranks(sh, r)
    ensures sh.arrive[r] >= Floor(sh)
  {
  }

  /** A round before all rounds. */
  function Floor(sh: Shape): int
    requires Ranks(sh, sh.root)
  {
    if sh.arrive[sh.root] < 0 then sh.arrive[sh.root] else 0
  }

  lemma TimeBound(sh: Shape, b: Cut, data: seq<int>, r: nat, op: Op)
    requires b.size > 0 && Tree(sh) && Has(PlanOf(sh, b, data), r, op)
    ensures Time(sh, b, r, op) >= 3 * (Floor(sh) - sh.stride)
  {
    hide Time, Times, PlanOf, Has, Floor;
    var k := BlockAt(sh, b, data, r, op);
    TimeIs(sh, b, r, op, k);
    ArrivesSome(sh, r);
    if op.Send? {
      ArrivesSome(sh, op.dst);
    }
  }

  /** It really runs that way: without any buffering, through the rounds one after another, each
      message being sent, received and waited for in its round. */
  lemma RelaysRun(sh: Shape, b: Cut, data: seq<int>)
    requires WellCut(b) && |data| == b.count && Tree(sh)
    ensures RunsInRounds(PlanOf(sh, b, data), RoundOf(sh, b))
  {
    hide Time, Times, Certified, PlanOf, Has, WellCut, Floor;
    Cuts(b);
    PlanCertified(sh, b, data);
    var p, T, R := PlanOf(sh, b, data), ClockOf(sh, b), RoundOf(sh, b);
    forall s: nat, op | Has(p, s, op) && op.Send?
      ensures T(s, op) == 3 * R(s, op) - 2 && T(op.dst, WaitFor(s, op)) == 3 * R(s, op) - 1
    {
      SlotOf(sh, b, data, s, op);
    }
    forall r: nat, op | Has(p, r, op)
      ensures T(r, op) >= 3 * (Floor(sh) - sh.stride)
    {
      TimeBound(sh, b, data, r, op);
    }
    FloorLow(sh);
    ClockRuns(p, T, R, 3 * (Floor(sh) - sh.stride));
  }

  lemma FloorLow(sh: Shape)
    requires Tree(sh)
    ensures Floor(sh) - sh.stride <= 0
  {
  }

  lemma SlotOf(sh: Shape, b: Cut, data: seq<int>, s: nat, op: Op)
    requires b.size > 0 && Tree(sh) && Has(PlanOf(sh, b, data), s, op) && op.Send?
    ensures var R := RoundOf(sh, b)(s, op);
      Time(sh, b, s, op) == 3 * R - 2 && Time(sh, b, op.dst, WaitFor(s, op)) == 3 * R - 1
  {
    hide Time, Times, PlanOf, Has;
    var k := BlockAt(sh, b, data, s, op);
    SendRound(sh, b, s, op, k);
    assert KidsInTurn(sh, s);
    TimeIs(sh, b, op.dst, WaitFor(s, op), k);
  }

  lemma BeforeHas(p: Plan, r: nat, x: Op, y: Op)
    requires Before(p, r, x, y)
    ensures Has(p, r, x) && Has(p, r, y)
  {
  }

  lemma SentAfterReceived(sh: Shape, b: Cut, data: seq<int>, s: nat, op: Op, q: Op)
    requires b.size > 0 && Tree(sh) && Has(PlanOf(sh, b, data), s, op) && Has(PlanOf(sh, b, data), s, q)
    requires op.Send? && q.Post? && q.off == op.off
    ensures RoundOf(sh, b)(q.src, Send(q.off, q.len, s, q.tag)) < RoundOf(sh, b)(s, op)
  {
    hide Time, Times, Has, PlanOf;
    var j := BlockAt(sh, b, data, s, op);
    var k := BlockAt(sh, b, data, s, q);
    SameOffset(b.size, j, k);
    SendRound(sh, b, s, op, k);
    SendRound(sh, b, q.src, Send(q.off, q.len, s, q.tag), k);
    assert KidsInTurn(sh, s);
  }
}
