/** The pipelined binary tree: 0-based rank x passes every block on to 2x + 1 and 2x + 2. */
module Binary {
  import opened Bits
  import opened Mpi
  import opened Certificate
  import opened Pipeline
  import opened Rounds
  import opened Seqs
  import Linear

  /** `(x - 1) / 2`, which C truncates towards 0 when x is 0. */
  function Parent0(x: nat): nat {
    if x == 0 then 0 else (x - 1) / 2
  }

  /** The children of a rank, given its 0-based rank. */
  function KidsOf(size: nat, root: nat, x: nat): seq<nat>
    requires root < size
  {
    (if 2 * x + 1 < size then [RankAt(size, root, 2 * x + 1)] else []) +
    (if 2 * x + 2 < size then [RankAt(size, root, 2 * x + 2)] else [])
  }

  /** When block 0 reaches a 0-based rank: a left child is served one round after its parent has the
      block, a right child two. */
  function Arrive(x: nat): int {
    if x == 0 then -1 else Arrive((x - 1) / 2) + if x % 2 == 1 then 1 else 2
  }

  /** The binary tree as a tree of ranks. */
  function BinaryTree(size: nat, root: nat): Shape
    requires root < size
  {
    Shape(root,
          seq(size, r requires 0 <= r < size => RankAt(size, root, Parent0(Distance(size, root, r)))),
          seq(size, r requires 0 <= r < size => KidsOf(size, root, Distance(size, root, r))),
          seq(size, r requires 0 <= r < size => Arrive(Distance(size, root, r))),
          2)
  }

  lemma TreeAt(size: nat, root: nat, r: nat)
    requires root < size && r < size
    ensures var sh, x := BinaryTree(size, root), Distance(size, root, r);
      Ranks(sh, r) && sh.root == root && sh.parent[r] == RankAt(size, root, Parent0(x)) &&
      sh.kids[r] == KidsOf(size, root, x) && sh.arrive[r] == Arrive(x)
  {
  }

  lemma TreeSize(size: nat, root: nat, r: nat)
    requires root < size
    ensures Ranks(BinaryTree(size, root), r) <==> r < size
  {
  }

  /** The operations of one rank. */
  function Ops(size: nat, root: nat, count: nat, blockSize: nat, rank: nat): seq<Op>
    requires root < size && rank < size && blockSize > 0
  {
    Program(BinaryTree(size, root), CutOf(count, blockSize, rank != root), rank)
  }

  // -------------------------------------------------------------------- calls

  function SendCalls(off: nat, len: nat, hasL: bool, l: nat, hasR: bool, r: nat): seq<Call> {
    (if hasL then [CallSend(off, len, l, off)] else []) + (if hasR then [CallSend(off, len, r, off)] else [])
  }

  /** The two guarded sends of one block. */
  method Sends(calls: seq<Call>, off: nat, len: nat, hasL: bool, l: nat, hasR: bool, r: nat) returns (calls': seq<Call>)
    ensures calls' == calls + SendCalls(off, len, hasL, l, hasR, r)
  {
    calls' := calls;
    if hasL {
      calls' := calls' + [CallSend(off, len, l, off)];
    }
    if hasR {
      calls' := calls' + [CallSend(off, len, r, off)];
    }
  }

  lemma SendsLower(calls: seq<Call>, b: Cut, k: nat, hasL: bool, l: nat, hasR: bool, r: nat)
    requires b.base == 0
    ensures LowerAll(calls + SendCalls(Off(b, k), Len(b, k), hasL, l, hasR, r)) ==
      LowerAll(calls) + SendAll(b, k, (if hasL then [l] else []) + (if hasR then [r] else []))
  {
    hide LowerAll, Off, Len;
    var off, len := Off(b, k), Len(b, k);
    var c1, c2 := CallSend(off, len, l, off), CallSend(off, len, r, off);
    var kids := (if hasL then [l] else []) + (if hasR then [r] else []);
    var all := calls + SendCalls(off, len, hasL, l, hasR, r);
    Append(calls, c1);
    Append(calls, c2);
    Append(calls + [c1], c2);
    if hasL && hasR {
      assert all == calls + [c1] + [c2];
      assert SendAll(b, k, kids) == [SendOp(b, k, l)] + [SendOp(b, k, r)];
    } else if hasL {
      assert all == calls + [c1];
      assert SendAll(b, k, kids) == [SendOp(b, k, l)];
    } else if hasR {
      assert all == calls + [c2];
      assert SendAll(b, k, kids) == [SendOp(b, k, r)];
    } else {
      assert all == calls;
      assert SendAll(b, k, kids) == [];
    }
  }

  lemma RootTurn(size: nat, root: nat, b: Cut, k: nat)
    requires root < size && Ranks(BinaryTree(size, root), root)
    ensures var sh := BinaryTree(size, root);
      Relay(sh, b, root, k + 1) == Relay(sh, b, root, k) + SendAll(b, k, sh.kids[root])
  {
  }

  lemma FirstTurn(size: nat, root: nat, b: Cut, c: Call, rank: nat)
    requires root < size && rank < size && rank != root && Ranks(BinaryTree(size, root), rank)
    requires c == CallRecv(0, Len(b, 0), BinaryTree(size, root).parent[rank], 0) && b.base == 0
    ensures LowerAll([c]) == Relay(BinaryTree(size, root), b, rank, 1)
  {
    hide BinaryTree, Len;
    TreeAt(size, root, rank);
    Append([], c);
    assert [] + [c] == [c];
    assert Relay(BinaryTree(size, root), b, rank, 0) == [];
  }

  lemma MiddleTurn(size: nat, root: nat, b: Cut, k: nat, calls: seq<Call>, sends: seq<Call>,
                   c: Call, w: Call, rank: nat)
    requires root < size && rank < size && rank != root && Ranks(BinaryTree(size, root), rank) && k > 0
    requires LowerAll(calls) == Relay(BinaryTree(size, root), b, rank, k)
    requires LowerAll(calls + [c] + sends) ==
      LowerAll(calls + [c]) + SendAll(b, k - 1, BinaryTree(size, root).kids[rank])
    requires b.base == 0 && c == CallIrecv(Off(b, k), Len(b, k), BinaryTree(size, root).parent[rank], Off(b, k))
    requires w == CallWait(BinaryTree(size, root).parent[rank], Off(b, k))
    ensures LowerAll(calls + [c] + sends + [w]) == Relay(BinaryTree(size, root), b, rank, k + 1)
  {
    hide BinaryTree, LowerAll, Off, Len, SendAll, Relay, Turn;
    var sh := BinaryTree(size, root);
    TreeAt(size, root, rank);
    Append(calls, c);
    Append(calls + [c] + sends, w);
    var p, f, q := [PostOp(sh, b, rank, k)], SendAll(b, k - 1, sh.kids[rank]), [WaitOp(sh, b, rank, k)];
    NextTurn(sh, b, rank, k);
    Regroup(Relay(sh, b, rank, k), p, f, q);
  }

  lemma Regroup(a: seq<Op>, b: seq<Op>, c: seq<Op>, d: seq<Op>)
    ensures a + b + c + d == a + (b + c + d)
  {
  }

  /** The tree in the terms of the source. */
  lemma TreeRank(size: nat, root: nat, rank: nat, rank0: nat, parent0: nat)
    requires root < size && rank < size && rank0 == (rank + size - root) % size
    requires parent0 == if rank0 == 0 then 0 else (rank0 - 1) / 2
    ensures var sh := BinaryTree(size, root);
      Ranks(sh, rank) && sh.root == root && sh.parent[rank] == (root + parent0) % size &&
      sh.kids[rank] == (if rank0 * 2 + 1 < size then [(root + (rank0 * 2 + 1)) % size] else []) +
                       (if rank0 * 2 + 2 < size then [(root + (rank0 * 2 + 2)) % size] else [])
  {
    hide BinaryTree;
    TreeAt(size, root, rank);
  }

  /** The calls `bcast_binary` makes at one rank. */
  method BcastBinary(rank: nat, size: nat, root: nat, count: nat, blockSize: nat) returns (calls: seq<Call>)
    requires rank < size && root < size && blockSize > 0
    ensures LowerAll(calls) == Ops(size, root, count, blockSize, rank)
  {
    hide Relay, LowerAll, Forward, BinaryTree, Blocks, SendAll, SendCalls, CutOf, Visits, Off, Len,
      KidsOf, Parent0, Distance, RankAt;
    CutFields(count, blockSize, rank != root);
    var rank0 := (rank + size - root) % size;
    var parent0 := if rank0 == 0 then 0 else (rank0 - 1) / 2;
    var l0, r0 := rank0 * 2 + 1, rank0 * 2 + 2;
    var hasL, hasR := l0 < size, r0 < size;
    var parent := (root + parent0) % size;
    var l, r := (root + l0) % size, (root + r0) % size;
    TreeRank(size, root, rank, rank0, parent0);
    ghost var sh, b, k := BinaryTree(size, root), CutOf(count, blockSize, rank != root), 0;
    calls := [];
    NoTurns(sh, b, rank);
    FirstVisit(b);
    if rank == root {
      var i := 0;
      while i < count
        invariant Visits(b, i, k) && (k > 0 ==> count > 0)
        invariant LowerAll(calls) == Relay(sh, b, rank, k)
      {
        var n := Min(blockSize, count - i);
        NextVisit(b, i, k);
        SendsLower(calls, b, k, hasL, l, hasR, r);
        RootTurn(size, root, b, k);
        calls := Sends(calls, i, n, hasL, l, hasR, r);
        i := i + blockSize;
        k := k + 1;
      }
      LastVisit(count, blockSize, false, i, k);
    } else {
      var n := Min(blockSize, count);
      FirstTurn(size, root, b, CallRecv(0, n, parent, 0), rank);
      calls := [CallRecv(0, n, parent, 0)];
      var lastI, lastN := 0, n;
      var i := blockSize;
      k := 1;
      while i < count
        invariant Visits(b, i, k) && k > 0
        invariant lastI == Off(b, k - 1) && lastN == Len(b, k - 1)
        invariant LowerAll(calls) == Relay(sh, b, rank, k)
      {
        n := Min(blockSize, count - i);
        NextVisit(b, i, k);
        var c, w := CallIrecv(i, n, parent, i), CallWait(parent, i);
        SendsLower(calls + [c], b, k - 1, hasL, l, hasR, r);
        MiddleTurn(size, root, b, k, calls, SendCalls(lastI, lastN, hasL, l, hasR, r), c, w, rank);
        calls := calls + [c];
        calls := Sends(calls, lastI, lastN, hasL, l, hasR, r);
        calls := calls + [w];
        lastI := i;
        lastN := n;
        i := i + blockSize;
        k := k + 1;
      }
      LastVisit(count, blockSize, true, i, k);
      SendsLower(calls, b, k - 1, hasL, l, hasR, r);
      ForwardIs(sh, b, rank, k);
      calls := Sends(calls, lastI, lastN, hasL, l, hasR, r);
    }
  }

  // ----------------------------------------------------------------- theorems

  ghost function BinaryPlan(size: nat, root: nat, blockSize: nat, data: seq<int>): Plan
    requires root < size && blockSize > 0
  {
    Plan(seq(size, r requires 0 <= r < size => Ops(size, root, |data|, blockSize, r)), root, data)
  }

  lemma {:induction false} ArrivesLater(x: nat)
    ensures x > 0 ==> Arrive(x) >= 0
    ensures Arrive(x) >= -1
  {
    if x > 0 {
      ArrivesLater((x - 1) / 2);
    }
  }

  lemma HalfOf(x: nat)
    ensures (2 * x + 1 - 1) / 2 == x == (2 * x + 2 - 1) / 2 && (2 * x + 1) % 2 == 1 && (2 * x + 2) % 2 == 0
  {
  }

  /** A child knows its parent. */
  lemma KidIs(size: nat, root: nat, r: nat, y: nat)
    requires root < size && r < size && y < size
    requires y == 2 * Distance(size, root, r) + 1 || y == 2 * Distance(size, root, r) + 2
    ensures var sh, c := BinaryTree(size, root), RankAt(size, root, y);
      Ranks(sh, c) && c != root && sh.parent[c] == r &&
      sh.arrive[c] == sh.arrive[r] + y - 2 * Distance(size, root, r)
  {
    hide BinaryTree, Distance, RankAt;
    DistanceIs(size, root, r);
    RankAtIs(size, root, y);
    DistanceIs(size, root, RankAt(size, root, y));
    HalfOf(Distance(size, root, r));
    TreeAt(size, root, r);
    TreeAt(size, root, RankAt(size, root, y));
  }

  lemma BinaryKids(size: nat, root: nat, r: nat)
    requires root < size && r < size
    ensures Ranks(BinaryTree(size, root), r) && KidsInTurn(BinaryTree(size, root), r)
  {
    hide BinaryTree, Distance, RankAt;
    var x := Distance(size, root, r);
    TreeAt(size, root, r);
    if 2 * x + 1 < size {
      KidIs(size, root, r, 2 * x + 1);
    }
    if 2 * x + 2 < size {
      KidIs(size, root, r, 2 * x + 2);
    }
    TwoStrides(size, root);
  }

  lemma TwoStrides(size: nat, root: nat)
    requires root < size
    ensures BinaryTree(size, root).stride == 2 && BinaryTree(size, root).root == root
  {
  }

  lemma BinaryParent(size: nat, root: nat, r: nat)
    requires root < size && r < size && r != root
    ensures var sh := BinaryTree(size, root);
      Ranks(sh, r) && sh.arrive[r] >= 0 && Ranks(sh, sh.parent[r]) && r in sh.kids[sh.parent[r]]
  {
    hide BinaryTree, Distance, RankAt;
    var x := Distance(size, root, r);
    DistanceIs(size, root, r);
    TreeAt(size, root, r);
    ArrivesLater(x);
    var y := Parent0(x);
    RankAtIs(size, root, y);
    TreeAt(size, root, RankAt(size, root, y));
    assert x == 2 * y + 1 || x == 2 * y + 2;
  }

  lemma BinaryIsTree(size: nat, root: nat)
    requires root < size
    ensures Tree(BinaryTree(size, root))
  {
    hide BinaryTree, KidsInTurn;
    var sh := BinaryTree(size, root);
    TwoStrides(size, root);
    TreeAt(size, root, root);
    forall r: nat | Ranks(sh, r)
      ensures KidsInTurn(sh, r)
      ensures r != root ==> sh.arrive[r] >= 0 && Ranks(sh, sh.parent[r]) && r in sh.kids[sh.parent[r]]
    {
      TreeSize(size, root, r);
      BinaryKids(size, root, r);
      if r != root {
        BinaryParent(size, root, r);
      }
    }
  }

  lemma PlanIsRelay(size: nat, root: nat, blockSize: nat, data: seq<int>)
    requires root < size && blockSize > 0
    requires data != [] || size == 1
    ensures Tree(BinaryTree(size, root))
    ensures BinaryPlan(size, root, blockSize, data) ==
      PlanOf(BinaryTree(size, root), CutOf(|data|, blockSize, false), data)
  {
    hide Program, Tree;
    BinaryIsTree(size, root);
    var p := BinaryPlan(size, root, blockSize, data);
    var p' := PlanOf(BinaryTree(size, root), CutOf(|data|, blockSize, false), data);
    assert p.prog == p'.prog;
  }

  /** The pipelined binary tree broadcasts, in every run and whatever is buffered, exactly when there is
      something to send or nobody to send it to. */
  lemma BinaryDelivers(size: nat, root: nat, blockSize: nat, data: seq<int>)
    requires root < size && blockSize > 0
    ensures Delivers(BinaryPlan(size, root, blockSize, data)) <==> data != [] || size == 1
  {
    hide BinaryTree, Delivers, Tree, BinaryPlan, WellCut;
    if data != [] || size == 1 {
      var sh, b := BinaryTree(size, root), CutOf(|data|, blockSize, false);
      PlanIsRelay(size, root, blockSize, data);
      CutIsWell(|data|, blockSize, false);
      PlanCertified(sh, b, data);
      CertifiedDelivers(BinaryPlan(size, root, blockSize, data), ClockOf(sh, b));
    } else {
      EmptyStarves(size, root, blockSize);
    }
  }

  lemma EmptyStarves(size: nat, root: nat, blockSize: nat)
    requires root < size && size >= 2 && blockSize > 0
    ensures !Delivers(BinaryPlan(size, root, blockSize, []))
  {
    hide Delivers;
    var p := BinaryPlan(size, root, blockSize, []);
    forall r: nat | r < size
      ensures if r != root then |p.prog[r]| >= 2 && p.prog[r][0].Post? && p.prog[r][1].Wait? else p.prog[r] == []
    {
      EmptyOps(size, root, blockSize, r);
    }
    Starves(p, if root == 0 then 1 else 0);
  }

  lemma EmptyOps(size: nat, root: nat, blockSize: nat, r: nat)
    requires root < size && r < size && blockSize > 0
    ensures var ops := Ops(size, root, 0, blockSize, r);
      if r != root then |ops| >= 2 && ops[0].Post? && ops[1].Wait? else ops == []
  {
    var sh, b := BinaryTree(size, root), CutOf(0, blockSize, r != root);
    if r != root {
      assert Relay(sh, b, r, 0) == [] && Forward(sh, b, r, 0) == [];
      assert Relay(sh, b, r, 1) == [PostOp(sh, b, r, 0), WaitOp(sh, b, r, 0)];
    }
  }

  /** In every run of the binary tree a rank holds whole leading blocks of the root's data, sends only
      those, and sends nothing that it is receiving into. */
  lemma BinarySafe(size: nat, root: nat, blockSize: nat, data: seq<int>, run: seq<State>, st: State, r: nat)
    requires root < size && blockSize > 0 && data != []
    requires Run(BinaryPlan(size, root, blockSize, data), run) && st in run && r < size
    ensures var p := BinaryPlan(size, root, blockSize, data);
      Fits(p, run[0]) && Fits(p, st) &&
      Ranks(BinaryTree(size, root), r) &&
      (r != root ==>
        HoldsCompleted(BinaryTree(size, root), CutOf(|data|, blockSize, false), p, run[0].ranks[r].buf, st, r)) &&
      forall op: Op | op.Send? && Current(p, st, r, op) ::
        op.off + op.len <= |data| && st.ranks[r].buf[op.off..op.off + op.len] == data[op.off..op.off + op.len] &&
        forall q | Receiving(p, st, r, q) :: !Overlap(op, q)
  {
    hide Tree, Run, BinaryPlan, Fits, Current, Receiving, HoldsCompleted;
    PlanIsRelay(size, root, blockSize, data);
    CutIsWell(|data|, blockSize, false);
    TreeAt(size, root, r);
    RelaysSafely(BinaryTree(size, root), CutOf(|data|, blockSize, false), data, run, st, r);
  }

  /** A 0-based rank on level `h` gets block 0 no later than round `2 * h`, counted from 1. */
  lemma {:induction false} ArrivesBy(x: nat, h: nat)
    requires x + 1 < Pow2(h + 1)
    ensures Arrive(x) + 1 <= 2 * h
  {
    if x > 0 {
      ArrivesBy((x - 1) / 2, h - 1);
    }
  }

  /** A tree of at most `h` levels below the root delivers `m` blocks in `2 * (m - 1 + h)` lock-step rounds. */
  lemma BinaryRounds(size: nat, root: nat, blockSize: nat, data: seq<int>, h: nat)
    requires root < size < Pow2(h + 1) && blockSize > 0 && data != []
    ensures var p := BinaryPlan(size, root, blockSize, data);
      var R := RoundOf(BinaryTree(size, root), CutOf(|data|, blockSize, false));
      LockStep(p, R) && RunsInRounds(p, R) &&
      forall s: nat, op | Has(p, s, op) && op.Send? :: R(s, op) <= 2 * (Blocks(|data|, blockSize) - 1 + h)
  {
    hide Tree, Time, Program, LockStep, RunsInRounds, Has, BinaryPlan, BinaryTree, Distance, Pow2;
    var p, sh, b := BinaryPlan(size, root, blockSize, data), BinaryTree(size, root), CutOf(|data|, blockSize, false);
    PlanIsRelay(size, root, blockSize, data);
    CutIsWell(|data|, blockSize, false);
    RelaysInLockStep(sh, b, data);
    RelaysRun(sh, b, data);
    TwoStrides(size, root);
    forall s: nat, op | Has(p, s, op) && op.Send?
      ensures RoundOf(sh, b)(s, op) <= 2 * (b.blocks - 1 + h)
    {
      var k := BlockAt(sh, b, data, s, op);
      SendRound(sh, b, s, op, k);
      TreeSize(size, root, op.dst);
      TreeAt(size, root, op.dst);
      DistanceIs(size, root, op.dst);
      ArrivesBy(Distance(size, root, op.dst), h);
      TimesIsProduct(2, k);
    }
  }

  /** The send of block `k` to `rank` by its parent. */
  lemma PassIs(size: nat, root: nat, blockSize: nat, data: seq<int>, rank: nat, k: nat)
    requires root < size && blockSize > 0 && data != []
    requires rank < size && rank != root && k < Blocks(|data|, blockSize)
    ensures var p := BinaryPlan(size, root, blockSize, data);
      var sh, b := BinaryTree(size, root), CutOf(|data|, blockSize, false);
      Ranks(sh, rank) && Has(p, sh.parent[rank], SendOp(b, k, rank)) && sh.parent[rank] < size &&
      Time(sh, b, sh.parent[rank], SendOp(b, k, rank)) == 3 * (Arrive(Distance(size, root, rank)) + 2 * k) + 1
  {
    hide Tree, Distance, Time, Program, Has, BinaryTree, BinaryPlan;
    var sh, b := BinaryTree(size, root), CutOf(|data|, blockSize, false);
    PlanIsRelay(size, root, blockSize, data);
    BinaryParent(size, root, rank);
    TreeSize(size, root, sh.parent[rank]);
    TreeAt(size, root, rank);
    TwoStrides(size, root);
    HasAt(sh, b, data, sh.parent[rank], SendOp(b, k, rank), k);
    SendRound(sh, b, sh.parent[rank], SendOp(b, k, rank), k);
    TimesIsProduct(2, k);
  }

  /** The parent of the rank at distance `x`. */
  lemma ParentAt(size: nat, root: nat, x: nat)
    requires root < size && 0 < x < size
    ensures var r := RankAt(size, root, x);
      r < size && r != root && Ranks(BinaryTree(size, root), r) && Distance(size, root, r) == x &&
      BinaryTree(size, root).parent[r] == RankAt(size, root, (x - 1) / 2) < size &&
      Distance(size, root, RankAt(size, root, (x - 1) / 2)) == (x - 1) / 2 &&
      (x <= 2 ==> RankAt(size, root, (x - 1) / 2) == root)
  {
    hide Distance, RankAt, BinaryTree;
    RankAtIs(size, root, x);
    DistanceIs(size, root, RankAt(size, root, x));
    TreeAt(size, root, RankAt(size, root, x));
    RankAtIs(size, root, (x - 1) / 2);
    DistanceIs(size, root, RankAt(size, root, (x - 1) / 2));
  }

  /** Two sends of one rank, the first at an earlier time, are in this order in every schedule. */
  lemma SentInOrder(size: nat, root: nat, blockSize: nat, data: seq<int>, R: Clock,
                    s: nat, j: nat, c: nat, k: nat, d: nat)
    requires root < size && blockSize > 0 && data != [] && Paced(BinaryPlan(size, root, blockSize, data), R)
    requires c < size && d < size && c != root && d != root
    requires j < Blocks(|data|, blockSize) && k < Blocks(|data|, blockSize)
    requires var sh := BinaryTree(size, root); Ranks(sh, c) && Ranks(sh, d) && sh.parent[c] == sh.parent[d] == s
    requires Arrive(Distance(size, root, c)) + 2 * j < Arrive(Distance(size, root, d)) + 2 * k
    ensures var b := CutOf(|data|, blockSize, false); R(s, SendOp(b, j, c)) < R(s, SendOp(b, k, d))
  {
    hide Tree, Distance, Time, Program, Has, BinaryTree, BinaryPlan, Paced, Before;
    var sh, b := BinaryTree(size, root), CutOf(|data|, blockSize, false);
    PlanIsRelay(size, root, blockSize, data);
    PassIs(size, root, blockSize, data, c, j);
    PassIs(size, root, blockSize, data, d, k);
    BeforeInTime(sh, b, data, s, SendOp(b, j, c), SendOp(b, k, d));
    Later(BinaryPlan(size, root, blockSize, data), R, s, SendOp(b, j, c), SendOp(b, k, d));
  }

  /** A block is passed on after it has been received. */
  lemma SentAfter(size: nat, root: nat, blockSize: nat, data: seq<int>, R: Clock, s: nat, c: nat, k: nat)
    requires root < size && blockSize > 0 && data != [] && Paced(BinaryPlan(size, root, blockSize, data), R)
    requires c < size && s < size && c != root && s != root && k < Blocks(|data|, blockSize)
    requires var sh := BinaryTree(size, root); Ranks(sh, c) && Ranks(sh, s) && sh.parent[c] == s
    ensures var b := CutOf(|data|, blockSize, false);
      R(BinaryTree(size, root).parent[s], SendOp(b, k, s)) < R(s, SendOp(b, k, c))
  {
    hide Tree, Distance, Time, Program, Has, BinaryTree, BinaryPlan, Paced;
    var sh, b := BinaryTree(size, root), CutOf(|data|, blockSize, false);
    PlanIsRelay(size, root, blockSize, data);
    PassIs(size, root, blockSize, data, c, k);
    TwoStrides(size, root);
    HasAt(sh, b, data, s, PostOp(sh, b, s, k), k);
    AfterReceipt(BinaryPlan(size, root, blockSize, data), R, s, SendOp(b, k, c), PostOp(sh, b, s, k));
  }

  lemma ArriveStep(x: nat)
    requires x > 0
    ensures x % 2 == 0 ==> x > 1 && (x - 1 - 1) / 2 == (x - 1) / 2 && Arrive(x) == Arrive(x - 1) + 1
    ensures x % 2 == 1 ==> Arrive(x) == Arrive((x - 1) / 2) + 1 && (x > 1 ==> 0 < (x - 1) / 2 < x)
    ensures Arrive(1) == 0 && Arrive(2) == 1
  {
    assert Arrive(0) == -1;
    if x % 2 == 0 {
      assert (x - 1) % 2 == 1 && (x - 1 - 1) / 2 == (x - 1) / 2;
    }
  }

  /** With two children at the root, no schedule brings block `k` to the rank at distance `x` before round
      `Arrive(x) + 2 * k + 1`. */
  lemma {:induction false} NoFaster(size: nat, root: nat, blockSize: nat, data: seq<int>, R: Clock, x: nat, k: nat)
    requires root < size && size >= 3 && blockSize > 0 && data != [] && 0 < x < size
    requires k < Blocks(|data|, blockSize) && Paced(BinaryPlan(size, root, blockSize, data), R)
    ensures var sh, b, r := BinaryTree(size, root), CutOf(|data|, blockSize, false), RankAt(size, root, x);
      Ranks(sh, r) && R(sh.parent[r], SendOp(b, k, r)) >= Arrive(x) + 2 * k + 1
    decreases k, x
  {
    hide Tree, Distance, RankAt, Time, Program, Has, BinaryTree, BinaryPlan, Paced, Arrive, Blocks;
    ArriveStep(x);
    var r, s := RankAt(size, root, x), RankAt(size, root, (x - 1) / 2);
    ParentAt(size, root, x);
    if x % 2 == 0 {
      var c := RankAt(size, root, x - 1);
      ParentAt(size, root, x - 1);
      NoFaster(size, root, blockSize, data, R, x - 1, k);
      SentInOrder(size, root, blockSize, data, R, s, k, c, k, r);
    } else if x > 1 {
      ParentAt(size, root, (x - 1) / 2);
      NoFaster(size, root, blockSize, data, R, (x - 1) / 2, k);
      SentAfter(size, root, blockSize, data, R, s, r, k);
    } else if k > 0 {
      var c := RankAt(size, root, 2);
      ParentAt(size, root, 2);
      NoFaster(size, root, blockSize, data, R, 2, k - 1);
      SentInOrder(size, root, blockSize, data, R, s, k - 1, c, k, r);
    } else {
      PassIs(size, root, blockSize, data, r, 0);
      AtLeastOne(BinaryPlan(size, root, blockSize, data), R, s, SendOp(CutOf(|data|, blockSize, false), 0, r));
    }
  }

  /** When block 0 reaches the last of the first `n` 0-based ranks to get it. */
  function LastArrive(n: nat): int
    requires n > 0
  {
    if n == 1 || LastArrive(n - 1) < Arrive(n - 1) then Arrive(n - 1) else LastArrive(n - 1)
  }

  lemma {:induction false} LastIs(n: nat) returns (x: nat)
    requires n > 1
    ensures 0 < x < n && Arrive(x) == LastArrive(n)
    ensures forall y: nat | y < n :: Arrive(y) <= LastArrive(n)
  {
    if n == 2 {
      assert LastArrive(1) == Arrive(0) == -1 && Arrive(1) == 0;
      x := 1;
    } else {
      x := LastIs(n - 1);
      if LastArrive(n - 1) < Arrive(n - 1) {
        x := n - 1;
      }
    }
  }

  /** Programs depend on parents and children only. */
  lemma {:induction false} SameRelay(sh: Shape, sh': Shape, b: Cut, r: nat, k: nat)
    requires Ranks(sh, r) && Ranks(sh', r) && sh.root == sh'.root && sh.kids[r] == sh'.kids[r]
    requires r != sh.root ==> sh.parent[r] == sh'.parent[r]
    ensures Relay(sh, b, r, k) == Relay(sh', b, r, k) && Forward(sh, b, r, k) == Forward(sh', b, r, k)
  {
    if k > 0 {
      SameRelay(sh, sh', b, r, k - 1);
    }
  }

  /** Two ranks are a chain. */
  lemma TwoRanks(root: nat, blockSize: nat, data: seq<int>)
    requires root < 2 && blockSize > 0 && data != []
    ensures BinaryPlan(2, root, blockSize, data) == Linear.LinearPlan(2, root, blockSize, data)
  {
    hide Relay, Forward, BinaryTree, Linear.Chain;
    var p, p' := BinaryPlan(2, root, blockSize, data), Linear.LinearPlan(2, root, blockSize, data);
    var sh, sh' := BinaryTree(2, root), Linear.Chain(2, root);
    forall r: nat | r < 2
      ensures p.prog[r] == p'.prog[r]
    {
      TreeAt(2, root, r);
      Linear.ChainAt(2, root, r);
      var b := CutOf(|data|, blockSize, false);
      SameRelay(sh, sh', b, r, b.blocks);
    }
    assert p.prog == p'.prog;
  }

  /** The rounds that `m` blocks take; with two ranks the root sends one message a block, with more two. */
  function TotalRounds(size: nat, m: nat): int
    requires size >= 2
  {
    if size == 2 then m else 2 * (m - 1) + LastArrive(size) + 1
  }

  lemma SendsInTime(size: nat, root: nat, blockSize: nat, data: seq<int>, s: nat, op: Op)
    requires root < size && size >= 2 && blockSize > 0 && data != []
    requires Has(BinaryPlan(size, root, blockSize, data), s, op) && op.Send?
    ensures RoundOf(BinaryTree(size, root), CutOf(|data|, blockSize, false))(s, op) <=
      2 * (Blocks(|data|, blockSize) - 1) + LastArrive(size) + 1
  {
    hide Tree, Time, Program, Has, BinaryPlan, BinaryTree, Distance, LastArrive, Arrive;
    var sh, b := BinaryTree(size, root), CutOf(|data|, blockSize, false);
    PlanIsRelay(size, root, blockSize, data);
    TwoStrides(size, root);
    var k := BlockAt(sh, b, data, s, op);
    SendRound(sh, b, s, op, k);
    TreeSize(size, root, op.dst);
    TreeAt(size, root, op.dst);
    DistanceIs(size, root, op.dst);
    TimesIsProduct(2, k);
    var x := LastIs(size);
  }

  lemma LastArrival(size: nat, root: nat, blockSize: nat, data: seq<int>, R: Clock) returns (s: nat, op: Op)
    requires root < size && size >= 3 && blockSize > 0 && data != []
    requires Paced(BinaryPlan(size, root, blockSize, data), R)
    ensures Has(BinaryPlan(size, root, blockSize, data), s, op) && op.Send?
    ensures R(s, op) >= 2 * (Blocks(|data|, blockSize) - 1) + LastArrive(size) + 1
  {
    hide Tree, Time, Program, Has, BinaryPlan, BinaryTree, Distance, RankAt, LastArrive, Arrive, Paced;
    var x := LastIs(size);
    var r, k := RankAt(size, root, x), Blocks(|data|, blockSize) - 1;
    ParentAt(size, root, x);
    PassIs(size, root, blockSize, data, r, k);
    NoFaster(size, root, blockSize, data, R, x, k);
    s, op := BinaryTree(size, root).parent[r], SendOp(CutOf(|data|, blockSize, false), k, r);
  }

  /** `m` blocks take exactly `TotalRounds(size, m)` rounds: the programs run in that many, and no schedule
      needs fewer. */
  lemma ExactRounds(size: nat, root: nat, blockSize: nat, data: seq<int>)
    requires root < size && size >= 2 && blockSize > 0 && data != []
    ensures var p, total := BinaryPlan(size, root, blockSize, data), TotalRounds(size, Blocks(|data|, blockSize));
      (exists R :: LockStep(p, R) && RunsInRounds(p, R) && !SomeSendAt(p, R, total + 1)) &&
      forall R | Paced(p, R) :: SomeSendAt(p, R, total)
  {
    hide Tree, Time, Program, Paced, LockStep, RunsInRounds, Has, BinaryPlan, BinaryTree, LastArrive;
    var p, total := BinaryPlan(size, root, blockSize, data), TotalRounds(size, Blocks(|data|, blockSize));
    if size == 2 {
      TwoRanks(root, blockSize, data);
      Linear.LinearRounds(2, root, blockSize, data);
    } else {
      var sh, b := BinaryTree(size, root), CutOf(|data|, blockSize, false);
      var R0 := RoundOf(sh, b);
      PlanIsRelay(size, root, blockSize, data);
      CutIsWell(|data|, blockSize, false);
      RelaysInLockStep(sh, b, data);
      RelaysRun(sh, b, data);
      forall s: nat, op | Has(p, s, op) && op.Send?
        ensures R0(s, op) <= total
      {
        SendsInTime(size, root, blockSize, data, s, op);
      }
      assert LockStep(p, R0) && RunsInRounds(p, R0) && !SomeSendAt(p, R0, total + 1);
      forall R | Paced(p, R)
        ensures SomeSendAt(p, R, total)
      {
        var s, op := LastArrival(size, root, blockSize, data, R);
      }
    }
  }

  // ------------------------------------------------------------ the messages

  /** The messages of the binary tree: every rank sends each block, with its offset as the tag, to the ranks
      at twice its distance from the root plus one and plus two, as far as there are any, and nothing else. */
  lemma Messages(size: nat, root: nat, blockSize: nat, data: seq<int>, s: nat, op: Op)
    requires root < size && blockSize > 0 && data != [] && s < size
    ensures op.Send? && Has(BinaryPlan(size, root, blockSize, data), s, op) <==>
      op.Send? && IsChild(size, root, (s + size - root) % size, op.dst) &&
      exists k: nat :: SendsBlock(op, |data|, blockSize, k, op.dst)
  {
    hide Tree, BinaryTree, Program, Blocks, Off, Len, Has, PlanOf, BinaryPlan, IsChild, KidsOf;
    var sh, b, p := BinaryTree(size, root), CutOf(|data|, blockSize, false), BinaryPlan(size, root, blockSize, data);
    PlanIsRelay(size, root, blockSize, data);
    TreeAt(size, root, s);
    if op.Send? {
      KidsAre(size, root, Distance(size, root, s), op.dst);
      if Has(p, s, op) {
        var k := BlockAt(sh, b, data, s, op);
        BlockInside(|data|, blockSize, k);
        assert SendsBlock(op, |data|, blockSize, k, op.dst);
      }
      if k: nat :| SendsBlock(op, |data|, blockSize, k, op.dst) {
        BlockInside(|data|, blockSize, k);
        if op.dst in KidsOf(size, root, Distance(size, root, s)) {
          HasAt(sh, b, data, s, op, k);
        }
      }
    }
  }

  /** Rank `c` is at twice the distance `x` plus one or plus two from the root. */
  predicate IsChild(size: nat, root: nat, x: nat, c: nat)
    requires size > 0
  {
    (2 * x + 1 < size && c == (root + 2 * x + 1) % size) || (2 * x + 2 < size && c == (root + 2 * x + 2) % size)
  }

  lemma KidsAre(size: nat, root: nat, x: nat, c: nat)
    requires root < size
    ensures c in KidsOf(size, root, x) <==> IsChild(size, root, x, c)
  {
  }

  lemma KidIn(size: nat, root: nat, x: nat, y: nat)
    requires root < size && 0 < y < size && (y - 1) / 2 == x
    ensures (root + y) % size in KidsOf(size, root, x)
  {
    assert y == 2 * x + 1 || y == 2 * x + 2;
  }

  /** A rank sends a block on after its receive has returned, while the receive of the next block is
      posted. */
  lemma Overlaps(size: nat, root: nat, blockSize: nat, data: seq<int>, s: nat, y: nat, k: nat)
    requires root < size && s < size && s != root && 0 < y < size && (y - 1) / 2 == (s + size - root) % size
    requires blockSize > 0 && (k + 1) * blockSize < |data|
    ensures var p, x := BinaryPlan(size, root, blockSize, data), (s + size - root) % size;
      var c, parent := (root + y) % size, (root + (x - 1) / 2) % size;
      var i, j := k * blockSize, (k + 1) * blockSize;
      var send := Send(i, blockSize, c, i);
      Before(p, s, Wait(parent, i), send) && Before(p, s, send, Wait(parent, j)) &&
      Before(p, s, Post(j, Min(blockSize, |data| - j), parent, j), send)
  {
    hide Tree, BinaryTree, Program, Blocks, Off, Len, PlanOf, BinaryPlan, Before;
    var sh, b, x := BinaryTree(size, root), CutOf(|data|, blockSize, false), Distance(size, root, s);
    PlanIsRelay(size, root, blockSize, data);
    DistanceIs(size, root, s);
    TreeAt(size, root, s);
    KidIn(size, root, x, y);
    BlockInside(|data|, blockSize, k);
    BlockInside(|data|, blockSize, k + 1);
    assert (k + 1) * blockSize == k * blockSize + blockSize;
    PostsAhead(sh, b, data, s, (root + y) % size, k);
  }
}
