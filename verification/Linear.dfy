/** The pipelined chain: each rank passes every block on to the next. */
module Linear {
  import opened Mpi
  import opened Certificate
  import opened Pipeline
  import opened Rounds
  import opened Seqs

  function NextRank(size: nat, rank: nat): nat
    requires size > 0
  {
    (rank + 1) % size
  }

  function PrevRank(size: nat, rank: nat): nat
    requires size > 0
  {
    (rank + size - 1) % size
  }

  lemma Neighbours(size: nat, root: nat, rank: nat)
    requires root < size && rank < size
    ensures NextRank(size, rank) < size && PrevRank(size, rank) < size
    ensures NextRank(size, PrevRank(size, rank)) == rank == PrevRank(size, NextRank(size, rank))
    ensures Distance(size, root, rank) < size
    ensures Distance(size, root, rank) == size - 1 <==> rank == PrevRank(size, root)
    ensures Distance(size, root, rank) == 0 <==> rank == root
    ensures rank != PrevRank(size, root) ==>
      Distance(size, root, NextRank(size, rank)) == Distance(size, root, rank) + 1
  {
    ModOnce(rank + 1, size);
    DistanceIs(size, root, rank);
    DistanceIs(size, root, NextRank(size, rank));
    ModOnce(rank + size - 1, size);
    ModOnce(root + size - 1, size);
    ModOnce(PrevRank(size, rank) + 1, size);
    ModOnce(NextRank(size, rank) + size - 1, size);
  }

  predicate Middle(size: nat, root: nat, rank: nat)
    requires root < size
  {
    rank != root && rank != PrevRank(size, root)
  }

  /** The chain as a tree of ranks. */
  function Chain(size: nat, root: nat): Shape
    requires root < size
  {
    Shape(root,
          seq(size, r requires 0 <= r < size => PrevRank(size, r)),
          seq(size, r requires 0 <= r < size =>
            if r == PrevRank(size, root) && r != root then [] else [NextRank(size, r)]),
          seq(size, r requires 0 <= r < size => Distance(size, root, r) - 1),
          1)
  }

  /** The operations of one rank. */
  function Ops(size: nat, root: nat, count: nat, blockSize: nat, rank: nat): seq<Op>
    requires root < size && rank < size && blockSize > 0
  {
    Program(Chain(size, root), CutOf(count, blockSize, Middle(size, root, rank)), rank)
  }

  lemma ChainAt(size: nat, root: nat, r: nat)
    requires root < size && r < size
    ensures var sh := Chain(size, root);
      Ranks(sh, r) && sh.root == root && sh.parent[r] == PrevRank(size, r) &&
      sh.kids[r] == (if r == PrevRank(size, root) && r != root then [] else [NextRank(size, r)])
  {
  }

  lemma RootTurn(size: nat, root: nat, b: Cut, k: nat, calls: seq<Call>, c: Call)
    requires root < size && Ranks(Chain(size, root), root) && LowerAll(calls) == Relay(Chain(size, root), b, root, k)
    requires c == CallSend(Off(b, k), Len(b, k), NextRank(size, root), Off(b, k)) && b.base == 0
    ensures LowerAll(calls + [c]) == Relay(Chain(size, root), b, root, k + 1)
  {
    hide Chain, LowerAll, Off, Len;
    ChainAt(size, root, root);
    Append(calls, c);
    assert Turn(Chain(size, root), b, root, k) == [SendOp(b, k, NextRank(size, root))];
  }

  lemma LastTurn(size: nat, root: nat, b: Cut, k: nat, calls: seq<Call>, c: Call, rank: nat)
    requires root < size && rank == PrevRank(size, root) < size && rank != root
    requires Ranks(Chain(size, root), rank) && LowerAll(calls) == Relay(Chain(size, root), b, rank, k)
    requires c == CallRecv(Off(b, k), Len(b, k), PrevRank(size, rank), Off(b, k)) && b.base == 0
    ensures LowerAll(calls + [c]) == Relay(Chain(size, root), b, rank, k + 1)
  {
    hide Chain, LowerAll, Off, Len;
    ChainAt(size, root, rank);
    Append(calls, c);
    assert Forward(Chain(size, root), b, rank, k) == [];
  }

  lemma MiddleFirst(size: nat, root: nat, b: Cut, c: Call, rank: nat)
    requires root < size && rank < size && Middle(size, root, rank) && Ranks(Chain(size, root), rank)
    requires c == CallRecv(0, Len(b, 0), PrevRank(size, rank), 0) && b.base == 0
    ensures LowerAll([c]) == Relay(Chain(size, root), b, rank, 1)
  {
    hide Chain, Len;
    ChainAt(size, root, rank);
    Append([], c);
    assert [] + [c] == [c];
    assert Relay(Chain(size, root), b, rank, 0) == [];
  }

  lemma MiddleTurn(size: nat, root: nat, b: Cut, k: nat, calls: seq<Call>, c: Call, rank: nat)
    requires root < size && rank < size && Middle(size, root, rank) && k > 0
    requires Ranks(Chain(size, root), rank) && LowerAll(calls) == Relay(Chain(size, root), b, rank, k)
    requires b.base == 0 && c == CallSendrecv(Off(b, k - 1), Len(b, k - 1), NextRank(size, rank), Off(b, k - 1),
                                              Off(b, k), Len(b, k), PrevRank(size, rank), Off(b, k))
    ensures LowerAll(calls + [c]) == Relay(Chain(size, root), b, rank, k + 1)
  {
    hide Chain, LowerAll, Off, Len, Turn;
    ChainAt(size, root, rank);
    Append(calls, c);
    OneKidTurn(Chain(size, root), b, rank, k, NextRank(size, rank));
  }

  lemma MiddleEnd(size: nat, root: nat, b: Cut, calls: seq<Call>, c: Call, rank: nat)
    requires root < size && rank < size && Middle(size, root, rank) && b.blocks > 0
    requires Ranks(Chain(size, root), rank) && LowerAll(calls) == Relay(Chain(size, root), b, rank, b.blocks)
    requires b.base == 0
    requires c == CallSend(Off(b, b.blocks - 1), Len(b, b.blocks - 1), NextRank(size, rank), Off(b, b.blocks - 1))
    ensures LowerAll(calls + [c]) == Program(Chain(size, root), b, rank)
  {
    hide Chain, LowerAll, Off, Len, Relay;
    ChainAt(size, root, rank);
    Append(calls, c);
    assert Forward(Chain(size, root), b, rank, b.blocks) == [SendOp(b, b.blocks - 1, NextRank(size, rank))];
  }

  lemma LastEnd(size: nat, root: nat, b: Cut, rank: nat)
    requires root < size && rank == PrevRank(size, root) < size && Ranks(Chain(size, root), rank)
    ensures Program(Chain(size, root), b, rank) == Relay(Chain(size, root), b, rank, b.blocks)
  {
    hide Chain, Off, Len, Relay;
    ChainAt(size, root, rank);
    assert rank != root ==> Forward(Chain(size, root), b, rank, b.blocks) == [];
  }

  lemma RootIsFree(size: nat, root: nat)
    requires root < size
    ensures !Middle(size, root, root) && !Middle(size, root, PrevRank(size, root)) && PrevRank(size, root) < size
  {
    ModOnce(root + size - 1, size);
  }

  /** The calls `bcast_linear` makes at one rank. */
  method BcastLinear(rank: nat, size: nat, root: nat, count: nat, blockSize: nat) returns (calls: seq<Call>)
    requires rank < size && root < size && blockSize > 0
    ensures LowerAll(calls) == Ops(size, root, count, blockSize, rank)
  {
    hide Relay, LowerAll, Forward, Chain, Times, Blocks;
    var next := (rank + 1) % size;
    var prev := (rank + size - 1) % size;
    var last := (root + size - 1) % size;
    RootIsFree(size, root);
    ChainAt(size, root, rank);
    ghost var sh, b, k := Chain(size, root), CutOf(count, blockSize, Middle(size, root, rank)), 0;
    calls := [];
    NoTurns(sh, b, rank);
    FirstVisit(b);
    if rank == root {
      var i := 0;
      while i < count
        invariant Visits(b, i, k) && (k > 0 ==> count > 0)
        invariant LowerAll(calls) == Relay(sh, b, rank, k)
      {
        var n := Min(blockSize, count - i);
        RootTurn(size, root, b, k, calls, CallSend(i, n, next, i));
        calls := calls + [CallSend(i, n, next, i)];
        NextVisit(b, i, k);
        i := i + blockSize;
        k := k + 1;
      }
      LastVisit(count, blockSize, false, i, k);
    } else if rank == last {
      var i := 0;
      while i < count
        invariant Visits(b, i, k) && (k > 0 ==> count > 0)
        invariant LowerAll(calls) == Relay(sh, b, rank, k)
      {
        var n := Min(blockSize, count - i);
        LastTurn(size, root, b, k, calls, CallRecv(i, n, prev, i), rank);
        calls := calls + [CallRecv(i, n, prev, i)];
        NextVisit(b, i, k);
        i := i + blockSize;
        k := k + 1;
      }
      LastVisit(count, blockSize, false, i, k);
      LastEnd(size, root, b, rank);
    } else {
      var n := Min(blockSize, count);
      MiddleFirst(size, root, b, CallRecv(0, n, prev, 0), rank);
      calls := [CallRecv(0, n, prev, 0)];
      var lastI, lastN := 0, n;
      var i := blockSize;
      k := 1;
      while i < count
        invariant Visits(b, i, k) && k > 0
        invariant lastI == Off(b, k - 1) && lastN == Len(b, k - 1)
        invariant LowerAll(calls) == Relay(sh, b, rank, k)
      {
        n := Min(blockSize, count - i);
        MiddleTurn(size, root, b, k, calls, CallSendrecv(lastI, lastN, next, lastI, i, n, prev, i), rank);
        calls := calls + [CallSendrecv(lastI, lastN, next, lastI, i, n, prev, i)];
        lastI := i;
        lastN := n;
        NextVisit(b, i, k);
        i := i + blockSize;
        k := k + 1;
      }
      LastVisit(count, blockSize, true, i, k);
      MiddleEnd(size, root, b, calls, CallSend(lastI, lastN, next, lastI), rank);
      calls := calls + [CallSend(lastI, lastN, next, lastI)];
    }
  }

  // ----------------------------------------------------------------- theorems

  ghost function LinearPlan(size: nat, root: nat, blockSize: nat, data: seq<int>): Plan
    requires root < size && blockSize > 0
  {
    Plan(seq(size, r requires 0 <= r < size => Ops(size, root, |data|, blockSize, r)), root, data)
  }

  lemma ChainIsTree(size: nat, root: nat)
    requires root < size && size >= 2
    ensures Tree(Chain(size, root))
  {
    hide Distance;
    var sh := Chain(size, root);
    Neighbours(size, root, root);
    forall r: nat | r < size
      ensures KidsInTurn(sh, r)
      ensures r != root ==> sh.arrive[r] >= 0 && Ranks(sh, sh.parent[r]) && r in sh.kids[sh.parent[r]]
    {
      Neighbours(size, root, r);
      Neighbours(size, root, PrevRank(size, r));
      Neighbours(size, root, NextRank(size, r));
    }
  }

  lemma PlanIsRelay(size: nat, root: nat, blockSize: nat, data: seq<int>)
    requires root < size && size >= 2 && blockSize > 0
    requires |data| > 0 || size == 2
    ensures Tree(Chain(size, root))
    ensures LinearPlan(size, root, blockSize, data) == PlanOf(Chain(size, root), CutOf(|data|, blockSize, false), data)
  {
    hide Program, Tree;
    ChainIsTree(size, root);
    var p := LinearPlan(size, root, blockSize, data);
    var p' := PlanOf(Chain(size, root), CutOf(|data|, blockSize, false), data);
    forall r: nat | r < size
      ensures p.prog[r] == p'.prog[r]
    {
      Neighbours(size, root, root);
    }
    assert p.prog == p'.prog;
  }

  /** The pipelined chain broadcasts, in every run and whatever is buffered, exactly when the root has
      another rank to send to and, if the buffer is empty, no rank stands between first and last. */
  lemma LinearDelivers(size: nat, root: nat, blockSize: nat, data: seq<int>)
    requires root < size && blockSize > 0
    ensures Delivers(LinearPlan(size, root, blockSize, data)) <==> if |data| > 0 then size >= 2 else size <= 2
  {
    var p := LinearPlan(size, root, blockSize, data);
    if size >= 2 && (|data| > 0 || size == 2) {
      PlanIsRelay(size, root, blockSize, data);
      CutIsWell(|data|, blockSize, false);
      PlanCertified(Chain(size, root), CutOf(|data|, blockSize, false), data);
      CertifiedDelivers(p, ClockOf(Chain(size, root), CutOf(|data|, blockSize, false)));
    } else if size >= 3 {
      EmptyStarves(size, root, blockSize);
    } else {
      LoneRoot(size, root, blockSize, data);
    }
  }

  lemma EmptyStarves(size: nat, root: nat, blockSize: nat)
    requires root < size && size >= 3 && blockSize > 0
    ensures !Delivers(LinearPlan(size, root, blockSize, []))
  {
    hide Delivers;
    var p := LinearPlan(size, root, blockSize, []);
    forall r: nat | r < size
      ensures if Middle(size, root, r) then |p.prog[r]| >= 2 && p.prog[r][0].Post? && p.prog[r][1].Wait?
        else p.prog[r] == []
    {
      EmptyOps(size, root, blockSize, r);
    }
    Neighbours(size, root, root);
    Neighbours(size, root, NextRank(size, root));
    assert Middle(size, root, NextRank(size, root));
    Starves(p, NextRank(size, root));
  }

  lemma EmptyOps(size: nat, root: nat, blockSize: nat, r: nat)
    requires root < size && r < size && size >= 2 && blockSize > 0
    ensures var ops := Ops(size, root, 0, blockSize, r);
      if Middle(size, root, r) then |ops| >= 2 && ops[0].Post? && ops[1].Wait? else ops == []
  {
    var sh, b := Chain(size, root), CutOf(0, blockSize, Middle(size, root, r));
    if Middle(size, root, r) {
      assert Relay(sh, b, r, 0) == [] && Forward(sh, b, r, 0) == [];
      assert Relay(sh, b, r, 1) == [PostOp(sh, b, r, 0), WaitOp(sh, b, r, 0)];
    }
  }

  lemma LoneRoot(size: nat, root: nat, blockSize: nat, data: seq<int>)
    requires root < size == 1 && blockSize > 0
    ensures Delivers(LinearPlan(size, root, blockSize, data)) <==> data == []
  {
    hide Delivers;
    var p := LinearPlan(size, root, blockSize, data);
    var sh, b := Chain(size, root), CutOf(|data|, blockSize, false);
    assert sh.kids[0] == [0];
    if data == [] {
      assert p.prog[0] == [];
      NothingToDo(p);
    } else {
      FirstOp(sh, b, b.blocks);
      SendsToItself(p);
    }
  }

  lemma NothingToDo(p: Plan)
    requires p.root < |p.prog| && p.data == [] && forall r: nat | r < |p.prog| :: p.prog[r] == []
    ensures Delivers(p)
  {
    var T: Clock := (r: nat, op: Op) => 0;
    assert forall r: nat, op :: !Has(p, r, op);
    assert Ordered(p, T);
    assert SendsMeet(p, T) && PostsMeet(p) && WaitsMeet(p) && KeysUnique(p);
    CertifiedDelivers(p, T);
  }

  lemma {:induction false} FirstOp(sh: Shape, b: Cut, k: nat)
    requires Ranks(sh, sh.root) && k > 0 && sh.kids[sh.root] == [0]
    ensures Relay(sh, b, sh.root, k) != [] && Relay(sh, b, sh.root, k)[0] == SendOp(b, 0, 0)
  {
    if k > 1 {
      FirstOp(sh, b, k - 1);
    } else {
      assert Relay(sh, b, sh.root, 0) == [] && Turn(sh, b, sh.root, 0) == [SendOp(b, 0, 0)];
    }
  }

  // ------------------------------------------------------------------- rounds

  /** The send of block `k` to the next rank. */
  function Pass(size: nat, b: Cut, rank: nat, k: nat): Op
    requires size > 0
  {
    SendOp(b, k, NextRank(size, rank))
  }

  /** In lock step, block `k` (from 0) reaches the rank at distance `d` in round `k + d`, and the programs
      run that way. */
  lemma ReachesInRound(size: nat, root: nat, blockSize: nat, data: seq<int>, rank: nat, k: nat)
    requires root < size && size >= 2 && blockSize > 0 && data != []
    requires rank < size && rank != root && k < Blocks(|data|, blockSize)
    ensures var p, b := LinearPlan(size, root, blockSize, data), CutOf(|data|, blockSize, false);
      var R := RoundOf(Chain(size, root), b);
      LockStep(p, R) && RunsInRounds(p, R) && Has(p, PrevRank(size, rank), Pass(size, b, PrevRank(size, rank), k)) &&
      Pass(size, b, PrevRank(size, rank), k).dst == rank &&
      R(PrevRank(size, rank), Pass(size, b, PrevRank(size, rank), k)) == k + Distance(size, root, rank)
  {
    hide Tree, Distance, Time, Program, Paced, LockStep, RunsInRounds, Has;
    PlanIsRelay(size, root, blockSize, data);
    CutIsWell(|data|, blockSize, false);
    RelaysInLockStep(Chain(size, root), CutOf(|data|, blockSize, false), data);
    RelaysRun(Chain(size, root), CutOf(|data|, blockSize, false), data);
    PassIs(size, root, blockSize, data, rank, k);
  }

  /** No schedule is faster, even one that asks nothing of the receivers. */
  lemma {:induction false} NoFaster(size: nat, root: nat, blockSize: nat, data: seq<int>, R: Clock, rank: nat, k: nat)
    requires root < size && size >= 2 && blockSize > 0 && data != []
    requires rank < size && rank != root && k < Blocks(|data|, blockSize)
    requires Paced(LinearPlan(size, root, blockSize, data), R)
    ensures var b := CutOf(|data|, blockSize, false);
      R(PrevRank(size, rank), Pass(size, b, PrevRank(size, rank), k)) >= k + Distance(size, root, rank)
    decreases k + Distance(size, root, rank)
  {
    hide Tree, Distance, Time, Program, Paced, LockStep, RunsInRounds, Has, Before, LinearPlan, Chain;
    var p, sh, b := LinearPlan(size, root, blockSize, data), Chain(size, root), CutOf(|data|, blockSize, false);
    var s := PrevRank(size, rank);
    Neighbours(size, root, rank);
    Neighbours(size, root, root);
    Neighbours(size, root, s);
    PassIs(size, root, blockSize, data, rank, k);
    if k > 0 {
      NoFaster(size, root, blockSize, data, R, rank, k - 1);
      PassIs(size, root, blockSize, data, rank, k - 1);
      PlanIsRelay(size, root, blockSize, data);
      BeforeInTime(sh, b, data, s, Pass(size, b, s, k - 1), Pass(size, b, s, k));
      Later(p, R, s, Pass(size, b, s, k - 1), Pass(size, b, s, k));
    } else if s != root {
      NoFaster(size, root, blockSize, data, R, s, k);
      PlanIsRelay(size, root, blockSize, data);
      ChainAt(size, root, s);
      HasAt(sh, b, data, s, PostOp(sh, b, s, k), k);
      AfterReceipt(p, R, s, Pass(size, b, s, k), PostOp(sh, b, s, k));
    } else {
      AtLeastOne(p, R, s, Pass(size, b, s, k));
    }
  }

  lemma PassIs(size: nat, root: nat, blockSize: nat, data: seq<int>, rank: nat, k: nat)
    requires root < size && size >= 2 && blockSize > 0 && data != []
    requires rank < size && rank != root && k < Blocks(|data|, blockSize)
    ensures var p, sh, b := LinearPlan(size, root, blockSize, data), Chain(size, root), CutOf(|data|, blockSize, false);
      var s := PrevRank(size, rank);
      Has(p, s, Pass(size, b, s, k)) && Pass(size, b, s, k).dst == rank &&
      Time(sh, b, s, Pass(size, b, s, k)) == 3 * (Distance(size, root, rank) - 1 + k) + 1
  {
    hide Tree, Distance, Time, Program, Has;
    var sh, b := Chain(size, root), CutOf(|data|, blockSize, false);
    PlanIsRelay(size, root, blockSize, data);
    Neighbours(size, root, rank);
    Neighbours(size, root, root);
    Neighbours(size, root, PrevRank(size, rank));
    HasAt(sh, b, data, PrevRank(size, rank), Pass(size, b, PrevRank(size, rank), k), k);
    SendRound(sh, b, PrevRank(size, rank), Pass(size, b, PrevRank(size, rank), k), k);
    TimesIsProduct(1, k);
  }

  lemma ChainSize(size: nat, root: nat, r: nat)
    requires root < size
    ensures Ranks(Chain(size, root), r) <==> r < size
  {
  }

  lemma SendsInTime(size: nat, root: nat, blockSize: nat, data: seq<int>, s: nat, op: Op)
    requires root < size && size >= 2 && blockSize > 0 && data != []
    requires Has(LinearPlan(size, root, blockSize, data), s, op) && op.Send?
    ensures RoundOf(Chain(size, root), CutOf(|data|, blockSize, false))(s, op) <= Blocks(|data|, blockSize) + size - 2
  {
    hide Tree, Distance, Time, Program, Paced, LockStep, RunsInRounds, Has, LinearPlan, Chain;
    PlanIsRelay(size, root, blockSize, data);
    var k := BlockAt(Chain(size, root), CutOf(|data|, blockSize, false), data, s, op);
    ChainSize(size, root, s);
    ChainAt(size, root, s);
    Neighbours(size, root, s);
    Neighbours(size, root, op.dst);
    if op.dst == root {
      Neighbours(size, root, root);
    }
    ReachesInRound(size, root, blockSize, data, op.dst, k);
  }

  lemma LastArrival(size: nat, root: nat, blockSize: nat, data: seq<int>, R: Clock) returns (s: nat, op: Op)
    requires root < size && size >= 2 && blockSize > 0 && data != []
    requires Paced(LinearPlan(size, root, blockSize, data), R)
    ensures Has(LinearPlan(size, root, blockSize, data), s, op) && op.Send?
    ensures R(s, op) >= Blocks(|data|, blockSize) + size - 2
  {
    hide Tree, Distance, Time, Program, Paced, LockStep, RunsInRounds, Has, LinearPlan, Chain, NextRank, PrevRank;
    var last, k := PrevRank(size, root), Blocks(|data|, blockSize) - 1;
    Neighbours(size, root, root);
    Neighbours(size, root, last);
    s := PrevRank(size, last);
    op := Pass(size, CutOf(|data|, blockSize, false), s, k);
    PassIs(size, root, blockSize, data, last, k);
    NoFaster(size, root, blockSize, data, R, last, k);
  }

  /** `m` blocks take exactly `m + size - 2` rounds: the programs run in that many, and no schedule needs
      fewer. */
  lemma LinearRounds(size: nat, root: nat, blockSize: nat, data: seq<int>)
    requires root < size && size >= 2 && blockSize > 0 && data != []
    ensures var p, total := LinearPlan(size, root, blockSize, data), Blocks(|data|, blockSize) + size - 2;
      (exists R :: LockStep(p, R) && RunsInRounds(p, R) && !SomeSendAt(p, R, total + 1)) &&
      forall R | Paced(p, R) :: SomeSendAt(p, R, total)
  {
    hide Tree, Distance, Time, Program, Paced, LockStep, RunsInRounds, Has, LinearPlan, Chain;
    var p, total := LinearPlan(size, root, blockSize, data), Blocks(|data|, blockSize) + size - 2;
    var sh, b := Chain(size, root), CutOf(|data|, blockSize, false);
    var R0 := RoundOf(sh, b);
    PlanIsRelay(size, root, blockSize, data);
    CutIsWell(|data|, blockSize, false);
    RelaysInLockStep(sh, b, data);
    RelaysRun(sh, b, data);
    forall s: nat, op | Has(p, s, op) && op.Send?
      ensures R0(s, op) <= total
    {
      SendsInTime(size, root, blockSize, data, s, op);
    }
    assert LockStep(p, R0) && RunsInRounds(p, R0) && !SomeSendAt(p, R0, total + 1);
    forall R | Paced(p, R)
      ensures SomeSendAt(p, R, total)
    {
      var s, op := LastArrival(size, root, blockSize, data, R);
    }
  }

  /** In every run of the chain a rank holds whole leading blocks of the root's data, sends only those,
      and sends nothing that it is receiving into. */
  lemma LinearSafe(size: nat, root: nat, blockSize: nat, data: seq<int>, run: seq<State>, st: State, r: nat)
    requires root < size && size >= 2 && blockSize > 0 && data != []
    requires Run(LinearPlan(size, root, blockSize, data), run) && st in run && r < size
    ensures var p := LinearPlan(size, root, blockSize, data);
      Fits(p, run[0]) && Fits(p, st) &&
      Ranks(Chain(size, root), r) &&
      (r != root ==>
        HoldsCompleted(Chain(size, root), CutOf(|data|, blockSize, false), p, run[0].ranks[r].buf, st, r)) &&
      forall op: Op | op.Send? && Current(p, st, r, op) ::
        op.off + op.len <= |data| && st.ranks[r].buf[op.off..op.off + op.len] == data[op.off..op.off + op.len] &&
        forall q | Receiving(p, st, r, q) :: !Overlap(op, q)
  {
    hide Tree, Run, LinearPlan, Fits, Current, Receiving, HoldsCompleted;
    PlanIsRelay(size, root, blockSize, data);
    CutIsWell(|data|, blockSize, false);
    ChainAt(size, root, r);
    RelaysSafely(Chain(size, root), CutOf(|data|, blockSize, false), data, run, st, r);
  }

  // ------------------------------------------------------------ the messages

  /** The messages of the chain: every rank but the last sends each block, with its offset as the tag, to
      the next rank, and nothing else. */
  lemma Messages(size: nat, root: nat, blockSize: nat, data: seq<int>, s: nat, op: Op)
    requires root < size && size >= 2 && blockSize > 0 && data != [] && s < size
    ensures op.Send? && Has(LinearPlan(size, root, blockSize, data), s, op) <==>
      op.Send? && s != (root + size - 1) % size && op.dst == (s + 1) % size &&
      exists k: nat :: SendsBlock(op, |data|, blockSize, k, op.dst)
  {
    hide Tree, Chain, Program, Blocks, Off, Len, Has, PlanOf, LinearPlan;
    var sh, b, p := Chain(size, root), CutOf(|data|, blockSize, false), LinearPlan(size, root, blockSize, data);
    PlanIsRelay(size, root, blockSize, data);
    ChainAt(size, root, s);
    Neighbours(size, root, root);
    if op.Send? && Has(p, s, op) {
      var k := BlockAt(sh, b, data, s, op);
      BlockInside(|data|, blockSize, k);
      assert SendsBlock(op, |data|, blockSize, k, op.dst);
    }
    if op.Send? && s != (root + size - 1) % size && op.dst == (s + 1) % size {
      if k: nat :| SendsBlock(op, |data|, blockSize, k, op.dst) {
        BlockInside(|data|, blockSize, k);
        HasAt(sh, b, data, s, op, k);
      }
    }
  }

  /** A rank in the middle sends a block on after its receive has returned, while the receive of the next
      block is posted. */
  lemma Overlaps(size: nat, root: nat, blockSize: nat, data: seq<int>, s: nat, k: nat)
    requires root < size && s < size && s != root && s != (root + size - 1) % size
    requires blockSize > 0 && (k + 1) * blockSize < |data|
    ensures var p, next, prev := LinearPlan(size, root, blockSize, data), (s + 1) % size, (s + size - 1) % size;
      var i, j := k * blockSize, (k + 1) * blockSize;
      var send := Send(i, blockSize, next, i);
      Before(p, s, Wait(prev, i), send) && Before(p, s, send, Wait(prev, j)) &&
      Before(p, s, Post(j, Min(blockSize, |data| - j), prev, j), send)
  {
    hide Tree, Chain, Program, Blocks, Off, Len, PlanOf, LinearPlan, Before;
    var sh, b := Chain(size, root), CutOf(|data|, blockSize, false);
    PlanIsRelay(size, root, blockSize, data);
    ChainAt(size, root, s);
    BlockInside(|data|, blockSize, k);
    BlockInside(|data|, blockSize, k + 1);
    assert (k + 1) * blockSize == k * blockSize + blockSize;
    PostsAhead(sh, b, data, s, NextRank(size, s), k);
  }
}
