/** Message passing as the broadcasts use it, as a system of steps over one program per rank.

    A blocking send may return only once the message has been matched by a posted receive, or once
    the system has chosen to buffer it (MPI 3.1, sections 3.4 and 3.5).  A receive call is a post
    followed by a wait; `MPI_Sendrecv` runs its two halves concurrently (section 3.10), which is a
    post, a send and a wait.  Receives are matched by source and tag; no modelled program
    receives from its own rank or sends two messages with the same destination and tag. */
module Mpi {
  /** The MPI calls of the broadcast functions, with buffer offset and length. */
  datatype Call =
    | CallSend(off: nat, len: nat, dst: nat, tag: int)
    | CallRecv(off: nat, len: nat, src: nat, tag: int)
    | CallIrecv(off: nat, len: nat, src: nat, tag: int)
    | CallWait(src: nat, tag: int)
    | CallSendrecv(soff: nat, slen: nat, dst: nat, stag: int, roff: nat, rlen: nat, src: nat, rtag: int)

  /** The operations they consist of.  A wait names its request by source and tag. */
  datatype Op =
    | Post(off: nat, len: nat, src: nat, tag: int)
    | Send(off: nat, len: nat, dst: nat, tag: int)
    | Wait(src: nat, tag: int)

  function Lower(c: Call): seq<Op> {
    match c
    case CallSend(off, len, dst, tag) => [Send(off, len, dst, tag)]
    case CallRecv(off, len, src, tag) => [Post(off, len, src, tag), Wait(src, tag)]
    case CallIrecv(off, len, src, tag) => [Post(off, len, src, tag)]
    case CallWait(src, tag) => [Wait(src, tag)]
    case CallSendrecv(soff, slen, dst, stag, roff, rlen, src, rtag) =>
      [Post(roff, rlen, src, rtag), Send(soff, slen, dst, stag), Wait(src, rtag)]
  }

  function LowerAll(cs: seq<Call>): seq<Op> {
    if cs == [] then [] else LowerAll(cs[..|cs| - 1]) + Lower(cs[|cs| - 1])
  }

  lemma Append(calls: seq<Call>, c: Call)
    ensures LowerAll(calls + [c]) == LowerAll(calls) + Lower(c)
  {
    assert (calls + [c])[..|calls|] == calls;
  }

  /** One rank: the next operation, whether the current send has been matched or buffered, the
      receives that have completed, and the buffer. */
  datatype Rank = Rank(pc: nat, sent: bool, got: set<(nat, int)>, buf: seq<int>)

  /** The ranks, and the buffered messages in flight by source, destination and tag. */
  datatype State = State(ranks: seq<Rank>, net: map<(nat, nat, int), seq<int>>)

  /** A program for every rank, the root, and the root's data. */
  datatype Plan = Plan(prog: seq<seq<Op>>, root: nat, data: seq<int>)

  // -------------------------------------------------------------------- steps

  predicate Fits(p: Plan, st: State) {
    |st.ranks| == |p.prog| &&
    forall r :: 0 <= r < |p.prog| ==>
      st.ranks[r].pc <= |p.prog[r]| && |st.ranks[r].buf| == |p.data| &&
      (st.ranks[r].sent ==> st.ranks[r].pc < |p.prog[r]| && p.prog[r][st.ranks[r].pc].Send?)
  }

  predicate Done(p: Plan, st: State, r: nat, op: Op)
    requires Fits(p, st) && r < |p.prog|
  {
    op in p.prog[r][..st.ranks[r].pc]
  }

  predicate Current(p: Plan, st: State, r: nat, op: Op)
    requires Fits(p, st) && r < |p.prog|
  {
    st.ranks[r].pc < |p.prog[r]| && p.prog[r][st.ranks[r].pc] == op
  }

  function Overwrite(buf: seq<int>, off: nat, data: seq<int>): (r: seq<int>)
    requires off + |data| <= |buf|
    ensures |r| == |buf|
    ensures forall x :: 0 <= x < |buf| ==> r[x] == if off <= x < off + |data| then data[x - off] else buf[x]
  {
    buf[..off] + data + buf[off + |data|..]
  }

  function Advance(k: Rank): Rank {
    k.(pc := k.pc + 1, sent := false)
  }

  function Receive(k: Rank, q: Op, data: seq<int>): Rank
    requires q.Post? && q.off + |data| <= |k.buf|
  {
    k.(got := k.got + {(q.src, q.tag)}, buf := Overwrite(k.buf, q.off, data))
  }

  /** A posted receive that has not completed. */
  predicate Waiting(p: Plan, st: State, d: nat, q: Op)
    requires Fits(p, st) && d < |p.prog|
  {
    q.Post? && Done(p, st, d, q) && (q.src, q.tag) !in st.ranks[d].got
  }

  /** Rank `r` posts a receive. */
  predicate StepPost(p: Plan, st: State, st': State, r: nat, op: Op)
    requires Fits(p, st)
  {
    r < |p.prog| && op.Post? && Current(p, st, r, op) &&
    st' == st.(ranks := st.ranks[r := Advance(st.ranks[r])])
  }

  /** The current send of `s` meets the posted receive `q` of its destination. */
  predicate StepMatch(p: Plan, st: State, st': State, s: nat, op: Op, q: Op)
    requires Fits(p, st)
  {
    s < |p.prog| && op.Send? && Current(p, st, s, op) && !st.ranks[s].sent &&
    op.dst < |p.prog| && op.dst != s && Waiting(p, st, op.dst, q) && q.src == s && q.tag == op.tag &&
    op.off + op.len <= |p.data| && q.off + op.len <= |p.data| &&
    var data := st.ranks[s].buf[op.off..op.off + op.len];
    st' == st.(ranks := st.ranks[s := st.ranks[s].(sent := true)]
                                [op.dst := Receive(st.ranks[op.dst], q, data)])
  }

  /** The system buffers the current send of `s`. */
  predicate StepBuffer(p: Plan, st: State, st': State, s: nat, op: Op)
    requires Fits(p, st)
  {
    s < |p.prog| && op.Send? && Current(p, st, s, op) && !st.ranks[s].sent && op.off + op.len <= |p.data| &&
    var data := st.ranks[s].buf[op.off..op.off + op.len];
    st' == st.(ranks := st.ranks[s := st.ranks[s].(sent := true)], net := st.net[(s, op.dst, op.tag) := data])
  }

  /** The current send of `s` returns. */
  predicate StepReturn(p: Plan, st: State, st': State, s: nat, op: Op)
    requires Fits(p, st)
  {
    s < |p.prog| && op.Send? && Current(p, st, s, op) && st.ranks[s].sent &&
    st' == st.(ranks := st.ranks[s := Advance(st.ranks[s])])
  }

  /** The posted receive `q` of `d` takes a buffered message. */
  predicate StepFetch(p: Plan, st: State, st': State, d: nat, q: Op)
    requires Fits(p, st)
  {
    d < |p.prog| && Waiting(p, st, d, q) && (q.src, d, q.tag) in st.net &&
    var data := st.net[(q.src, d, q.tag)];
    q.off + |data| <= |p.data| &&
    st' == State(st.ranks[d := Receive(st.ranks[d], q, data)], st.net - {(q.src, d, q.tag)})
  }

  /** Rank `r` waits for a receive that has completed. */
  predicate StepWait(p: Plan, st: State, st': State, r: nat, op: Op)
    requires Fits(p, st)
  {
    r < |p.prog| && op.Wait? && Current(p, st, r, op) && (op.src, op.tag) in st.ranks[r].got &&
    st' == st.(ranks := st.ranks[r := Advance(st.ranks[r])])
  }

  /** A step that does not rely on the system buffering a message. */
  ghost predicate RendezvousStep(p: Plan, st: State, st': State)
    requires Fits(p, st)
  {
    (exists r: nat, op ::
      StepPost(p, st, st', r, op) || StepReturn(p, st, st', r, op) || StepWait(p, st, st', r, op)) ||
    (exists s: nat, op, q :: StepMatch(p, st, st', s, op, q)) ||
    (exists d: nat, q :: StepFetch(p, st, st', d, q))
  }

  ghost predicate Next(p: Plan, st: State, st': State)
    requires Fits(p, st)
  {
    RendezvousStep(p, st, st') || exists s: nat, op :: StepBuffer(p, st, st', s, op)
  }

  predicate Initial(p: Plan, st: State) {
    Fits(p, st) && st.net == map[] && p.root < |p.prog| && st.ranks[p.root].buf == p.data &&
    forall r :: 0 <= r < |p.prog| ==> st.ranks[r].pc == 0 && !st.ranks[r].sent && st.ranks[r].got == {}
  }

  predicate Final(p: Plan, st: State)
    requires Fits(p, st)
  {
    forall r :: 0 <= r < |p.prog| ==> st.ranks[r].pc == |p.prog[r]|
  }

  // -------------------------------------------------------------- termination

  function Work(p: Plan, ranks: seq<Rank>, n: nat): int
    requires n <= |ranks| == |p.prog|
  {
    if n == 0 then 0 else
      Work(p, ranks, n - 1) + 3 * (|p.prog[n - 1]| - ranks[n - 1].pc) - if ranks[n - 1].sent then 2 else 0
  }

  /** What is left to do: every step lowers it. */
  function Measure(p: Plan, st: State): int
    requires Fits(p, st)
  {
    Work(p, st.ranks, |p.prog|) + |st.net|
  }

  lemma {:induction false} WorkUpdate(p: Plan, ranks: seq<Rank>, r: nat, k: Rank, n: nat)
    requires n <= |ranks| == |p.prog| && r < |ranks|
    ensures Work(p, ranks[r := k], n) == Work(p, ranks, n) +
      if r < n then 3 * (ranks[r].pc - k.pc) + (if ranks[r].sent then 2 else 0) - (if k.sent then 2 else 0) else 0
  {
    if n > 0 {
      WorkUpdate(p, ranks, r, k, n - 1);
    }
  }

  lemma {:induction false} WorkPositive(p: Plan, st: State, n: nat)
    requires Fits(p, st) && n <= |p.prog|
    ensures Work(p, st.ranks, n) >= 0
  {
    if n > 0 {
      WorkPositive(p, st, n - 1);
    }
  }

  lemma MatchDecreases(p: Plan, st: State, st': State, s: nat, op: Op, q: Op)
    requires Fits(p, st) && StepMatch(p, st, st', s, op, q)
    ensures Fits(p, st') && Measure(p, st') < Measure(p, st)
  {
    var k := st.ranks[s].(sent := true);
    WorkUpdate(p, st.ranks, s, k, |p.prog|);
    var data := st.ranks[s].buf[op.off..op.off + op.len];
    WorkUpdate(p, st.ranks[s := k], op.dst, Receive(st.ranks[op.dst], q, data), |p.prog|);
  }

  lemma {:induction false} StepsDecrease(p: Plan, st: State, st': State)
    requires Fits(p, st) && Next(p, st, st')
    ensures Fits(p, st') && 0 <= Measure(p, st') < Measure(p, st)
  {
    var n := |p.prog|;
    if r: nat, op :| StepPost(p, st, st', r, op) || StepReturn(p, st, st', r, op) || StepWait(p, st, st', r, op) {
      WorkUpdate(p, st.ranks, r, Advance(st.ranks[r]), n);
    } else if s: nat, op, q :| StepMatch(p, st, st', s, op, q) {
      MatchDecreases(p, st, st', s, op, q);
    } else if s: nat, op :| StepBuffer(p, st, st', s, op) {
      WorkUpdate(p, st.ranks, s, st.ranks[s].(sent := true), n);
    } else {
      var d: nat, q :| StepFetch(p, st, st', d, q);
      WorkUpdate(p, st.ranks, d, Receive(st.ranks[d], q, st.net[(q.src, d, q.tag)]), n);
      assert st'.net.Keys == st.net.Keys - {(q.src, d, q.tag)};
    }
    WorkPositive(p, st', n);
  }
}
