/** When a plan broadcasts: a clock that orders every transfer is enough.

    A clock gives every operation of every rank a time.  If times increase along each program and
    every message is sent after its receive is posted and before that receive is waited for, then no
    run can block, whatever the system buffers, and every run ends with all buffers equal. */
module Certificate {
  import opened Mpi
  import opened Seqs

  type Clock = (nat, Op) -> int

  predicate Has(p: Plan, r: nat, op: Op) {
    r < |p.prog| && op in p.prog[r]
  }

  /** The receive that a send of `s` is for, and its wait. */
  function PostFor(s: nat, op: Op): Op
    requires op.Send?
  {
    Post(op.off, op.len, s, op.tag)
  }

  function WaitFor(s: nat, op: Op): Op
    requires op.Send?
  {
    Wait(s, op.tag)
  }

  // -------------------------------------------------------------- certificate

  ghost predicate Ordered(p: Plan, T: Clock) {
    forall r: nat, i: nat, j: nat | r < |p.prog| && i < j < |p.prog[r]| :: T(r, p.prog[r][i]) < T(r, p.prog[r][j])
  }

  ghost predicate SendsMeet(p: Plan, T: Clock) {
    forall s: nat, op | Has(p, s, op) && op.Send? ::
      op.dst < |p.prog| && op.dst != s && op.off + op.len <= |p.data| &&
      Has(p, op.dst, PostFor(s, op)) && Has(p, op.dst, WaitFor(s, op)) &&
      T(op.dst, PostFor(s, op)) < T(s, op) < T(op.dst, WaitFor(s, op))
  }

  ghost predicate PostsMeet(p: Plan) {
    forall d: nat, q | Has(p, d, q) && q.Post? ::
      d != p.root && Has(p, q.src, Send(q.off, q.len, d, q.tag)) && Has(p, d, Wait(q.src, q.tag))
  }

  ghost predicate Expects(p: Plan, d: nat, src: nat, tag: int) {
    exists off: nat, len: nat :: Has(p, d, Post(off, len, src, tag))
  }

  ghost predicate WaitsMeet(p: Plan) {
    forall d: nat, w | Has(p, d, w) && w.Wait? :: Expects(p, d, w.src, w.tag)
  }

  ghost predicate KeysUnique(p: Plan) {
    forall d: nat, q, q' | Has(p, d, q) && Has(p, d, q') && q.Post? && q'.Post? && q.src == q'.src && q.tag == q'.tag ::
      q == q'
  }

  /** A rank other than the root sends a range only after it has received that range. */
  ghost predicate SendsHeld(p: Plan, T: Clock) {
    forall s: nat, op | Has(p, s, op) && op.Send? && s != p.root ::
      exists src: nat, tag: int ::
        Has(p, s, Post(op.off, op.len, src, tag)) && T(s, Wait(src, tag)) < T(s, op)
  }

  predicate Overlap(a: Op, b: Op)
    requires !a.Wait? && !b.Wait?
  {
    a.off < b.off + b.len && b.off < a.off + a.len
  }

  /** A receive into a range that the same rank sends is waited for before the send. */
  ghost predicate Separate(p: Plan, T: Clock) {
    forall s: nat, op, q | Has(p, s, op) && Has(p, s, q) && op.Send? && q.Post? && Overlap(op, q) ::
      T(s, Wait(q.src, q.tag)) < T(s, op)
  }

  predicate Covers(q: Op, x: nat) {
    q.Post? && q.off <= x < q.off + q.len
  }

  ghost predicate Receives(p: Plan, r: nat, x: nat) {
    exists q :: Has(p, r, q) && Covers(q, x)
  }

  /** Every rank but the root receives every element. */
  ghost predicate Complete(p: Plan) {
    forall r: nat, x: nat | r < |p.prog| && r != p.root && x < |p.data| :: Receives(p, r, x)
  }

  ghost predicate Certified(p: Plan, T: Clock) {
    p.root < |p.prog| && Ordered(p, T) && SendsMeet(p, T) && PostsMeet(p) && WaitsMeet(p) && KeysUnique(p) &&
    SendsHeld(p, T) && Separate(p, T) && Complete(p)
  }

  // ---------------------------------------------------------------- invariant

  /** Element `x` of rank `r` has been received. */
  ghost predicate Held(p: Plan, st: State, r: nat, x: nat)
    requires Fits(p, st)
  {
    exists q :: Has(p, r, q) && Covers(q, x) && (q.src, q.tag) in st.ranks[r].got
  }

  /** The message of this send has left its sender. */
  predicate Sent(p: Plan, st: State, s: nat, op: Op)
    requires Fits(p, st) && s < |p.prog|
  {
    Done(p, st, s, op) || (Current(p, st, s, op) && st.ranks[s].sent)
  }

  /** A rank holds the root's data exactly where it has received, and its own elsewhere. */
  ghost predicate Buffers(p: Plan, st0: State, st: State)
    requires Fits(p, st0) && Fits(p, st)
  {
    forall r: nat, x: nat | r < |p.prog| && x < |p.data| ::
      st.ranks[r].buf[x] == if r == p.root || Held(p, st, r, x) then p.data[x] else st0.ranks[r].buf[x]
  }

  /** A message that has left is either received or in flight, and no other message is. */
  ghost predicate Delivered(p: Plan, st: State)
    requires Fits(p, st)
  {
    forall s: nat, op | Has(p, s, op) && op.Send? && op.dst < |p.prog| ::
      (Sent(p, st, s, op) <==> ((s, op.tag) in st.ranks[op.dst].got || (s, op.dst, op.tag) in st.net)) &&
      !((s, op.tag) in st.ranks[op.dst].got && (s, op.dst, op.tag) in st.net)
  }

  predicate Carries(p: Plan, op: Op, data: seq<int>) {
    op.Send? && op.off + op.len <= |p.data| && data == p.data[op.off..op.off + op.len]
  }

  /** Messages in flight carry the root's data. */
  ghost predicate Flying(p: Plan, st: State) {
    forall key | key in st.net :: exists off: nat, len: nat ::
      Has(p, key.0, Send(off, len, key.1, key.2)) && Carries(p, Send(off, len, key.1, key.2), st.net[key])
  }

  ghost predicate Waited(p: Plan, st: State)
    requires Fits(p, st)
  {
    forall r: nat, w: Op | r < |p.prog| && w.Wait? && Done(p, st, r, w) :: (w.src, w.tag) in st.ranks[r].got
  }

  ghost predicate Posted(p: Plan, st: State)
    requires Fits(p, st)
  {
    forall r: nat, q | Has(p, r, q) && q.Post? && (q.src, q.tag) in st.ranks[r].got :: Done(p, st, r, q)
  }

  ghost predicate Inv(p: Plan, st0: State, st: State) {
    Fits(p, st0) && Fits(p, st) && Buffers(p, st0, st) && Delivered(p, st) && Flying(p, st) && Waited(p, st) &&
    Posted(p, st)
  }

  // ------------------------------------------------------------ program order

  /** What is earlier than a rank's current operation is done. */
  lemma EarlierIsDone(p: Plan, T: Clock, st: State, r: nat, op: Op)
    requires Ordered(p, T) && Fits(p, st) && Has(p, r, op)
    requires st.ranks[r].pc < |p.prog[r]| ==> T(r, op) < T(r, p.prog[r][st.ranks[r].pc])
    ensures Done(p, st, r, op)
  {
    var i: nat :| i < |p.prog[r]| && p.prog[r][i] == op;
    assert i < st.ranks[r].pc;
    assert p.prog[r][..st.ranks[r].pc][i] == op;
  }

  /** No operation occurs twice in a program. */
  lemma OrderedOnce(p: Plan, T: Clock)
    requires Ordered(p, T)
    ensures forall s: nat | s < |p.prog| :: NoRepeats(p.prog[s])
  {
    forall s: nat, i: nat, j: nat | s < |p.prog| && i < j < |p.prog[s]|
      ensures p.prog[s][i] != p.prog[s][j]
    {
      assert T(s, p.prog[s][i]) < T(s, p.prog[s][j]);
    }
  }

  lemma CurrentNotDone(p: Plan, T: Clock, st: State, r: nat, op: Op)
    requires Ordered(p, T) && Fits(p, st) && r < |p.prog| && Current(p, st, r, op)
    ensures Has(p, r, op) && !Done(p, st, r, op)
  {
    var pc := st.ranks[r].pc;
    forall i: nat | i < pc
      ensures p.prog[r][..pc][i] != op
    {
      assert T(r, p.prog[r][i]) < T(r, p.prog[r][pc]);
    }
  }

  lemma DonePrefix(p: Plan, T: Clock, st: State, r: nat, x: Op, y: Op)
    requires Ordered(p, T) && Fits(p, st) && Has(p, r, x) && Has(p, r, y) && T(r, x) < T(r, y) && Done(p, st, r, y)
    ensures Done(p, st, r, x)
  {
    var i: nat :| i < |p.prog[r]| && p.prog[r][i] == x;
    var j: nat :| j < st.ranks[r].pc && p.prog[r][..st.ranks[r].pc][j] == y;
    assert p.prog[r][j] == y;
    assert i < j;
    assert p.prog[r][..st.ranks[r].pc][i] == x;
  }

  lemma DoneAfter(p: Plan, st: State, st': State, r: nat, op: Op, x: Op)
    requires Fits(p, st) && Fits(p, st') && r < |p.prog| && Current(p, st, r, op)
    requires st'.ranks[r].pc == st.ranks[r].pc + 1
    ensures Done(p, st', r, x) <==> Done(p, st, r, x) || x == op
  {
    var pc := st.ranks[r].pc;
    assert p.prog[r][..pc + 1] == p.prog[r][..pc] + [op];
  }

  // -------------------------------------------------------------- preservation

  lemma InvInitial(p: Plan, T: Clock, st: State)
    requires Certified(p, T) && Initial(p, st)
    ensures Inv(p, st, st)
  {
  }

  /** A rank that has nothing left to do in its current operation moves on. */
  lemma AdvanceKeeps(p: Plan, T: Clock, st0: State, st: State, r: nat, op: Op)
    requires Certified(p, T) && Inv(p, st0, st) && r < |p.prog| && Current(p, st, r, op)
    requires op.Send? ==> st.ranks[r].sent
    requires op.Wait? ==> (op.src, op.tag) in st.ranks[r].got
    ensures Inv(p, st0, st.(ranks := st.ranks[r := Advance(st.ranks[r])]))
  {
    hide SendsMeet, PostsMeet, WaitsMeet, KeysUnique, SendsHeld, Separate, Complete;
    var st' := st.(ranks := st.ranks[r := Advance(st.ranks[r])]);
    forall x ensures Done(p, st', r, x) <==> Done(p, st, r, x) || x == op {
      DoneAfter(p, st, st', r, op, x);
    }
    AdvanceBuffers(p, st0, st, r);
    forall s: nat, m | Has(p, s, m) && m.Send? && m.dst < |p.prog|
      ensures Sent(p, st', s, m) == Sent(p, st, s, m)
      ensures st'.ranks[m.dst].got == st.ranks[m.dst].got
    {
      if s == r && m != op {
        assert !Current(p, st, r, m);
        if Current(p, st', r, m) {
          assert !st'.ranks[r].sent;
        }
      }
    }
    assert Flying(p, st');
    assert Waited(p, st');
    assert Posted(p, st');
  }

  lemma AdvanceBuffers(p: Plan, st0: State, st: State, r: nat)
    requires Fits(p, st0) && Fits(p, st) && Buffers(p, st0, st) && r < |p.prog| && st.ranks[r].pc < |p.prog[r]|
    ensures Buffers(p, st0, st.(ranks := st.ranks[r := Advance(st.ranks[r])]))
  {
    SameBuffers(p, st0, st, st.(ranks := st.ranks[r := Advance(st.ranks[r])]));
  }

  lemma SameBuffers(p: Plan, st0: State, st: State, st': State)
    requires Fits(p, st0) && Fits(p, st) && Fits(p, st') && Buffers(p, st0, st)
    requires forall r: nat | r < |p.prog| :: st'.ranks[r].buf == st.ranks[r].buf && st'.ranks[r].got == st.ranks[r].got
    ensures Buffers(p, st0, st')
  {
    forall d: nat, x: nat | d < |p.prog| && x < |p.data|
      ensures Held(p, st', d, x) == Held(p, st, d, x)
    {
      assert st'.ranks[d].got == st.ranks[d].got;
    }
  }

  /** A receive that completes with the root's data extends what its rank holds by its range. */
  lemma ReceiveBuffers(p: Plan, st0: State, st: State, d: nat, q: Op, data: seq<int>)
    requires KeysUnique(p) && Fits(p, st0) && Fits(p, st) && Buffers(p, st0, st)
    requires Has(p, d, q) && q.Post? && d != p.root
    requires q.off + q.len <= |p.data| && data == p.data[q.off..q.off + q.len]
    ensures Fits(p, st.(ranks := st.ranks[d := Receive(st.ranks[d], q, data)]))
    ensures Buffers(p, st0, st.(ranks := st.ranks[d := Receive(st.ranks[d], q, data)]))
  {
    var st' := st.(ranks := st.ranks[d := Receive(st.ranks[d], q, data)]);
    forall r: nat, x: nat | r < |p.prog| && x < |p.data|
      ensures Held(p, st', r, x) <==> Held(p, st, r, x) || (r == d && Covers(q, x))
    {
      if Held(p, st', r, x) {
        var q' :| Has(p, r, q') && Covers(q', x) && (q'.src, q'.tag) in st'.ranks[r].got;
        if r == d && (q'.src, q'.tag) == (q.src, q.tag) {
          assert q' == q;
        } else {
          assert (q'.src, q'.tag) in st.ranks[r].got;
        }
      }
    }
  }

  /** A rank that is sending a range holds the root's data there. */
  lemma SendCarries(p: Plan, T: Clock, st0: State, st: State, s: nat, op: Op)
    requires Certified(p, T) && Inv(p, st0, st) && s < |p.prog| && op.Send? && Current(p, st, s, op)
    ensures op.off + op.len <= |p.data| && st.ranks[s].buf[op.off..op.off + op.len] == p.data[op.off..op.off + op.len]
  {
    hide KeysUnique, Separate, Complete, Delivered, Flying;
    CurrentNotDone(p, T, st, s, op);
    if s != p.root {
      var src: nat, tag: int :| Has(p, s, Post(op.off, op.len, src, tag)) && T(s, Wait(src, tag)) < T(s, op);
      var q := Post(op.off, op.len, src, tag);
      EarlierIsDone(p, T, st, s, Wait(src, tag));
      assert (src, tag) in st.ranks[s].got;
      forall x: nat | op.off <= x < op.off + op.len
        ensures st.ranks[s].buf[x] == p.data[x]
      {
        assert Covers(q, x) && Held(p, st, s, x);
      }
    }
  }

  /** When the current send of a rank leaves, to its receive or into flight, it alone changes status. */
  lemma LeaveDelivered(p: Plan, T: Clock, st: State, st': State, s: nat, op: Op)
    requires Certified(p, T) && Fits(p, st) && Fits(p, st') && Delivered(p, st)
    requires s < |p.prog| && op.Send? && Current(p, st, s, op) && !st.ranks[s].sent
    requires op.dst < |p.prog|
    requires forall r: nat | r < |p.prog| ::
      st'.ranks[r].pc == st.ranks[r].pc && (st'.ranks[r].sent == (st.ranks[r].sent || r == s))
    requires st' == st.(ranks := st'.ranks, net := st'.net)
    requires forall d: nat, src: nat, tag: int | d < |p.prog| ::
      (((src, tag) in st'.ranks[d].got || (src, d, tag) in st'.net) <==>
       ((src, tag) in st.ranks[d].got || (src, d, tag) in st.net || (src, d, tag) == (s, op.dst, op.tag)))
    requires forall d: nat, src: nat, tag: int | d < |p.prog| && (src, d, tag) != (s, op.dst, op.tag) ::
      ((src, tag) in st'.ranks[d].got <==> (src, tag) in st.ranks[d].got) &&
      ((src, d, tag) in st'.net <==> (src, d, tag) in st.net)
    requires !((s, op.tag) in st'.ranks[op.dst].got && (s, op.dst, op.tag) in st'.net)
    ensures Delivered(p, st')
  {
    hide Separate, Complete, SendsHeld;
    CurrentNotDone(p, T, st, s, op);
    forall r: nat, m | Has(p, r, m) && m.Send? && m.dst < |p.prog|
      ensures (Sent(p, st', r, m) <==> ((r, m.tag) in st'.ranks[m.dst].got || (r, m.dst, m.tag) in st'.net))
      ensures !((r, m.tag) in st'.ranks[m.dst].got && (r, m.dst, m.tag) in st'.net)
    {
      assert Done(p, st', r, m) == Done(p, st, r, m);
      if r == s && m.dst == op.dst && m.tag == op.tag {
        assert Has(p, op.dst, PostFor(s, op)) && Has(p, op.dst, PostFor(s, m));
        assert PostFor(s, op) == PostFor(s, m) && m == op;
      }
    }
  }

  lemma WaitedGrows(p: Plan, st: State, st': State)
    requires Fits(p, st) && Fits(p, st') && Waited(p, st)
    requires forall r: nat | r < |p.prog| :: st'.ranks[r].pc == st.ranks[r].pc && st.ranks[r].got <= st'.ranks[r].got
    ensures Waited(p, st')
  {
    forall r: nat, w: Op | r < |p.prog| && w.Wait? && Done(p, st', r, w)
      ensures (w.src, w.tag) in st'.ranks[r].got
    {
      assert Done(p, st, r, w);
    }
  }

  lemma PostedGrows(p: Plan, st: State, st': State, d: nat, q: Op)
    requires KeysUnique(p) && Fits(p, st) && Fits(p, st') && Posted(p, st)
    requires d < |p.prog| && Waiting(p, st, d, q) && Has(p, d, q)
    requires forall r: nat | r < |p.prog| ::
      st'.ranks[r].pc == st.ranks[r].pc &&
      st'.ranks[r].got == st.ranks[r].got + (if r == d then {(q.src, q.tag)} else {})
    ensures Posted(p, st')
  {
    forall r: nat, q' | Has(p, r, q') && q'.Post? && (q'.src, q'.tag) in st'.ranks[r].got
      ensures Done(p, st', r, q')
    {
      assert Done(p, st, r, q');
    }
  }

  lemma PostedKept(p: Plan, st: State, st': State)
    requires Fits(p, st) && Fits(p, st') && Posted(p, st)
    requires forall r: nat | r < |p.prog| :: st'.ranks[r].pc == st.ranks[r].pc && st'.ranks[r].got == st.ranks[r].got
    ensures Posted(p, st')
  {
    forall r: nat, q | Has(p, r, q) && q.Post? && (q.src, q.tag) in st'.ranks[r].got
      ensures Done(p, st', r, q)
    {
      assert Done(p, st, r, q);
    }
  }

  lemma FlyingShrinks(p: Plan, st: State, st': State)
    requires Flying(p, st)
    requires forall key | key in st'.net :: key in st.net && st'.net[key] == st.net[key]
    ensures Flying(p, st')
  {
  }

  lemma MatchKeeps(p: Plan, T: Clock, st0: State, st: State, st': State, s: nat, op: Op, q: Op)
    requires Certified(p, T) && Inv(p, st0, st) && StepMatch(p, st, st', s, op, q)
    ensures Inv(p, st0, st')
  {
    hide Separate, Complete, SendsHeld, Buffers, Delivered, Flying, Waited, Posted;
    SendCarries(p, T, st0, st, s, op);
    CurrentNotDone(p, T, st, s, op);
    assert q == PostFor(s, op);
    var mid := st.(ranks := st.ranks[s := st.ranks[s].(sent := true)]);
    SameBuffers(p, st0, st, mid);
    ReceiveBuffers(p, st0, mid, op.dst, q, p.data[op.off..op.off + op.len]);
    SentOnce(p, st, s, op);
    LeaveDelivered(p, T, st, st', s, op);
    WaitedGrows(p, st, st');
    PostedGrows(p, st, st', op.dst, q);
    FlyingShrinks(p, st, st');
  }

  /** A send that has not left is neither received nor in flight. */
  lemma SentOnce(p: Plan, st: State, s: nat, op: Op)
    requires Fits(p, st) && Delivered(p, st) && Has(p, s, op) && op.Send? && op.dst < |p.prog| && !Sent(p, st, s, op)
    ensures (s, op.tag) !in st.ranks[op.dst].got && (s, op.dst, op.tag) !in st.net
  {
  }

  lemma BufferKeeps(p: Plan, T: Clock, st0: State, st: State, st': State, s: nat, op: Op)
    requires Certified(p, T) && Inv(p, st0, st) && StepBuffer(p, st, st', s, op)
    ensures Inv(p, st0, st')
  {
    hide Separate, Complete, SendsHeld, Buffers, Delivered, Flying, Waited, Posted;
    SendCarries(p, T, st0, st, s, op);
    CurrentNotDone(p, T, st, s, op);
    SameBuffers(p, st0, st, st');
    SentOnce(p, st, s, op);
    LeaveDelivered(p, T, st, st', s, op);
    WaitedGrows(p, st, st');
    PostedKept(p, st, st');
    FlyingGrows(p, st, st', s, op);
  }

  lemma FlyingGrows(p: Plan, st: State, st': State, s: nat, op: Op)
    requires Flying(p, st) && Has(p, s, op) && op.Send?
    requires (s, op.dst, op.tag) in st'.net && Carries(p, op, st'.net[(s, op.dst, op.tag)])
    requires forall key | key in st'.net && key != (s, op.dst, op.tag) :: key in st.net && st'.net[key] == st.net[key]
    ensures Flying(p, st')
  {
    assert op == Send(op.off, op.len, op.dst, op.tag);
  }

  lemma SentFor(p: Plan, T: Clock, d: nat, q: Op, m: Op)
    requires SendsMeet(p, T) && KeysUnique(p)
    requires Has(p, d, q) && q.Post? && Has(p, q.src, m) && m.Send? && m.dst == d && m.tag == q.tag
    ensures q.off == m.off && q.len == m.len
  {
    assert Has(p, d, PostFor(q.src, m));
  }

  /** A message in flight to a posted receive carries what the receive is for. */
  lemma FlyingFor(p: Plan, T: Clock, st: State, d: nat, q: Op)
    requires SendsMeet(p, T) && KeysUnique(p) && Flying(p, st)
    requires Has(p, d, q) && q.Post? && (q.src, d, q.tag) in st.net
    ensures q.off + q.len <= |p.data| && st.net[(q.src, d, q.tag)] == p.data[q.off..q.off + q.len]
  {
    hide SendsMeet, KeysUnique, Has;
    var key := (q.src, d, q.tag);
    var off: nat, len: nat :|
      Has(p, key.0, Send(off, len, key.1, key.2)) && Carries(p, Send(off, len, key.1, key.2), st.net[key]);
    SentFor(p, T, d, q, Send(off, len, d, q.tag));
  }

  lemma FetchKeeps(p: Plan, T: Clock, st0: State, st: State, st': State, d: nat, q: Op)
    requires Certified(p, T) && Inv(p, st0, st) && StepFetch(p, st, st', d, q)
    ensures Inv(p, st0, st')
  {
    hide Separate, Complete, SendsHeld, Buffers, Delivered, Flying, Waited, Posted;
    FlyingFor(p, T, st, d, q);
    assert Has(p, d, q) && d != p.root;
    ReceiveBuffers(p, st0, st, d, q, st.net[(q.src, d, q.tag)]);
    SameBuffers(p, st0, st.(ranks := st'.ranks), st');
    FetchDelivered(p, st, st', d, q);
    WaitedGrows(p, st, st');
    PostedGrows(p, st, st', d, q);
    FlyingShrinks(p, st, st');
  }

  lemma FetchDelivered(p: Plan, st: State, st': State, d: nat, q: Op)
    requires Fits(p, st) && Fits(p, st') && Delivered(p, st) && StepFetch(p, st, st', d, q)
    ensures Delivered(p, st')
  {
    forall r: nat, m | Has(p, r, m) && m.Send? && m.dst < |p.prog|
      ensures Sent(p, st', r, m) == Sent(p, st, r, m)
    {
      assert Done(p, st', r, m) == Done(p, st, r, m);
    }
  }

  /** Every step keeps the invariant. */
  lemma StepKeeps(p: Plan, T: Clock, st0: State, st: State, st': State)
    requires Certified(p, T) && Inv(p, st0, st) && Next(p, st, st')
    ensures Inv(p, st0, st')
  {
    hide Certified, Buffers, Delivered, Flying, Waited, Posted;
    if r: nat, op :| StepPost(p, st, st', r, op) || StepReturn(p, st, st', r, op) || StepWait(p, st, st', r, op) {
      AdvanceKeeps(p, T, st0, st, r, op);
    } else if s: nat, op, q :| StepMatch(p, st, st', s, op, q) {
      MatchKeeps(p, T, st0, st, st', s, op, q);
    } else if s: nat, op :| StepBuffer(p, st, st', s, op) {
      BufferKeeps(p, T, st0, st, st', s, op);
    } else {
      var d: nat, q :| StepFetch(p, st, st', d, q);
      FetchKeeps(p, T, st0, st, st', d, q);
    }
  }

  // ----------------------------------------------------------------- progress

  predicate Unfinished(p: Plan, st: State, r: nat)
    requires Fits(p, st)
  {
    r < |p.prog| && st.ranks[r].pc < |p.prog[r]|
  }

  function CurrentOp(p: Plan, st: State, r: nat): Op
    requires Fits(p, st) && Unfinished(p, st, r)
  {
    p.prog[r][st.ranks[r].pc]
  }

  /** Of the first `n` ranks, an unfinished one whose current operation is earliest. */
  lemma {:induction false} Earliest(p: Plan, T: Clock, st: State, n: nat) returns (r: nat)
    requires Fits(p, st) && n <= |p.prog|
    requires exists x: nat :: x < n && Unfinished(p, st, x)
    ensures r < n && Unfinished(p, st, r)
    ensures forall x: nat | x < n && Unfinished(p, st, x) :: T(r, CurrentOp(p, st, r)) <= T(x, CurrentOp(p, st, x))
  {
    if exists x: nat :: x < n - 1 && Unfinished(p, st, x) {
      r := Earliest(p, T, st, n - 1);
      if Unfinished(p, st, n - 1) && T(n - 1, CurrentOp(p, st, n - 1)) < T(r, CurrentOp(p, st, r)) {
        r := n - 1;
      }
    } else {
      r := n - 1;
    }
  }

  /** Every operation before the time `t` at which the earliest rank stands is done. */
  lemma BeforeIsDone(p: Plan, T: Clock, st: State, t: int, r: nat, op: Op)
    requires Ordered(p, T) && Fits(p, st) && Has(p, r, op) && T(r, op) < t
    requires forall x: nat | Unfinished(p, st, x) :: t <= T(x, CurrentOp(p, st, x))
    ensures Done(p, st, r, op)
  {
    assert Unfinished(p, st, r) ==> t <= T(r, CurrentOp(p, st, r));
    EarlierIsDone(p, T, st, r, op);
  }

  /** A rank at a send, with every earlier operation done, can go on. */
  lemma SendCanStep(p: Plan, T: Clock, st0: State, st: State, s: nat, op: Op)
    requires Certified(p, T) && Inv(p, st0, st) && Unfinished(p, st, s) && op == CurrentOp(p, st, s) && op.Send?
    requires forall x: nat | Unfinished(p, st, x) :: T(s, op) <= T(x, CurrentOp(p, st, x))
    ensures exists st' :: RendezvousStep(p, st, st')
  {
    hide Separate, Complete, SendsHeld, Buffers, Flying, Waited, KeysUnique;
    CurrentNotDone(p, T, st, s, op);
    if st.ranks[s].sent {
      var st' := st.(ranks := st.ranks[s := Advance(st.ranks[s])]);
      assert StepReturn(p, st, st', s, op);
      assert RendezvousStep(p, st, st');
    } else {
      var q := PostFor(s, op);
      BeforeIsDone(p, T, st, T(s, op), op.dst, q);
      SentOnce(p, st, s, op);
      var data := st.ranks[s].buf[op.off..op.off + op.len];
      var st' := st.(ranks := st.ranks[s := st.ranks[s].(sent := true)][op.dst := Receive(st.ranks[op.dst], q, data)]);
      assert StepMatch(p, st, st', s, op, q);
      assert RendezvousStep(p, st, st');
    }
  }

  /** A rank at a wait, with every earlier operation done, can go on or take its message. */
  lemma WaitCanStep(p: Plan, T: Clock, st0: State, st: State, r: nat, op: Op)
    requires Certified(p, T) && Inv(p, st0, st) && Unfinished(p, st, r) && op == CurrentOp(p, st, r) && op.Wait?
    requires forall x: nat | Unfinished(p, st, x) :: T(r, op) <= T(x, CurrentOp(p, st, x))
    ensures exists st' :: RendezvousStep(p, st, st')
  {
    hide Separate, Complete, SendsHeld, Buffers, Flying, Waited;
    CurrentNotDone(p, T, st, r, op);
    if (op.src, op.tag) in st.ranks[r].got {
      var st' := st.(ranks := st.ranks[r := Advance(st.ranks[r])]);
      assert StepWait(p, st, st', r, op);
      assert RendezvousStep(p, st, st');
    } else {
      assert Expects(p, r, op.src, op.tag);
      var off: nat, len: nat :| Has(p, r, Post(off, len, op.src, op.tag));
      var q := Post(off, len, op.src, op.tag);
      var m := Send(off, len, r, op.tag);
      assert Has(p, q.src, m) && PostFor(q.src, m) == q && WaitFor(q.src, m) == op;
      BeforeIsDone(p, T, st, T(r, op), r, q);
      BeforeIsDone(p, T, st, T(r, op), q.src, m);
      assert Sent(p, st, q.src, m);
      assert (q.src, r, q.tag) in st.net;
      FetchCanStep(p, T, st, r, q);
    }
  }

  lemma FetchCanStep(p: Plan, T: Clock, st: State, d: nat, q: Op)
    requires SendsMeet(p, T) && KeysUnique(p) && Flying(p, st) && Fits(p, st)
    requires Has(p, d, q) && Waiting(p, st, d, q) && (q.src, d, q.tag) in st.net
    ensures exists st' :: RendezvousStep(p, st, st')
  {
    hide SendsMeet, KeysUnique, Flying;
    FlyingFor(p, T, st, d, q);
    var data := st.net[(q.src, d, q.tag)];
    var st' := State(st.ranks[d := Receive(st.ranks[d], q, data)], st.net - {(q.src, d, q.tag)});
    assert StepFetch(p, st, st', d, q);
    assert RendezvousStep(p, st, st');
  }

  /** No deadlock: until every rank has finished, some step is possible, even if nothing is buffered. */
  lemma Progress(p: Plan, T: Clock, st0: State, st: State)
    requires Certified(p, T) && Inv(p, st0, st) && !Final(p, st)
    ensures exists st' :: RendezvousStep(p, st, st')
  {
    hide Certified, Buffers, Delivered, Flying, Waited, Posted;
    var u: nat :| u < |p.prog| && st.ranks[u].pc != |p.prog[u]|;
    assert Unfinished(p, st, u);
    var r := Earliest(p, T, st, |p.prog|);
    var op := CurrentOp(p, st, r);
    match op
    case Post(_, _, _, _) =>
      var st' := st.(ranks := st.ranks[r := Advance(st.ranks[r])]);
      assert StepPost(p, st, st', r, op);
      assert RendezvousStep(p, st, st');
    case Send(_, _, _, _) =>
      SendCanStep(p, T, st0, st, r, op);
    case Wait(_, _) =>
      WaitCanStep(p, T, st0, st, r, op);
  }

  /** When every rank has finished, every buffer is the root's and nothing is left in flight. */
  lemma Agreement(p: Plan, T: Clock, st0: State, st: State)
    requires Certified(p, T) && Initial(p, st0) && Inv(p, st0, st) && Final(p, st)
    ensures forall r: nat | r < |p.prog| :: st.ranks[r].buf == p.data
    ensures st.net == map[]
  {
    hide Separate, SendsHeld, Ordered;
    forall r: nat, x: nat | r < |p.prog| && x < |p.data|
      ensures st.ranks[r].buf[x] == p.data[x]
    {
      if r != p.root {
        assert Receives(p, r, x);
        var q :| Has(p, r, q) && Covers(q, x);
        AllDone(p, st, r, Wait(q.src, q.tag));
        assert Held(p, st, r, x);
      }
    }
    forall key ensures key !in st.net {
      if key in st.net {
        NothingInFlight(p, T, st, key);
      }
    }
  }

  lemma NothingInFlight(p: Plan, T: Clock, st: State, key: (nat, nat, int))
    requires SendsMeet(p, T) && Fits(p, st) && Delivered(p, st) && Flying(p, st) && Waited(p, st) && Final(p, st)
    ensures key !in st.net
  {
    if key in st.net {
      var off: nat, len: nat :|
        Has(p, key.0, Send(off, len, key.1, key.2)) && Carries(p, Send(off, len, key.1, key.2), st.net[key]);
      var m := Send(off, len, key.1, key.2);
      AllDone(p, st, key.1, WaitFor(key.0, m));
    }
  }

  lemma AllDone(p: Plan, st: State, r: nat, op: Op)
    requires Fits(p, st) && Final(p, st) && Has(p, r, op)
    ensures Done(p, st, r, op)
  {
    assert p.prog[r][..st.ranks[r].pc] == p.prog[r];
  }

  /** A receive from its post until the wait for it has returned: all the while MPI forbids access to
      its range (MPI 3.1, section 3.7). */
  predicate Receiving(p: Plan, st: State, r: nat, q: Op)
    requires Fits(p, st) && r < |p.prog|
  {
    q.Post? && Done(p, st, r, q) && !Done(p, st, r, Wait(q.src, q.tag))
  }

  /** While a rank is in a send, no receive that it has posted and not waited for touches the range. */
  lemma NoOverlap(p: Plan, T: Clock, st0: State, st: State, s: nat, op: Op, q: Op)
    requires Certified(p, T) && Inv(p, st0, st) && s < |p.prog|
    requires op.Send? && Current(p, st, s, op) && Receiving(p, st, s, q)
    ensures !Overlap(op, q)
  {
    hide SendsMeet, KeysUnique, SendsHeld, Complete, Buffers, Delivered, Flying;
    CurrentNotDone(p, T, st, s, op);
    assert Has(p, s, q);
    if Overlap(op, q) {
      EarlierIsDone(p, T, st, s, Wait(q.src, q.tag));
    }
  }

  // --------------------------------------------------------------------- runs

  /** A run: the states it goes through, first to last. */
  ghost predicate Run(p: Plan, run: seq<State>) {
    |run| > 0 && Initial(p, run[0]) &&
    forall i: nat | i + 1 < |run| :: Fits(p, run[i]) && Next(p, run[i], run[i + 1])
  }

  lemma {:induction false} RunKeeps(p: Plan, T: Clock, run: seq<State>, i: nat)
    requires Certified(p, T) && Run(p, run) && i < |run|
    ensures Inv(p, run[0], run[i]) && i + Measure(p, run[i]) <= Measure(p, run[0])
    ensures Measure(p, run[i]) >= 0
  {
    hide Certified, Inv, Next, Measure;
    if i == 0 {
      InvInitial(p, T, run[0]);
      InvFits(p, run[0], run[0]);
      MeasurePositive(p, run[0]);
    } else {
      RunKeeps(p, T, run, i - 1);
      assert Next(p, run[i - 1], run[i - 1 + 1]);
      StepKeeps(p, T, run[0], run[i - 1], run[i]);
      InvFits(p, run[0], run[i]);
      StepsDecrease(p, run[i - 1], run[i]);
    }
  }

  lemma InvFits(p: Plan, st0: State, st: State)
    requires Inv(p, st0, st)
    ensures Fits(p, st0) && Fits(p, st)
  {
  }

  lemma MeasurePositive(p: Plan, st: State)
    requires Fits(p, st)
    ensures Measure(p, st) >= 0
  {
    WorkPositive(p, st, |p.prog|);
  }

  /** What a certified plan does in every run, with any amount of buffering by the system.  Runs are
      bounded; one that has not finished can go on without buffering; one that has finished has given
      every rank the root's data.  On the way a rank holds the root's data exactly where it has
      received, sends only what it holds, and never sends a range it is receiving into. */
  lemma Broadcasts(p: Plan, T: Clock, run: seq<State>)
    requires Certified(p, T) && Run(p, run)
    ensures forall st | st in run :: Fits(p, st) && Buffers(p, run[0], st)
    ensures |run| <= Measure(p, run[0]) + 1
    ensures var st := run[|run| - 1];
      if Final(p, st) then st.net == map[] && forall r: nat | r < |p.prog| :: st.ranks[r].buf == p.data
      else exists st' :: RendezvousStep(p, st, st')
    ensures forall st, s: nat, op: Op | st in run && s < |p.prog| && op.Send? && Current(p, st, s, op) ::
      op.off + op.len <= |p.data| && st.ranks[s].buf[op.off..op.off + op.len] == p.data[op.off..op.off + op.len] &&
      forall q | Receiving(p, st, s, q) :: !Overlap(op, q)
  {
    hide Certified, Buffers, Delivered, Flying, Waited, Posted, Measure, Next;
    forall st | st in run ensures Inv(p, run[0], st) {
      var i: nat :| i < |run| && run[i] == st;
      RunKeeps(p, T, run, i);
    }
    RunKeeps(p, T, run, |run| - 1);
    var last := run[|run| - 1];
    if Final(p, last) {
      Agreement(p, T, run[0], last);
    } else {
      Progress(p, T, run[0], last);
    }
    forall st, s: nat, op: Op | st in run && s < |p.prog| && op.Send? && Current(p, st, s, op)
      ensures op.off + op.len <= |p.data| && st.ranks[s].buf[op.off..op.off + op.len] == p.data[op.off..op.off + op.len]
      ensures forall q | Receiving(p, st, s, q) :: !Overlap(op, q)
    {
      SendCarries(p, T, run[0], st, s, op);
      forall q | Receiving(p, st, s, q) ensures !Overlap(op, q) {
        NoOverlap(p, T, run[0], st, s, op, q);
      }
    }
  }

  /** Every run is bounded, one that has not finished can go on although nothing is buffered, and one
      that has finished has given every rank the root's data and left no message in flight. */
  ghost predicate Delivers(p: Plan) {
    forall run | Run(p, run) ::
      |run| <= Measure(p, run[0]) + 1 && Fits(p, run[|run| - 1]) && EndsWell(p, run[|run| - 1])
  }

  ghost predicate EndsWell(p: Plan, st: State)
    requires Fits(p, st)
  {
    if Final(p, st) then st.net == map[] && forall r: nat | r < |p.prog| :: st.ranks[r].buf == p.data
    else exists st' :: RendezvousStep(p, st, st')
  }

  lemma CertifiedDelivers(p: Plan, T: Clock)
    requires Certified(p, T)
    ensures Delivers(p)
  {
    hide Certified, Run, Measure, RendezvousStep, Final;
    forall run | Run(p, run)
      ensures |run| > 0 && Fits(p, run[0]) && Fits(p, run[|run| - 1])
      ensures |run| <= Measure(p, run[0]) + 1 && EndsWell(p, run[|run| - 1])
    {
      RunStarts(p, run);
      Broadcasts(p, T, run);
      assert run[0] in run && run[|run| - 1] in run;
    }
  }

  lemma RunStarts(p: Plan, run: seq<State>)
    requires Run(p, run)
    ensures |run| > 0 && Initial(p, run[0])
  {
  }

  // --------------------------------------------------------------- starvation

  function Fresh(p: Plan): State {
    State(seq(|p.prog|, r => Rank(0, false, {}, p.data)), map[])
  }

  /** No rank has anything to send, but some wait to receive. */
  ghost predicate Starving(p: Plan) {
    forall r: nat | r < |p.prog| && p.prog[r] != [] :: |p.prog[r]| >= 2 && p.prog[r][0].Post? && p.prog[r][1].Wait?
  }

  /** Nothing has been sent or received. */
  ghost predicate Silent(p: Plan, st: State) {
    Fits(p, st) && st.net == map[] &&
    forall r: nat | r < |p.prog| :: st.ranks[r].pc <= 1 && !st.ranks[r].sent && st.ranks[r].got == {}
  }

  lemma SilentStays(p: Plan, st: State, st': State)
    requires Starving(p) && Silent(p, st) && Next(p, st, st')
    ensures Silent(p, st')
  {
    forall r: nat, op: Op | r < |p.prog| && Current(p, st, r, op)
      ensures !op.Send? && (op.Post? ==> st.ranks[r].pc == 0)
    {
      assert st.ranks[r].pc <= 1;
    }
    var r: nat, op :| StepPost(p, st, st', r, op);
  }

  /** If every run could always go on, one would finish. */
  lemma RunFinishes(p: Plan, run: seq<State>) returns (run': seq<State>)
    requires Delivers(p) && Run(p, run)
    ensures Run(p, run') && Fits(p, run'[|run'| - 1]) && Final(p, run'[|run'| - 1])
    decreases Measure(p, run[0]) + 1 - |run|
  {
    hide Next, Measure, Initial, RendezvousStep, Final;
    var last := run[|run| - 1];
    assert EndsWell(p, last);
    if Final(p, last) {
      run' := run;
    } else {
      var st' :| RendezvousStep(p, last, st');
      assert Next(p, last, st') by { StepIsNext(p, last, st'); }
      var more := run + [st'];
      assert Run(p, more);
      run' := RunFinishes(p, more);
    }
  }

  lemma StepIsNext(p: Plan, st: State, st': State)
    requires Fits(p, st) && RendezvousStep(p, st, st')
    ensures Next(p, st, st')
  {
  }

  lemma {:induction false} SilentRun(p: Plan, run: seq<State>, i: nat)
    requires Starving(p) && Run(p, run) && i < |run|
    ensures Silent(p, run[i])
  {
    hide Next;
    if i > 0 {
      SilentRun(p, run, i - 1);
      assert Next(p, run[i - 1], run[i - 1 + 1]);
      SilentStays(p, run[i - 1], run[i]);
    }
  }

  /** When nobody sends, a rank that waits to receive blocks for ever. */
  lemma Starves(p: Plan, u: nat)
    requires p.root < |p.prog| && Starving(p) && u < |p.prog| && p.prog[u] != []
    ensures !Delivers(p)
  {
    if Delivers(p) {
      assert Run(p, [Fresh(p)]);
      var run := RunFinishes(p, [Fresh(p)]);
      SilentRun(p, run, |run| - 1);
      assert false;
    }
  }

  /** A lone root that sends to itself blocks: no receive is ever posted. */
  lemma SendsToItself(p: Plan)
    requires |p.prog| == 1 && p.root == 0 && p.prog[0] != [] && p.prog[0][0].Send? && p.prog[0][0].dst == 0
    ensures !Delivers(p)
  {
    var run := [Fresh(p)];
    assert Run(p, run);
    assert !Final(p, run[0]);
    assert !(exists st' :: RendezvousStep(p, run[0], st'));
  }
}
