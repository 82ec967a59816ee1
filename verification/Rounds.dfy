/** Rounds: what a lock-step schedule of a plan is, that a plan with a clock really runs in step with
    it, and how few rounds a broadcast can take. */
module Rounds {
  import opened Bits
  import opened Mpi
  import opened Certificate
  import opened Seqs

  // ---------------------------------------------------------------- schedules

  predicate Before(p: Plan, r: nat, a: Op, b: Op) {
    r < |p.prog| && exists i: nat, j: nat :: i < j < |p.prog[r]| && p.prog[r][i] == a && p.prog[r][j] == b
  }

  /** Rounds for the messages, counted from 1, as far as the senders are concerned: a rank sends at most
      one message in a round, in program order, and sends what it received in an earlier round. */
  ghost predicate Paced(p: Plan, R: Clock) {
    (forall s: nat, op | Has(p, s, op) && op.Send? :: R(s, op) >= 1) &&
    (forall s: nat, a: Op, b: Op | a.Send? && b.Send? && Before(p, s, a, b) :: R(s, a) < R(s, b)) &&
    forall s: nat, op, q | Has(p, s, op) && op.Send? && Has(p, s, q) && q.Post? && q.off == op.off && q.len == op.len ::
      R(q.src, Send(q.off, q.len, s, q.tag)) < R(s, op)
  }

  /** A send meets its receive: what the receiver sends before it posts the receive is sent in earlier
      rounds, and what it sends after it has waited for the receive in later ones. */
  ghost predicate Rendezvous(p: Plan, R: Clock) {
    (forall s: nat, op: Op, a: Op | Has(p, s, op) && op.Send? && a.Send? && Before(p, op.dst, a, PostFor(s, op)) ::
      R(op.dst, a) < R(s, op)) &&
    forall s: nat, op: Op, a: Op | Has(p, s, op) && op.Send? && a.Send? && Before(p, op.dst, WaitFor(s, op), a) ::
      R(s, op) < R(op.dst, a)
  }

  /** A rank receives at most one message in a round. */
  ghost predicate OnePerRound(p: Plan, R: Clock) {
    forall s: nat, op, s': nat, op' |
      Has(p, s, op) && Has(p, s', op') && op.Send? && op'.Send? && op.dst == op'.dst && R(s, op) == R(s', op') ::
      s == s' && op == op'
  }

  /** A rank that waits for one message before it posts the receive of another gets them in that order. */
  ghost predicate InTurn(p: Plan, R: Clock) {
    forall s: nat, op, s': nat, op' |
      Has(p, s, op) && Has(p, s', op') && op.Send? && op'.Send? && op.dst == op'.dst &&
      Before(p, op.dst, WaitFor(s, op), PostFor(s', op')) ::
      R(s, op) < R(s', op')
  }

  /** A lock-step schedule: everything the programs demand of the rounds of their messages when no
      message is buffered, with one send and one receive for each rank and round. */
  ghost predicate LockStep(p: Plan, R: Clock) {
    Paced(p, R) && Rendezvous(p, R) && OnePerRound(p, R) && InTurn(p, R)
  }

  lemma Later(p: Plan, R: Clock, s: nat, x: Op, y: Op)
    requires Paced(p, R) && x.Send? && y.Send? && Before(p, s, x, y)
    ensures R(s, x) < R(s, y)
  {
  }

  lemma AfterReceipt(p: Plan, R: Clock, s: nat, op: Op, q: Op)
    requires Paced(p, R) && Has(p, s, op) && op.Send? && Has(p, s, q) && q.Post? && q.off == op.off && q.len == op.len
    ensures R(q.src, Send(q.off, q.len, s, q.tag)) < R(s, op)
  {
  }

  lemma AtLeastOne(p: Plan, R: Clock, s: nat, op: Op)
    requires Paced(p, R) && Has(p, s, op) && op.Send?
    ensures R(s, op) >= 1
  {
  }

  // -------------------------------------------------------------- clocked runs

  /** A run in which nothing is buffered. */
  ghost predicate RendezvousRun(p: Plan, run: seq<State>) {
    |run| > 0 && Initial(p, run[0]) &&
    forall i: nat | i + 1 < |run| :: Fits(p, run[i]) && RendezvousStep(p, run[i], run[i + 1])
  }

  /** Between rounds: nothing is half done, and exactly the messages of the first `i` rounds have been
      sent, received and waited for. */
  ghost predicate AfterRound(p: Plan, R: Clock, st: State, i: int) {
    Fits(p, st) && st.net == map[] && (forall r: nat | r < |p.prog| :: !st.ranks[r].sent) &&
    forall s: nat, op | Has(p, s, op) && op.Send? && op.dst < |p.prog| ::
      (Done(p, st, s, op) <==> R(s, op) <= i) && (Done(p, st, op.dst, WaitFor(s, op)) <==> R(s, op) <= i)
  }

  /** A run without buffering that goes through the rounds of `R` one after another; `marks` are the
      positions of the states between rounds. */
  ghost predicate InRounds(p: Plan, R: Clock, run: seq<State>, marks: seq<nat>) {
    RendezvousRun(p, run) &&
    (forall i: nat, j: nat | i < j < |marks| :: marks[i] <= marks[j]) &&
    forall i: nat | i < |marks| :: marks[i] < |run| && AfterRound(p, R, run[marks[i]], i)
  }

  ghost predicate RunsFrom(p: Plan, R: Clock, st0: State, n: nat) {
    exists run, marks :: InRounds(p, R, run, marks) && run[0] == st0 && |marks| == n + 1
  }

  /** From every initial state, for any number of rounds, there is such a run. */
  ghost predicate RunsInRounds(p: Plan, R: Clock) {
    forall st0, n: nat | Initial(p, st0) :: RunsFrom(p, R, st0, n)
  }

  lemma IsRun(p: Plan, run: seq<State>)
    requires RendezvousRun(p, run)
    ensures Run(p, run)
  {
    hide RendezvousStep, Initial;
    forall i: nat | i + 1 < |run|
      ensures Next(p, run[i], run[i + 1])
    {
      StepIsNext(p, run[i], run[i + 1]);
    }
  }

  lemma Longer(p: Plan, run: seq<State>, st: State)
    requires RendezvousRun(p, run) && Fits(p, run[|run| - 1]) && RendezvousStep(p, run[|run| - 1], st)
    ensures RendezvousRun(p, run + [st])
  {
    hide RendezvousStep, Initial, Fits;
    var more := run + [st];
    forall i: nat | i + 1 < |more|
      ensures Fits(p, more[i]) && RendezvousStep(p, more[i], more[i + 1])
    {
      if i + 1 < |run| {
        assert Fits(p, run[i]) && RendezvousStep(p, run[i], run[i + 1]);
      }
    }
  }

  /** Exactly the operations before time `t` are done, and on the first `u` ranks those at `t` as well. */
  ghost predicate AtTime(p: Plan, T: Clock, st: State, t: int, u: nat) {
    Fits(p, st) && st.net == map[] && (forall r: nat | r < |p.prog| :: !st.ranks[r].sent) &&
    forall r: nat, op | Has(p, r, op) :: Done(p, st, r, op) <==> T(r, op) < t + if r < u then 1 else 0
  }

  lemma PassedIsDone(p: Plan, st: State, r: nat)
    requires Fits(p, st) && r < |p.prog|
    ensures forall i: nat | i < st.ranks[r].pc :: Done(p, st, r, p.prog[r][i])
  {
    var pc := st.ranks[r].pc;
    forall i: nat | i < pc
      ensures Done(p, st, r, p.prog[r][i])
    {
      assert p.prog[r][..pc][i] == p.prog[r][i];
    }
  }

  /** The operation of rank `u` at time `t`, if there is one, is its current one. */
  lemma NowCurrent(p: Plan, T: Clock, st: State, t: int, u: nat, op: Op)
    requires Ordered(p, T) && AtTime(p, T, st, t, u) && Has(p, u, op) && T(u, op) == t
    ensures Current(p, st, u, op)
  {
    var pc := st.ranks[u].pc;
    var i: nat :| i < |p.prog[u]| && p.prog[u][i] == op;
    PassedIsDone(p, st, u);
    assert pc <= i;
    CurrentNotDone(p, T, st, u, p.prog[u][pc]);
    assert T(u, p.prog[u][i]) <= T(u, p.prog[u][pc]);
    assert i <= pc;
  }

  lemma OtherIsLater(p: Plan, T: Clock, u: nat, op: Op, c: Op, t: int)
    requires Ordered(p, T) && Has(p, u, op) && Has(p, u, c) && op != c && T(u, op) == t <= T(u, c)
    ensures T(u, op) < T(u, c)
  {
    var i: nat :| i < |p.prog[u]| && p.prog[u][i] == op;
    var j: nat :| j < |p.prog[u]| && p.prog[u][j] == c;
    if i < j {
      assert T(u, p.prog[u][i]) < T(u, p.prog[u][j]);
    }
  }

  /** Once rank `u` has completed its operation at `t`, it is in step with the ranks before it. */
  lemma InStep(p: Plan, T: Clock, st: State, st': State, t: int, u: nat, op: Op)
    requires Ordered(p, T) && AtTime(p, T, st, t, u) && u < |p.prog| && Current(p, st, u, op) && T(u, op) == t
    requires Fits(p, st') && st'.net == map[]
    requires forall r: nat | r < |p.prog| ::
      !st'.ranks[r].sent && st'.ranks[r].pc == st.ranks[r].pc + if r == u then 1 else 0
    ensures AtTime(p, T, st', t, u + 1)
  {
    forall r: nat, x | Has(p, r, x)
      ensures Done(p, st', r, x) <==> T(r, x) < t + if r < u + 1 then 1 else 0
    {
      if r == u {
        DoneAfter(p, st, st', u, op, x);
        if T(u, x) == t && x != op {
          OtherIsLater(p, T, u, x, op, t);
        }
      } else {
        assert Done(p, st', r, x) == Done(p, st, r, x);
      }
    }
  }

  lemma PostNow(p: Plan, T: Clock, st: State, t: int, u: nat, op: Op) returns (st': State)
    requires Certified(p, T) && AtTime(p, T, st, t, u) && u < |p.prog| && Current(p, st, u, op) && T(u, op) == t
    requires op.Post?
    ensures RendezvousStep(p, st, st') && AtTime(p, T, st', t, u + 1)
  {
    hide SendsMeet, PostsMeet, WaitsMeet, KeysUnique, SendsHeld, Separate, Complete, AtTime;
    AtTimeFits(p, T, st, t, u);
    st' := st.(ranks := st.ranks[u := Advance(st.ranks[u])]);
    assert StepPost(p, st, st', u, op);
    assert RendezvousStep(p, st, st');
    InStep(p, T, st, st', t, u, op);
  }

  lemma AtTimeFits(p: Plan, T: Clock, st: State, t: int, u: nat)
    requires AtTime(p, T, st, t, u)
    ensures Fits(p, st) && st.net == map[] && forall r: nat | r < |p.prog| :: !st.ranks[r].sent
  {
  }

  /** An operation before `t` is done. */
  lemma Earlier(p: Plan, T: Clock, st: State, t: int, u: nat, r: nat, op: Op)
    requires AtTime(p, T, st, t, u) && Has(p, r, op)
    ensures T(r, op) < t ==> Done(p, st, r, op)
    ensures T(r, op) > t ==> !Done(p, st, r, op)
  {
  }

  /** A wait at `t`: its message was sent before, and nothing is in flight. */
  lemma WaitNow(p: Plan, T: Clock, st0: State, st: State, t: int, u: nat, op: Op) returns (st': State)
    requires Certified(p, T) && Inv(p, st0, st) && AtTime(p, T, st, t, u) && u < |p.prog|
    requires Current(p, st, u, op) && T(u, op) == t && op.Wait?
    ensures RendezvousStep(p, st, st') && AtTime(p, T, st', t, u + 1)
  {
    hide Separate, Complete, SendsHeld, Buffers, Flying, Waited, Posted, KeysUnique, AtTime;
    AtTimeFits(p, T, st, t, u);
    CurrentNotDone(p, T, st, u, op);
    assert Expects(p, u, op.src, op.tag);
    var off: nat, len: nat :| Has(p, u, Post(off, len, op.src, op.tag));
    var q := Post(off, len, op.src, op.tag);
    var m := Send(off, len, u, op.tag);
    assert Has(p, q.src, m) && PostFor(q.src, m) == q && WaitFor(q.src, m) == op;
    Earlier(p, T, st, t, u, q.src, m);
    assert Sent(p, st, q.src, m);
    st' := st.(ranks := st.ranks[u := Advance(st.ranks[u])]);
    assert StepWait(p, st, st', u, op);
    assert RendezvousStep(p, st, st');
    InStep(p, T, st, st', t, u, op);
  }

  /** A send at `t` meets its receive, which was posted before, and returns. */
  lemma SendNow(p: Plan, T: Clock, st0: State, st: State, t: int, u: nat, op: Op) returns (mid: State, st': State)
    requires Certified(p, T) && Inv(p, st0, st) && AtTime(p, T, st, t, u) && u < |p.prog|
    requires Current(p, st, u, op) && T(u, op) == t && op.Send?
    ensures RendezvousStep(p, st, mid) && Fits(p, mid) && RendezvousStep(p, mid, st') && AtTime(p, T, st', t, u + 1)
  {
    hide Separate, Complete, SendsHeld, Buffers, Flying, Waited, Posted, KeysUnique, PostsMeet, WaitsMeet, AtTime;
    AtTimeFits(p, T, st, t, u);
    CurrentNotDone(p, T, st, u, op);
    var q := PostFor(u, op);
    Earlier(p, T, st, t, u, op.dst, q);
    SentOnce(p, st, u, op);
    var data := st.ranks[u].buf[op.off..op.off + op.len];
    mid := st.(ranks := st.ranks[u := st.ranks[u].(sent := true)][op.dst := Receive(st.ranks[op.dst], q, data)]);
    assert StepMatch(p, st, mid, u, op, q);
    assert RendezvousStep(p, st, mid);
    StepsDecrease(p, st, mid) by { StepIsNext(p, st, mid); }
    st' := mid.(ranks := mid.ranks[u := Advance(mid.ranks[u])]);
    assert StepReturn(p, mid, st', u, op);
    assert RendezvousStep(p, mid, st');
    InStep(p, T, st, st', t, u, op);
  }

  /** Rank `u` does what it has to do at `t`, if anything. */
  lemma RankTick(p: Plan, T: Clock, run: seq<State>, t: int, u: nat) returns (run': seq<State>)
    requires Certified(p, T) && RendezvousRun(p, run) && AtTime(p, T, run[|run| - 1], t, u) && u < |p.prog|
    ensures RendezvousRun(p, run') && run <= run' && AtTime(p, T, run'[|run'| - 1], t, u + 1)
  {
    hide Certified, RendezvousStep, Initial, Inv;
    var st := run[|run| - 1];
    IsRun(p, run);
    RunKeeps(p, T, run, |run| - 1);
    AtTimeFits(p, T, st, t, u);
    if op :| Has(p, u, op) && T(u, op) == t {
      CertifiedOrdered(p, T);
      NowCurrent(p, T, st, t, u, op);
      match op
      case Post(_, _, _, _) =>
        var st' := PostNow(p, T, st, t, u, op);
        Longer(p, run, st');
        run' := run + [st'];
      case Wait(_, _) =>
        var st' := WaitNow(p, T, run[0], st, t, u, op);
        Longer(p, run, st');
        run' := run + [st'];
      case Send(_, _, _, _) =>
        var mid, st' := SendNow(p, T, run[0], st, t, u, op);
        Longer(p, run, mid);
        Longer(p, run + [mid], st');
        run' := run + [mid] + [st'];
    } else {
      run' := run;
    }
  }

  lemma CertifiedOrdered(p: Plan, T: Clock)
    requires Certified(p, T)
    ensures Ordered(p, T)
  {
  }

  /** All ranks from `u` on do what they have to do at `t`. */
  lemma {:induction false} Tick(p: Plan, T: Clock, run: seq<State>, t: int, u: nat) returns (run': seq<State>)
    requires Certified(p, T) && RendezvousRun(p, run) && AtTime(p, T, run[|run| - 1], t, u) && u <= |p.prog|
    ensures RendezvousRun(p, run') && run <= run' && AtTime(p, T, run'[|run'| - 1], t + 1, 0)
    decreases |p.prog| - u
  {
    hide Certified, RendezvousRun, Fits, Done;
    if u == |p.prog| {
      run' := run;
    } else {
      run' := RankTick(p, T, run, t, u);
      run' := Tick(p, T, run', t, u + 1);
    }
  }

  lemma {:induction false} Ticks(p: Plan, T: Clock, run: seq<State>, t: int, t': int) returns (run': seq<State>)
    requires Certified(p, T) && RendezvousRun(p, run) && AtTime(p, T, run[|run| - 1], t, 0) && t <= t'
    ensures RendezvousRun(p, run') && run <= run' && AtTime(p, T, run'[|run'| - 1], t', 0)
    decreases t' - t
  {
    hide Certified, RendezvousRun, AtTime;
    if t == t' {
      run' := run;
    } else {
      run' := Tick(p, T, run, t, 0);
      run' := Ticks(p, T, run', t + 1, t');
    }
  }

  /** The clock gives each round three ticks; the second is for the messages, the third for their waits. */
  ghost predicate Slotted(p: Plan, T: Clock, R: Clock) {
    (forall s: nat, op | Has(p, s, op) && op.Send? ::
      T(s, op) == 3 * R(s, op) - 2 && T(op.dst, WaitFor(s, op)) == 3 * R(s, op) - 1)
  }

  lemma RoundDone(p: Plan, T: Clock, R: Clock, st: State, i: int)
    requires Certified(p, T) && Slotted(p, T, R) && AtTime(p, T, st, 3 * i, 0)
    ensures AfterRound(p, R, st, i)
  {
    hide Ordered, PostsMeet, WaitsMeet, KeysUnique, SendsHeld, Separate, Complete;
    forall s: nat, op | Has(p, s, op) && op.Send? && op.dst < |p.prog|
      ensures Done(p, st, s, op) <==> R(s, op) <= i
      ensures Done(p, st, op.dst, WaitFor(s, op)) <==> R(s, op) <= i
    {
      assert Has(p, op.dst, WaitFor(s, op));
    }
  }

  /** The run through the first `n` rounds. */
  lemma {:induction false} ThroughRounds(p: Plan, T: Clock, R: Clock, st0: State, t0: int, n: nat)
    returns (run: seq<State>, marks: seq<nat>)
    requires Certified(p, T) && Slotted(p, T, R) && Initial(p, st0)
    requires t0 <= 0 && forall r: nat, op | Has(p, r, op) :: T(r, op) >= t0
    ensures InRounds(p, R, run, marks) && run[0] == st0 && |marks| == n + 1 && marks[n] == |run| - 1
    ensures AtTime(p, T, run[|run| - 1], 3 * n, 0)
  {
    hide Certified, Slotted, AfterRound, Initial, AtTime;
    if n == 0 {
      StartsAt(p, T, st0, t0);
      var first := [st0];
      assert RendezvousRun(p, first);
      run := Ticks(p, T, first, t0, 0);
      marks := [|run| - 1];
      RoundDone(p, T, R, run[|run| - 1], 0);
    } else {
      var run', marks' := ThroughRounds(p, T, R, st0, t0, n - 1);
      run := Ticks(p, T, run', 3 * (n - 1), 3 * n);
      marks := marks' + [|run| - 1];
      RoundDone(p, T, R, run[|run| - 1], n);
      forall i: nat | i < |marks|
        ensures marks[i] < |run| && AfterRound(p, R, run[marks[i]], i)
      {
        if i < n {
          assert run[marks[i]] == run'[marks'[i]];
        }
      }
    }
  }

  lemma StartsAt(p: Plan, T: Clock, st0: State, t0: int)
    requires Certified(p, T) && Initial(p, st0) && forall r: nat, op | Has(p, r, op) :: T(r, op) >= t0
    ensures AtTime(p, T, st0, t0, 0)
  {
    assert forall r: nat, op | Has(p, r, op) :: p.prog[r][..0] == [];
  }

  /** A plan whose clock keeps rounds apart runs in these rounds. */
  lemma ClockRuns(p: Plan, T: Clock, R: Clock, t0: int)
    requires Certified(p, T) && Slotted(p, T, R)
    requires t0 <= 0 && forall r: nat, op | Has(p, r, op) :: T(r, op) >= t0
    ensures RunsInRounds(p, R)
  {
    hide Certified, Slotted, InRounds, Initial, AtTime;
    forall st0, n: nat | Initial(p, st0)
      ensures RunsFrom(p, R, st0, n)
    {
      var run, marks := ThroughRounds(p, T, R, st0, t0, n);
    }
  }

  // -------------------------------------------------------------- lower bound

  ghost predicate SomeSendAt(p: Plan, R: Clock, round: int) {
    exists s: nat, op :: Has(p, s, op) && op.Send? && R(s, op) >= round
  }

  ghost predicate Hears(p: Plan, R: Clock, r: nat, t: int) {
    exists s: nat, op :: Has(p, s, op) && op.Send? && op.dst == r && R(s, op) <= t
  }

  /** The ranks that have data to send after round `t`. */
  ghost function Informed(p: Plan, R: Clock, t: int): set<nat> {
    set r: nat | r < |p.prog| && (r == p.root || Hears(p, R, r, t))
  }

  ghost predicate SendsIn(p: Plan, R: Clock, s: nat, t: int, op: Op) {
    Has(p, s, op) && op.Send? && R(s, op) == t
  }

  /** Whom rank `s` sends to in round `t`; the root if it does not send. */
  ghost function Target(p: Plan, R: Clock, t: int, s: nat): nat {
    if exists op :: SendsIn(p, R, s, t, op) then (var op :| SendsIn(p, R, s, t, op); op.dst) else p.root
  }

  lemma OneSend(p: Plan, R: Clock, s: nat, t: int, op: Op, op': Op)
    requires Paced(p, R) && SendsIn(p, R, s, t, op) && SendsIn(p, R, s, t, op')
    ensures op == op'
  {
    var i: nat :| i < |p.prog[s]| && p.prog[s][i] == op;
    var j: nat :| j < |p.prog[s]| && p.prog[s][j] == op';
    assert i < j ==> Before(p, s, op, op');
    assert j < i ==> Before(p, s, op', op);
  }

  /** A sender in round `t` had its data before. */
  lemma SenderInformed(p: Plan, T: Clock, R: Clock, s: nat, t: int, op: Op)
    requires Certified(p, T) && Paced(p, R) && SendsIn(p, R, s, t, op)
    ensures s in Informed(p, R, t - 1)
  {
    hide Ordered, SendsMeet, WaitsMeet, KeysUnique, Separate, Complete;
    if s != p.root {
      var src: nat, tag: int :| Has(p, s, Post(op.off, op.len, src, tag)) && T(s, Wait(src, tag)) < T(s, op);
      var q := Post(op.off, op.len, src, tag);
      var m := Send(q.off, q.len, s, q.tag);
      assert Has(p, q.src, m) && R(q.src, m) < R(s, op);
    }
  }

  /** Informed ranks at most double from round to round. */
  lemma InformedDoubles(p: Plan, T: Clock, R: Clock, t: int)
    requires Certified(p, T) && Paced(p, R)
    ensures |Informed(p, R, t)| <= 2 * |Informed(p, R, t - 1)|
  {
    hide Certified, Paced;
    var old', now := Informed(p, R, t - 1), Informed(p, R, t);
    var f: nat -> nat := s => Target(p, R, t, s);
    forall r | r in now
      ensures r in old' + Image(old', f)
    {
      if r != p.root && !Hears(p, R, r, t - 1) {
        var s: nat, op :| Has(p, s, op) && op.Send? && op.dst == r && R(s, op) <= t;
        assert SendsIn(p, R, s, t, op);
        SenderInformed(p, T, R, s, t, op);
        var op' :| SendsIn(p, R, s, t, op') && f(s) == op'.dst;
        OneSend(p, R, s, t, op, op');
      }
    }
    assert now <= old' + Image(old', f);
    Subset(now, old' + Image(old', f));
    ImageSize(old', f);
  }

  lemma {:induction false} Subset(a: set<nat>, b: set<nat>)
    requires a <= b
    ensures |a| <= |b|
  {
    assert b == a + (b - a);
  }

  lemma {:induction false} InformedBound(p: Plan, T: Clock, R: Clock, t: nat)
    requires Certified(p, T) && Paced(p, R)
    ensures |Informed(p, R, t)| <= Pow2(t)
  {
    hide Certified;
    if t == 0 {
      assert forall r: nat :: !Hears(p, R, r, 0);
      Subset(Informed(p, R, 0), {p.root});
    } else {
      InformedBound(p, T, R, t - 1);
      InformedDoubles(p, T, R, t);
    }
  }

  ghost predicate Listens(p: Plan, r: nat) {
    exists q :: Has(p, r, q) && q.Post?
  }

  /** No schedule, however fast the messages, informs more than 2^t ranks in `t` rounds. */
  lemma LogRounds(p: Plan, T: Clock, R: Clock, t: nat)
    requires Certified(p, T) && Paced(p, R) && !SomeSendAt(p, R, t + 1)
    requires forall r: nat | r < |p.prog| && r != p.root :: Listens(p, r)
    ensures |p.prog| <= Pow2(t)
  {
    hide Ordered, SendsMeet, WaitsMeet, KeysUnique, SendsHeld, Separate, Complete, Paced;
    forall r: nat | r < |p.prog|
      ensures r in Informed(p, R, t)
    {
      if r != p.root {
        assert Listens(p, r);
        var q :| Has(p, r, q) && q.Post?;
        var m := Send(q.off, q.len, r, q.tag);
        assert Has(p, q.src, m) && R(q.src, m) <= t;
      }
    }
    Subset(First(|p.prog|), Informed(p, R, t));
    InformedBound(p, T, R, t);
  }

  ghost function First(n: nat): (s: set<nat>)
    ensures |s| == n && forall r: nat :: r in s <==> r < n
  {
    if n == 0 then {} else First(n - 1) + {n - 1}
  }
}
