/** Waiting under round robin, as kernel/src/scheduler.cpp does it: the exact number of ticks a ready
    process waits, on every run, and the bounds that follow. */
module RoundRobin {
  import opened Collections
  import opened Scheduling

  // ---- How long a process waits -------------------------------------------------------------------

  predicate Ended(procs: map<Pid, Process>, x: Pid) { x in procs ==> procs[x].pc >= |procs[x].code| }

  function AtLeastOne(n: nat): nat { if n == 0 then 1 else n }

  /** The ticks a ready process will hold the CPU: one if its code has ended, else its quantum, renewed
      if it is used up. */
  function Hold(procs: map<Pid, Process>, quantum: nat, x: Pid): nat {
    if Ended(procs, x) then 1 else AtLeastOne(if procs[x].quantum == 0 then quantum else procs[x].quantum)
  }

  /** The ticks until the CPU is taken from the running process. */
  function Turn(s: Scheduler): nat {
    if Ended(s.procs, s.current) then 1 else AtLeastOne(s.procs[s.current].quantum)
  }

  /** What the processes before p in a queue will hold. */
  function Before(procs: map<Pid, Process>, quantum: nat, q: seq<Pid>, p: Pid): nat {
    if q == [] || q[0] == p then 0 else Hold(procs, quantum, q[0]) + Before(procs, quantum, q[1..], p)
  }

  /** The ticks until p runs. */
  function Due(s: Scheduler, p: Pid): nat { Turn(s) + Before(s.procs, s.quantum, s.ready, p) }

  ghost predicate InTurn(s: Scheduler) { Agree(s) && s.algorithm == Algorithm.RoundRobin }

  lemma {:induction false} BeforeAppend(procs: map<Pid, Process>, quantum: nat, q: seq<Pid>, p: Pid, x: Pid)
    requires p in q
    ensures Before(procs, quantum, q + [x], p) == Before(procs, quantum, q, p)
    decreases |q|
  {
    if q[0] != p {
      assert (q + [x])[1..] == q[1..] + [x];
      BeforeAppend(procs, quantum, q[1..], p, x);
    }
  }

  lemma {:induction false} BeforeRemove(procs: map<Pid, Process>, quantum: nat, q: seq<Pid>, p: Pid, x: Pid)
    requires p in q && p != x
    ensures Before(procs, quantum, Remove(q, x), p) <= Before(procs, quantum, q, p)
    decreases |q|
  {
    if q[0] == x {
      BeforeRemove(procs, quantum, q[1..], p, x);
    } else if q[0] != p {
      BeforeRemove(procs, quantum, q[1..], p, x);
      assert Remove(q, x)[1..] == Remove(q[1..], x);
    }
  }

  /** Only the holds of the processes in the queue matter. */
  lemma {:induction false} BeforeSame(procs: map<Pid, Process>, procs': map<Pid, Process>, quantum: nat, q: seq<Pid>, p: Pid)
    requires forall x :: x in q && x != p ==> Hold(procs', quantum, x) == Hold(procs, quantum, x)
    ensures Before(procs', quantum, q, p) == Before(procs, quantum, q, p)
    decreases |q|
  {
    if q != [] && q[0] != p { BeforeSame(procs, procs', quantum, q[1..], p); }
  }

  lemma RemoveFront(q: seq<Pid>)
    requires q != [] && NoDup(q)
    ensures Remove(q, q[0]) == q[1..]
  {
    assert q[0] !in q[1..];
    RemoveNone(q[1..], q[0]);
  }

  // ---- One tick -----------------------------------------------------------------------------------

  lemma ReapExact(s: Scheduler, p: Pid)
    requires InTurn(s) && p in s.ready
    ensures p != INVALID_PID && (s.current == INVALID_PID ==> Ended(s.procs, s.current))
    ensures var a := Reap(s);
            && InTurn(a) && a.ready == s.ready && a.quantum == s.quantum
            && Before(a.procs, a.quantum, a.ready, p) == Before(s.procs, s.quantum, s.ready, p)
            && (if Ended(s.procs, s.current) then a.current == INVALID_PID else a == s)
  {
    ReapAgrees(s);
    if s.current != INVALID_PID { RemoveNone(s.ready, s.current); }
    BeforeSame(s.procs, Reap(s).procs, s.quantum, s.ready, p);
  }

  /** The running process keeps the CPU with less of its quantum, or goes behind p. */
  lemma ChargeExact(s: Scheduler, p: Pid)
    requires InTurn(s) && p in s.ready && (s.current == INVALID_PID || !Ended(s.procs, s.current))
    ensures var b := Charge(s);
            && InTurn(b) && p in b.ready && b.quantum == s.quantum
            && Before(b.procs, b.quantum, b.ready, p) == Before(s.procs, s.quantum, s.ready, p)
            && (s.current == INVALID_PID || Turn(s) == 1 ==> b.current == INVALID_PID)
            && (s.current != INVALID_PID && Turn(s) > 1 ==>
                  b.current == s.current && b.current in b.procs && Turn(b) == Turn(s) - 1 && b.procs[b.current].quantum > 0)
  {
    ChargeAgrees(s);
    CurrentKnown(s);
    var b := Charge(s);
    if s.current != INVALID_PID {
      BeforeAppend(s.procs, s.quantum, s.ready, p, s.current);
      BeforeSame(s.procs, b.procs, s.quantum, s.ready, p);
      BeforeAppend(b.procs, s.quantum, s.ready, p, s.current);
    }
  }

  /** A free CPU goes to the front of the queue. */
  lemma DispatchExact(s: Scheduler, p: Pid)
    requires InTurn(s) && p in s.ready && (s.current == INVALID_PID || (s.current in s.procs && s.procs[s.current].quantum > 0))
    ensures var c := Dispatch(s);
            && InTurn(c) && (s.current != INVALID_PID ==> c == s)
            && (s.current == INVALID_PID && s.ready[0] == p ==> c.current == p)
            && (s.current == INVALID_PID && s.ready[0] != p ==>
                  p in c.ready && c.current != p
                  && Turn(c) + Before(c.procs, c.quantum, c.ready, p) == Before(s.procs, s.quantum, s.ready, p))
  {
    DispatchAgrees(s);
    if s.current == INVALID_PID {
      RemoveFront(s.ready);
      if s.ready[0] != p { BeforeSame(s.procs, Dispatch(s).procs, s.quantum, s.ready[1..], p); }
    }
  }

  lemma DuePositive(s: Scheduler, p: Pid)
    ensures Due(s, p) >= 1
  {
  }

  /** Each tick lowers what is due by exactly one, and p runs exactly when one was due. */
  lemma TickExact(s: Scheduler, p: Pid)
    requires InTurn(s) && p in s.ready
    ensures var s1 := Tick(s);
            && InTurn(s1)
            && (Due(s, p) == 1 ==> s1.current == p)
            && (Due(s, p) > 1 ==> s1.current != p && p in s1.ready && Due(s1, p) == Due(s, p) - 1)
  {
    hide Agree, Reap, Charge, Dispatch, Before, Ended;
    assert Boosted(s) == s;
    var a := Reap(s);
    ReapExact(s, p);
    var b := Charge(a);
    ChargeExact(a, p);
    CurrentKnown(b);
    DispatchExact(b, p);
    FrontDue(b.procs, b.quantum, b.ready, p);
    CurrentKnown(Dispatch(b));
    assert Tick(s) == Dispatch(b);
  }

  lemma FrontDue(procs: map<Pid, Process>, quantum: nat, q: seq<Pid>, p: Pid)
    requires p in q
    ensures Before(procs, quantum, q, p) == 0 <==> q[0] == p
  {
  }

  // ---- Other operations -----------------------------------------------------------------------------

  /** Operations on processes other than p. */
  ghost predicate Spares(op: Op, p: Pid) {
    match op
    case OpKill(pid) => pid != p
    case OpSuspend(pid) => pid != p
    case OpAlgorithm(_) => false
    case OpQuantum(_) => false
    case _ => true
  }

  ghost predicate GoesOn(c: Process, c': Process, running: bool) {
    c'.quantum == c.quantum && c'.code == c.code && c'.pc >= c.pc && (!running ==> c'.pc == c.pc)
  }

  /** What an operation that spares p does to the others: it changes no quantum and no code, and moves
      no counter but that of the running process. */
  lemma SpareKeeps(s: Scheduler, op: Op, p: Pid)
    requires Agree(s) && Spares(op, p) && op != OpTick
    ensures var s1 := Apply(s, op);
            && s1.algorithm == s.algorithm && s1.quantum == s.quantum && (s1.current == s.current || s1.current == INVALID_PID)
            && INVALID_PID !in s1.procs && INVALID_PID !in s.procs
            && forall x :: x in s.procs ==> x in s1.procs && GoesOn(s.procs[x], s1.procs[x], x == s.current)
  {
    assert s.next !in s.procs;
    if op == OpExecute && s.current != INVALID_PID { ExecuteKeeps(s); }
  }

  lemma ExecuteKeeps(s: Scheduler)
    requires s.current != INVALID_PID && s.current in s.procs
    ensures var s1 := Execute(s);
            && s1.algorithm == s.algorithm && s1.quantum == s.quantum && (s1.current == s.current || s1.current == INVALID_PID)
            && s1.procs.Keys == s.procs.Keys
            && forall x :: x in s.procs ==> GoesOn(s.procs[x], s1.procs[x], x == s.current)
  {
    var a := Advanced(s);
    assert a.procs.Keys == s.procs.Keys;
    assert Blocked(a).procs.Keys == s.procs.Keys;
    assert Kill(s, s.current).procs.Keys == s.procs.Keys;
  }

  /** An operation that spares p puts nobody before it. */
  lemma SpareQueue(s: Scheduler, op: Op, p: Pid, procs: map<Pid, Process>)
    requires Agree(s) && p in s.ready && Spares(op, p) && op != OpTick
    ensures var s1 := Apply(s, op);
            p in s1.ready && Before(procs, s.quantum, s1.ready, p) <= Before(procs, s.quantum, s.ready, p)
  {
    hide Before, Hold;
    match op
    case OpCreate(priority, code) => BeforeAppend(procs, s.quantum, s.ready, p, s.next);
    case OpKill(pid) => BeforeRemove(procs, s.quantum, s.ready, p, pid);
    case OpSuspend(pid) => BeforeRemove(procs, s.quantum, s.ready, p, pid);
    case OpResume(pid) => BeforeAppend(procs, s.quantum, s.ready, p, pid);
    case OpExecute => if s.current != INVALID_PID { ExecuteQueue(s, p, procs); }
  }

  lemma ExecuteQueue(s: Scheduler, p: Pid, procs: map<Pid, Process>)
    requires Agree(s) && p in s.ready && s.current != INVALID_PID
    ensures p in Execute(s).ready && Before(procs, s.quantum, Execute(s).ready, p) <= Before(procs, s.quantum, s.ready, p)
  {
    hide Agree, Before;
    CurrentKnown(s);
    BeforeRemove(procs, s.quantum, s.ready, p, s.current);
  }

  /** Those in the queue hold what they held, and the running process no longer than before. */
  lemma HoldsKept(s: Scheduler, s1: Scheduler, p: Pid)
    requires Agree(s) && INVALID_PID !in s1.procs && (s1.current == s.current || s1.current == INVALID_PID)
    requires forall x :: x in s.procs ==> x in s1.procs && GoesOn(s.procs[x], s1.procs[x], x == s.current)
    ensures Before(s1.procs, s.quantum, s.ready, p) == Before(s.procs, s.quantum, s.ready, p) && Turn(s1) <= Turn(s)
  {
    forall x | x in s.ready ensures Hold(s1.procs, s.quantum, x) == Hold(s.procs, s.quantum, x) {
      assert x in s.procs && x != s.current;
    }
    BeforeSame(s.procs, s1.procs, s.quantum, s.ready, p);
  }

  /** An operation that spares p never delays it. */
  lemma SpareDue(s: Scheduler, op: Op, p: Pid)
    requires InTurn(s) && p in s.ready && Spares(op, p) && op != OpTick
    ensures var s1 := Apply(s, op); InTurn(s1) && p in s1.ready && s1.current != p && Due(s1, p) <= Due(s, p)
  {
    hide Apply, Before, Agree, Turn;
    var s1 := Apply(s, op);
    StepAgrees(s, op);
    SpareKeeps(s, op, p);
    SpareQueue(s, op, p, s1.procs);
    HoldsKept(s, s1, p);
    NotRunning(s1, p);
  }

  lemma NotRunning(s: Scheduler, p: Pid)
    requires Agree(s) && p in s.ready
    ensures p != INVALID_PID && p != s.current
  {
  }

  // ---- Exactly when p runs --------------------------------------------------------------------------

  ghost predicate Sparing(ops: seq<Op>, p: Pid) { forall i :: 0 <= i < |ops| ==> Spares(ops[i], p) }

  /** p has the CPU at some point of the run. */
  ghost predicate RunsIn(s: Scheduler, ops: seq<Op>, p: Pid) {
    exists i :: 0 <= i <= |ops| && Run(s, ops[..i]).current == p
  }

  function Ticks(ops: seq<Op>): nat {
    if ops == [] then 0 else (if ops[0] == OpTick then 1 else 0) + Ticks(ops[1..])
  }

  lemma RunsLater(s: Scheduler, ops: seq<Op>, p: Pid)
    requires ops != [] && RunsIn(Apply(s, ops[0]), ops[1..], p)
    ensures RunsIn(s, ops, p)
  {
    hide Apply;
    var s1 := Apply(s, ops[0]);
    var j :| 0 <= j <= |ops| - 1 && Run(s1, ops[1..][..j]).current == p;
    assert ops[..j + 1][1..] == ops[1..][..j];
    assert Run(s, ops[..j + 1]).current == p;
  }

  lemma RunsNow(s: Scheduler, ops: seq<Op>, p: Pid)
    requires s.current == p
    ensures RunsIn(s, ops, p)
  {
    assert Run(s, ops[..0]) == s;
  }

  lemma {:induction false} RunsInTime(s: Scheduler, ops: seq<Op>, p: Pid)
    requires InTurn(s) && p in s.ready && Sparing(ops, p) && Ticks(ops) >= Due(s, p)
    ensures RunsIn(s, ops, p)
    decreases |ops|
  {
    hide InTurn, Apply, Due, RunsIn, Run;
    DuePositive(s, p);
    var s1 := Apply(s, ops[0]);
    assert Spares(ops[0], p);
    if ops[0] == OpTick {
      TickExact(s, p);
      TickIs(s);
    } else {
      SpareDue(s, ops[0], p);
    }
    if s1.current == p { RunsNow(s1, ops[1..], p); } else { RunsInTime(s1, ops[1..], p); }
    RunsLater(s, ops, p);
  }

  lemma TickIs(s: Scheduler)
    ensures Apply(s, OpTick) == Tick(s)
  {
  }

  function OnlyTicks(n: nat): (ops: seq<Op>)
    ensures |ops| == n && forall i :: 0 <= i < n ==> ops[i] == OpTick
  {
    seq(n, _ => OpTick)
  }

  lemma {:induction false} CountTicks(n: nat)
    ensures Ticks(OnlyTicks(n)) == n
  {
    if n > 0 {
      assert OnlyTicks(n)[1..] == OnlyTicks(n - 1);
      CountTicks(n - 1);
    }
  }

  /** With nothing but ticks p does not run before it is due. */
  lemma NotBefore(s: Scheduler, p: Pid, n: nat)
    requires InTurn(s) && p in s.ready && n < Due(s, p)
    ensures !RunsIn(s, OnlyTicks(n), p)
  {
    hide InTurn, Due, Run;
    forall i | 0 <= i <= n ensures Run(s, OnlyTicks(n)[..i]).current != p {
      assert OnlyTicks(n)[..i] == OnlyTicks(i);
      TicksOnly(s, p, i);
    }
  }

  lemma {:induction false} TicksOnly(s: Scheduler, p: Pid, n: nat)
    requires InTurn(s) && p in s.ready && n < Due(s, p)
    ensures Run(s, OnlyTicks(n)).current != p
    decreases n
  {
    hide Due, Tick, Agree;
    if n == 0 {
      NotRunning(s, p);
    } else {
      TickExact(s, p);
      assert OnlyTicks(n)[1..] == OnlyTicks(n - 1);
      TicksOnly(Tick(s), p, n - 1);
    }
  }

  /** p runs in every run that spares it and has at least n ticks, if and only if at most n are due. */
  lemma RunsIff(s: Scheduler, p: Pid, n: nat)
    requires InTurn(s) && p in s.ready
    ensures Due(s, p) <= n <==> forall ops :: Sparing(ops, p) && Ticks(ops) >= n ==> RunsIn(s, ops, p)
  {
    hide InTurn, Due, RunsIn, Run;
    if Due(s, p) <= n {
      forall ops | Sparing(ops, p) && Ticks(ops) >= n ensures RunsIn(s, ops, p) { RunsInTime(s, ops, p); }
    } else {
      NotBefore(s, p, n);
      CountTicks(n);
      assert Sparing(OnlyTicks(n), p);
    }
  }

  /** The bound by the configured quantum: a process at index k runs within (k + 1) * quantum ticks, on
      every run that spares it, if and only if no more are due. */
  lemma ConfiguredBoundIff(s: Scheduler, p: Pid, k: nat)
    requires InTurn(s) && k < |s.ready| && s.ready[k] == p
    ensures Due(s, p) <= (k + 1) * s.quantum <==>
            forall ops :: Sparing(ops, p) && Ticks(ops) >= (k + 1) * s.quantum ==> RunsIn(s, ops, p)
  {
    RunsIff(s, p, (k + 1) * s.quantum);
  }

  // ---- Bounds ----------------------------------------------------------------------------------------

  /** No quantum, handed out or to be handed out, is above q. */
  ghost predicate RoundRobinWith(s: Scheduler, q: nat) {
    InTurn(s) && s.quantum <= q && forall p :: p in s.procs ==> s.procs[p].quantum <= q
  }

  lemma MulMono(a: nat, b: nat, q: nat)
    requires a <= b
    ensures a * q <= b * q
  {
    assert b * q == a * q + (b - a) * q;
  }

  lemma {:induction false} BeforeBound(procs: map<Pid, Process>, quantum: nat, q: seq<Pid>, p: Pid, k: nat, most: nat)
    requires k < |q| && q[k] == p && most >= 1 && quantum <= most && forall x :: x in procs ==> procs[x].quantum <= most
    ensures Before(procs, quantum, q, p) <= k * most
    decreases |q|
  {
    if q[0] != p {
      BeforeBound(procs, quantum, q[1..], p, k - 1, most);
      assert k * most == (k - 1) * most + most;
    } else {
      MulMono(0, k, most);
    }
  }

  lemma DueBound(s: Scheduler, p: Pid, k: nat, q: nat)
    requires q >= 1 && RoundRobinWith(s, q) && k < |s.ready| && s.ready[k] == p
    ensures Due(s, p) <= (k + 1) * q
  {
    BeforeBound(s.procs, s.quantum, s.ready, p, k, q);
    assert (k + 1) * q == k * q + q;
  }

  /** A process at index k of the ready queue runs within (k + 1) * q ticks, whatever creations, kills,
      suspensions, resumptions and instructions of other processes happen. */
  lemma BoundedWaiting(s: Scheduler, ops: seq<Op>, p: Pid, k: nat, q: nat)
    requires q >= 1 && RoundRobinWith(s, q) && k < |s.ready| && s.ready[k] == p
    requires Sparing(ops, p) && Ticks(ops) >= (k + 1) * q
    ensures RunsIn(s, ops, p)
  {
    DueBound(s, p, k, q);
    RunsInTime(s, ops, p);
  }

  /** No quantum is above q, nor will be: the multilevel queue hands out up to 8. */
  ghost predicate QuantaAtMost(s: Scheduler, q: nat) {
    && s.quantum <= q && (s.algorithm.Multilevel? ==> 8 <= q)
    && forall p :: p in s.procs ==> s.procs[p].quantum <= q
  }

  /** Operations that hand out no quantum above q. */
  ghost predicate Within(op: Op, q: nat) {
    match op
    case OpQuantum(x) => x <= q
    case OpAlgorithm(k) => k == KMultilevel ==> 8 <= q
    case _ => true
  }

  lemma TickQuanta(s: Scheduler, q: nat)
    requires Agree(s) && QuantaAtMost(s, q)
    ensures QuantaAtMost(Tick(s), q)
  {
    hide Agree, SelectNext, ShouldPreempt;
    BoostQuanta(s, q);
    var b := Boosted(s);
    ReapQuanta(b, q);
    ChargeQuanta(Reap(b), q);
    DispatchQuanta(Charge(Reap(b)), q);
  }

  lemma BoostQuanta(s: Scheduler, q: nat)
    requires QuantaAtMost(s, q)
    ensures QuantaAtMost(Boosted(s), q)
  {
  }

  lemma ReapQuanta(s: Scheduler, q: nat)
    requires QuantaAtMost(s, q)
    ensures QuantaAtMost(Reap(s), q)
  {
  }

  lemma ChargeQuanta(s: Scheduler, q: nat)
    requires QuantaAtMost(s, q)
    ensures QuantaAtMost(Charge(s), q)
  {
    hide ShouldPreempt;
  }

  lemma DispatchQuanta(s: Scheduler, q: nat)
    requires QuantaAtMost(s, q)
    ensures QuantaAtMost(Dispatch(s), q)
  {
    hide SelectNext;
  }

  lemma StepQuanta(s: Scheduler, op: Op, q: nat)
    requires Agree(s) && QuantaAtMost(s, q) && Within(op, q)
    ensures QuantaAtMost(Apply(s, op), q)
  {
    hide Tick;
    match op
    case OpTick => TickQuanta(s, q);
    case OpExecute => if s.current != INVALID_PID { ExecuteKeeps(s); }
    case _ =>
  }

  lemma {:induction false} RunQuanta(s: Scheduler, ops: seq<Op>, q: nat)
    requires Agree(s) && QuantaAtMost(s, q) && forall i :: 0 <= i < |ops| ==> Within(ops[i], q)
    ensures Agree(Run(s, ops)) && QuantaAtMost(Run(s, ops), q)
    decreases |ops|
  {
    hide Agree, QuantaAtMost, Apply;
    if ops != [] {
      StepAgrees(s, ops[0]);
      StepQuanta(s, ops[0], q);
      RunQuanta(Apply(s, ops[0]), ops[1..], q);
    }
  }

  /** From start-up, through any switches of algorithm and quantum: whenever round robin is in force
      a process at index k of the ready queue runs within (k + 1) * q ticks, where q is the largest
      quantum handed out so far. */
  lemma BoundedWaitingOnRuns(kind: AlgorithmKind, quantum: nat, maxProcesses: nat, past: seq<Op>, ops: seq<Op>, p: Pid, k: nat, q: nat)
    requires q >= 1 && quantum <= q && (kind == KMultilevel ==> 8 <= q) && forall i :: 0 <= i < |past| ==> Within(past[i], q)
    requires var s := Run(Initial(kind, quantum, maxProcesses), past);
             s.algorithm == Algorithm.RoundRobin && k < |s.ready| && s.ready[k] == p
    requires Sparing(ops, p) && Ticks(ops) >= (k + 1) * q
    ensures RunsIn(Run(Initial(kind, quantum, maxProcesses), past), ops, p)
  {
    RunQuanta(Initial(kind, quantum, maxProcesses), past, q);
    hide Run;
    BoundedWaiting(Run(Initial(kind, quantum, maxProcesses), past), ops, p, k, q);
  }

  lemma {:induction false} StaysRoundRobin(s: Scheduler, ops: seq<Op>)
    requires s.algorithm == Algorithm.RoundRobin && forall i :: 0 <= i < |ops| ==> !ops[i].OpAlgorithm? && !ops[i].OpQuantum?
    ensures Run(s, ops).algorithm == Algorithm.RoundRobin && Run(s, ops).quantum == s.quantum
    decreases |ops|
  {
    if ops != [] {
      if ops[0] == OpTick { TickStays(s); }
      StaysRoundRobin(Apply(s, ops[0]), ops[1..]);
    }
  }

  lemma TickStays(s: Scheduler)
    requires s.algorithm == Algorithm.RoundRobin
    ensures Tick(s).algorithm == Algorithm.RoundRobin && Tick(s).quantum == s.quantum
  {
    hide SelectNext, ShouldPreempt;
  }

  /** Under round robin alone the bound is the configured quantum. */
  lemma BoundedWaitingAlone(q: nat, maxProcesses: nat, past: seq<Op>, ops: seq<Op>, p: Pid, k: nat)
    requires q >= 1 && forall i :: 0 <= i < |past| ==> !past[i].OpAlgorithm? && !past[i].OpQuantum?
    requires var s := Run(Initial(KRoundRobin, q, maxProcesses), past); k < |s.ready| && s.ready[k] == p
    requires Sparing(ops, p) && Ticks(ops) >= (k + 1) * q
    ensures RoundRobinWith(Run(Initial(KRoundRobin, q, maxProcesses), past), q)
    ensures RunsIn(Run(Initial(KRoundRobin, q, maxProcesses), past), ops, p)
  {
    var s0 := Initial(KRoundRobin, q, maxProcesses);
    StaysRoundRobin(s0, past);
    RunQuanta(s0, past, q);
    hide Run;
    BoundedWaitingOnRuns(KRoundRobin, q, maxProcesses, past, ops, p, k, q);
  }

  function SwitchOps(code: seq<Instruction>): seq<Op> {
    [OpCreate(0, code), OpAlgorithm(KMultilevel), OpSuspend(2), OpAlgorithm(KRoundRobin), OpResume(2), OpCreate(0, code)]
  }

  /** After a switch from the multilevel queue the configured quantum is no bound: a process that
      was suspended over the switch keeps its old quantum of 2, and the one behind it has not run
      after (1 + 1) * 1 ticks. */
  lemma OldQuantumDelays(code: seq<Instruction>)
    requires code != []
    ensures var s := Run(Initial(KRoundRobin, 1, 8), SwitchOps(code));
            && InTurn(s) && s.quantum == 1 && s.ready == [2, 3] && Due(s, 3) == 3
            && !RunsIn(s, OnlyTicks((1 + 1) * 1), 3)
  {
    hide Run, Apply, Due, Agree, Initial;
    var a := Process(Ready, 0, 1, 0, code, 0);
    var s0 := Initial(KRoundRobin, 1, 8);
    var s1 := FirstCreated(a);
    var s2, s3 := SuspendedInMultilevel(s1, a);
    var s4, s5, s6 := ResumedInRoundRobin(s3, a);
    RunSwitchOps(s0, code, s1, s2, s3, s4, s5, s6);
    RunAgrees(KRoundRobin, 1, 8, SwitchOps(code));
    ThreeDue(s6, a);
    NotBefore(s6, 3, 2);
  }

  lemma FirstCreated(a: Process) returns (s1: Scheduler)
    requires a == Process(Ready, 0, 1, 0, a.code, 0)
    ensures s1 == Apply(Initial(KRoundRobin, 1, 8), OpCreate(0, a.code))
    ensures s1 == Scheduler(map[2 := a], [2], [], 0, 3, Algorithm.RoundRobin, 1, 8)
  {
    s1 := Apply(Initial(KRoundRobin, 1, 8), OpCreate(0, a.code));
  }

  lemma ThreeDue(s: Scheduler, a: Process)
    requires a.quantum == 1 && a.pc < |a.code|
    requires s == Scheduler(map[2 := a.(quantum := 2), 3 := a], [2, 3], [], 0, 4, Algorithm.RoundRobin, 1, 8)
    ensures Due(s, 3) == 3
  {
    var q: seq<Pid> := [2, 3];
    assert q[1..] == [3];
    assert Before(s.procs, 1, q[1..], 3) == 0;
    assert Hold(s.procs, 1, 2) == 2 && Turn(s) == 1;
  }

  lemma SuspendedInMultilevel(s1: Scheduler, a: Process) returns (s2: Scheduler, s3: Scheduler)
    requires a.state == Ready && a.level == 0 && s1 == Scheduler(map[2 := a], [2], [], 0, 3, Algorithm.RoundRobin, 1, 8)
    ensures s2 == Apply(s1, OpAlgorithm(KMultilevel)) && s3 == Apply(s2, OpSuspend(2))
    ensures s3 == Scheduler(map[2 := a.(quantum := 2, state := Waiting)], [], [2], 0, 3, Multilevel(0), 1, 8)
  {
    s2 := Apply(s1, OpAlgorithm(KMultilevel));
    assert s2.procs == map[2 := a.(quantum := 2)];
    s3 := Apply(s2, OpSuspend(2));
    assert s3.procs == map[2 := a.(quantum := 2, state := Waiting)];
  }

  lemma ResumedInRoundRobin(s3: Scheduler, a: Process) returns (s4: Scheduler, s5: Scheduler, s6: Scheduler)
    requires a == Process(Ready, 0, 1, 0, a.code, 0)
    requires s3 == Scheduler(map[2 := a.(quantum := 2, state := Waiting)], [], [2], 0, 3, Multilevel(0), 1, 8)
    ensures s4 == Apply(s3, OpAlgorithm(KRoundRobin)) && s5 == Apply(s4, OpResume(2)) && s6 == Apply(s5, OpCreate(0, a.code))
    ensures s6 == Scheduler(map[2 := a.(quantum := 2), 3 := a], [2, 3], [], 0, 4, Algorithm.RoundRobin, 1, 8)
  {
    s4 := Apply(s3, OpAlgorithm(KRoundRobin));
    assert s4.procs == s3.procs;
    s5 := Apply(s4, OpResume(2));
    assert s5 == Scheduler(map[2 := a.(quantum := 2)], [2], [], 0, 3, Algorithm.RoundRobin, 1, 8);
    s6 := Apply(s5, OpCreate(0, a.code));
    assert s6.procs == map[2 := a.(quantum := 2), 3 := a];
  }

  lemma RunSwitchOps(s0: Scheduler, code: seq<Instruction>, s1: Scheduler, s2: Scheduler, s3: Scheduler, s4: Scheduler, s5: Scheduler, s6: Scheduler)
    requires var ops := SwitchOps(code);
             s1 == Apply(s0, ops[0]) && s2 == Apply(s1, ops[1]) && s3 == Apply(s2, ops[2]) && s4 == Apply(s3, ops[3])
             && s5 == Apply(s4, ops[4]) && s6 == Apply(s5, ops[5])
    ensures Run(s0, SwitchOps(code)) == s6
  {
    hide Apply;
    var ops := SwitchOps(code);
    assert ops[1..][1..] == ops[2..] && ops[2..][1..] == ops[3..] && ops[3..][1..] == ops[4..] && ops[4..][1..] == ops[5..] && ops[5..][1..] == [];
    assert Run(s5, ops[5..]) == s6;
    assert Run(s4, ops[4..]) == s6;
    assert Run(s3, ops[3..]) == s6;
    assert Run(s2, ops[2..]) == s6;
    assert Run(s1, ops[1..]) == s6;
  }
}
