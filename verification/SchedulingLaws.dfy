/** What a tick of the process scheduler of kernel/src/scheduler.cpp means for each of its four
    algorithms, and what follows on every run: who runs next, who gives up the CPU and with what level
    and quantum it goes on. */
module SchedulingLaws {
  import opened Collections
  import opened Scheduling

  // ---- One tick, without its phases -----------------------------------------------------------------

  /** The running process has instructions left. */
  predicate Alive(s: Scheduler) {
    s.current != INVALID_PID && s.current in s.procs && s.procs[s.current].pc < |s.procs[s.current].code|
  }

  /** The quantum after this tick. */
  function Left(c: Process): nat { if c.quantum > 0 then c.quantum - 1 else 0 }

  /** The running process loses the CPU in this tick. */
  ghost predicate Yields(s: Scheduler) {
    && Alive(s)
    && var c := s.procs[s.current];
       match s.algorithm
       case Fcfs => false
       case RoundRobin => Left(c) == 0 && s.ready != []
       case Priority => exists p :: p in s.ready && p in s.procs && s.procs[p].priority < c.priority
       case Multilevel(_) =>
         if Left(c) == 0 then s.ready != []
         else exists p :: p in s.ready && p in s.procs && s.procs[p].level < c.level
  }

  /** 2, 4 or 8 ticks. */
  ghost predicate Share(level: nat, quantum: nat) {
    (level == 0 ==> quantum == 2) && (level == 1 ==> quantum == 4) && (level >= 2 ==> quantum == 8)
  }

  /** The process that ran, after the tick: one unit of its quantum is gone; if it had to yield, round
      robin gives it a new quantum, and the multilevel queue lowers it by one level down to the
      last, with the quantum of that level. */
  ghost predicate ChargedTo(s: Scheduler, c: Process, c': Process) {
    && c'.priority == c.priority && c'.code == c.code && c'.pc == c.pc
    && (if Yields(s) && s.algorithm.Multilevel? then
          c'.level == (if c.level < 2 then c.level + 1 else 2) && Share(c'.level, c'.quantum)
        else c'.level == c.level)
    && (Yields(s) && s.algorithm.RoundRobin? ==> c'.quantum == s.quantum)
    && (!Yields(s) || s.algorithm.Priority? ==> c'.quantum == Left(c))
  }

  /** The process that gets the CPU: only a quantum used up is renewed. */
  ghost predicate Starts(s: Scheduler, c: Process, c': Process) {
    && c'.state == Running && c'.priority == c.priority && c'.code == c.code && c'.pc == c.pc && c'.level == c.level
    && (c.quantum != 0 ==> c'.quantum == c.quantum)
    && (c.quantum == 0 ==> if s.algorithm.Multilevel? then Share(c.level, c'.quantum) else c'.quantum == s.quantum)
  }

  /** r is the first of q with the least key. */
  ghost predicate FirstLeast(q: seq<Pid>, key: Pid -> nat, r: Pid) {
    exists j :: 0 <= j < |q| && q[j] == r && (forall i :: 0 <= i < |q| ==> key(r) <= key(q[i])) && forall i :: 0 <= i < j ==> key(r) < key(q[i])
  }

  /** Those that may run next: the queue, behind it the process that yields. */
  ghost function Candidates(s: Scheduler): seq<Pid> { if Yields(s) then s.ready + [s.current] else s.ready }

  /** The running process goes on. Under priorities only when nobody is ready. */
  ghost predicate Stays(s: Scheduler) { Alive(s) && !Yields(s) && (s.algorithm.Priority? ==> s.ready == []) }

  /** The choice: the front of the queue, the first of least priority number, or the first of least
      level. */
  ghost predicate Chosen(s: Scheduler, s': Scheduler) {
    var q, n := Candidates(s), s'.current;
    if Stays(s) then n == s.current && s'.ready == s.ready
    else if q == [] then n == INVALID_PID && s'.ready == []
    else
      && n in q && (n != s.current ==> n in s.procs && n in s'.procs && Starts(s, s.procs[n], s'.procs[n]))
      && OneOut(if Alive(s) then s.ready + [s.current] else s.ready, s'.ready, n)
      && match s.algorithm
         case Fcfs => n == q[0]
         case RoundRobin => n == q[0]
         case Priority => FirstLeast(q, ByPriority(s'), n)
         case Multilevel(_) => FirstLeast(q, ByLevel(s'), n)
  }

  ghost predicate Ticked(s: Scheduler, s': Scheduler) {
    && s'.procs.Keys == s.procs.Keys && s'.waiting == s.waiting && s'.next == s.next
    && s'.quantum == s.quantum && s'.maxProcesses == s.maxProcesses
    && (s'.algorithm == s.algorithm || (s'.algorithm.Multilevel? && s.algorithm.Multilevel?))
    && (forall p :: p in s.procs && p != s.current && p != s'.current ==> s'.procs[p] == s.procs[p])
    && (s.current in s.procs && !Alive(s) ==> s'.current != s.current && s'.procs[s.current] == s.procs[s.current].(state := Terminated))
    && (Alive(s) ==> s.current in s'.procs && ChargedTo(s, s.procs[s.current], s'.procs[s.current]))
    && Chosen(s, s')
  }

  // ---- The tick does that -----------------------------------------------------------------------------

  lemma {:induction false} RemoveAt(q: seq<Pid>, p: Pid, i: nat)
    requires NoDup(q) && i < |q| && q[i] == p
    ensures Remove(q, p) == q[..i] + q[i + 1..]
  {
    if i == 0 {
      assert p !in q[1..];
      RemoveNone(q[1..], p);
    } else {
      assert q[0] != p && q[1..][i - 1] == p;
      RemoveAt(q[1..], p, i - 1);
      assert q[..i] + q[i + 1..] == [q[0]] + (q[1..][..i - 1] + q[1..][i..]);
    }
  }

  lemma RemoveOut(q: seq<Pid>, p: Pid)
    requires NoDup(q)
    ensures OneOut(q, Remove(q, p), p)
  {
    if p !in q { RemoveNone(q, p); }
    forall i | 0 <= i < |q| && q[i] == p ensures Remove(q, p) == q[..i] + q[i + 1..] { RemoveAt(q, p, i); }
  }

  /** The selection is the first process with the least key. */
  lemma {:induction false} BestFirst(q: seq<Pid>, key: Pid -> nat, k: nat, b: nat, bestKey: nat)
    requires k <= |q| && b < |q| && (bestKey == key(q[b]) || (b == 0 && bestKey == 255))
    requires (forall i :: 0 <= i < |q| ==> key(q[i]) <= 255) && (forall i :: 0 <= i < k ==> bestKey <= key(q[i]))
    requires forall i :: 0 <= i < b ==> bestKey < key(q[i])
    ensures FirstLeast(q, key, Best(q, key, k, q[b], bestKey))
    decreases |q| - k
  {
    if k < |q| {
      if key(q[k]) < bestKey { BestFirst(q, key, k + 1, k, key(q[k])); } else { BestFirst(q, key, k + 1, b, bestKey); }
    }
  }

  lemma ReapLaw(s: Scheduler)
    requires Agree(s)
    ensures var a := Reap(s);
            && Agree(a) && a.ready == s.ready && a.waiting == s.waiting && a.procs.Keys == s.procs.Keys
            && a.algorithm == s.algorithm && a.quantum == s.quantum && a.next == s.next && a.maxProcesses == s.maxProcesses
            && (Alive(s) ==> a == s) && (!Alive(s) ==> a.current == INVALID_PID)
            && (forall p :: p in s.procs && p != s.current ==> a.procs[p] == s.procs[p])
            && (s.current in s.procs && !Alive(s) ==> a.procs[s.current] == s.procs[s.current].(state := Terminated))
  {
    ReapAgrees(s);
    if s.current != INVALID_PID {
      RemoveNone(s.ready, s.current);
      RemoveNone(s.waiting, s.current);
    }
  }

  /** The running process is charged, and taken off the CPU if it yields. */
  lemma ChargeLaw(s: Scheduler)
    requires Agree(s) && (s.current == INVALID_PID || Alive(s))
    ensures var b := Charge(s);
            && Agree(b) && b.waiting == s.waiting && b.procs.Keys == s.procs.Keys
            && b.algorithm == s.algorithm && b.quantum == s.quantum && b.next == s.next && b.maxProcesses == s.maxProcesses
            && b.ready == Candidates(s) && b.current == (if Yields(s) then INVALID_PID else s.current)
            && (forall p :: p in s.procs && p != s.current ==> b.procs[p] == s.procs[p])
            && (Alive(s) ==> s.current in b.procs && ChargedTo(s, s.procs[s.current], b.procs[s.current]))
  {
    ChargeAgrees(s);
    if Alive(s) {
      var c := s.procs[s.current];
      var c1 := if c.quantum > 0 then c.(quantum := c.quantum - 1) else c;
      var s1 := s.(procs := s.procs[s.current := c1]);
      YieldIs(s, s1, c1);
    }
  }

  lemma YieldIs(s: Scheduler, s1: Scheduler, c1: Process)
    requires Agree(s) && Alive(s)
    requires c1 == s.procs[s.current].(quantum := Left(s.procs[s.current])) && s1 == s.(procs := s.procs[s.current := c1])
    ensures ShouldPreempt(s1, c1) <==> Yields(s)
  {
    assert s.current !in s.ready;
    assert forall p :: p in s.ready ==> p in s.procs && s1.procs[p] == s.procs[p];
  }

  /** Switching away from the running process, if there is one, puts it at the end of the queue. */
  ghost function Behind(b: Scheduler): seq<Pid> { if b.current != INVALID_PID then b.ready + [b.current] else b.ready }

  lemma SwitchQueue(b: Scheduler, n: Pid)
    requires Agree(b) && n in b.ready && n != b.current
    ensures OneOut(Behind(b), Switch(b, n).ready, n)
  {
    assert b.current !in b.ready;
    assert NoDup(Behind(b));
    RemoveOut(Behind(b), n);
    assert b.current != INVALID_PID ==> b.procs[b.current].state == Running;
  }

  lemma SwitchLaw(b: Scheduler, n: Pid)
    requires Agree(b) && n in b.ready && n != b.current
    ensures var t := Switch(b, n);
            && t.current == n && t.waiting == b.waiting && t.procs.Keys == b.procs.Keys
            && t.algorithm == b.algorithm && t.quantum == b.quantum && t.next == b.next && t.maxProcesses == b.maxProcesses
            && n in b.procs && Starts(b, b.procs[n], t.procs[n])
            && (forall p :: p in b.procs && p != n && p != b.current ==> t.procs[p] == b.procs[p])
            && (b.current in b.procs ==> t.procs[b.current] == b.procs[b.current].(state := Ready))
  {
    hide Remove;
  }

  /** What is chosen from the queue when the CPU is free. */
  ghost predicate Picked(s: Scheduler, n: Pid) {
    && n in s.ready
    && match s.algorithm
       case Fcfs => n == s.ready[0]
       case RoundRobin => n == s.ready[0]
       case Priority => FirstLeast(s.ready, ByPriority(s), n)
       case Multilevel(_) => FirstLeast(s.ready, ByLevel(s), n)
  }

  /** The running process goes on with what it has. */
  ghost predicate GoesOn(s: Scheduler) {
    && s.current != INVALID_PID && s.current in s.procs && (s.algorithm.Priority? ==> s.ready == [])
    && (s.algorithm.RoundRobin? || s.algorithm.Multilevel? ==> s.procs[s.current].quantum > 0 || s.ready == [])
    && (s.algorithm.Multilevel? ==> forall p :: p in s.ready && p in s.procs ==> s.procs[p].level >= s.procs[s.current].level)
  }

  lemma SelectLaw(s: Scheduler)
    requires Agree(s)
    ensures GoesOn(s) ==> SelectNext(s) == INVALID_PID || SelectNext(s) == s.current
    ensures (s.current == INVALID_PID || s.algorithm.Priority?) && s.ready != [] ==> Picked(s, SelectNext(s))
    ensures s.current == INVALID_PID && s.ready == [] ==> SelectNext(s) == INVALID_PID
  {
    if s.ready != [] {
      BestIn(s.ready, ByPriority(s), 0, s.ready[0], 255);
      BestFirst(s.ready, ByPriority(s), 0, 0, 255);
      BestIn(s.ready, ByLevel(s), 0, s.ready[0], 255);
      BestFirst(s.ready, ByLevel(s), 0, 0, 255);
    }
    if GoesOn(s) && s.algorithm.Multilevel? { NobodyAbove(s, s.procs[s.current].level, 0); }
  }

  lemma {:induction false} NobodyAbove(s: Scheduler, level: nat, k: nat)
    requires k <= |s.ready| && forall p :: p in s.ready && p in s.procs ==> s.procs[p].level >= level
    ensures FirstAbove(s, level, k) == INVALID_PID
    decreases |s.ready| - k
  {
    if k < |s.ready| { NobodyAbove(s, level, k + 1); }
  }

  /** After the charge the running process goes on exactly if it stays. */
  lemma ChargedGoesOn(s: Scheduler, b: Scheduler)
    requires Agree(s) && Stays(s) && b == Charge(s)
    ensures GoesOn(b)
  {
    ChargeLaw(s);
    assert forall p :: p in s.ready ==> p in s.procs && p != s.current;
  }

  lemma SameKeys(s: Scheduler, s': Scheduler, q: seq<Pid>, n: Pid)
    requires forall p :: p in q ==> p in s.procs && p in s'.procs && s'.procs[p].priority == s.procs[p].priority && s'.procs[p].level == s.procs[p].level
    requires n in q
    ensures FirstLeast(q, ByPriority(s), n) ==> FirstLeast(q, ByPriority(s'), n)
    ensures FirstLeast(q, ByLevel(s), n) ==> FirstLeast(q, ByLevel(s'), n)
  {
    assert forall i :: 0 <= i < |q| ==> q[i] in q;
    assert forall p :: p in q ==> ByPriority(s)(p) == ByPriority(s')(p) && ByLevel(s)(p) == ByLevel(s')(p);
  }

  /** The scheduler b after n got the CPU. */
  ghost predicate Switched(b: Scheduler, t: Scheduler, n: Pid) {
    && t.current == n && t.waiting == b.waiting && t.procs.Keys == b.procs.Keys
    && t.quantum == b.quantum && t.next == b.next && t.maxProcesses == b.maxProcesses
    && (t.algorithm == b.algorithm || (t.algorithm.Multilevel? && b.algorithm.Multilevel?))
    && n in b.procs && n != b.current && Starts(b, b.procs[n], t.procs[n]) && OneOut(Behind(b), t.ready, n)
    && (forall p :: p in b.procs && p != n && p != b.current ==> t.procs[p] == b.procs[p])
    && (b.current in b.procs ==> t.procs[b.current] == b.procs[b.current].(state := Ready))
    && n in b.ready
    && match b.algorithm
       case Fcfs => n == b.ready[0]
       case RoundRobin => n == b.ready[0]
       case Priority => FirstLeast(b.ready, ByPriority(t), n)
       case Multilevel(_) => FirstLeast(b.ready, ByLevel(t), n)
  }

  lemma DispatchSwitches(b: Scheduler)
    requires Agree(b) && (b.current == INVALID_PID || b.algorithm.Priority?) && b.ready != []
    ensures Switched(b, Dispatch(b), SelectNext(b))
  {
    hide Switch, SelectNext, FirstLeast, OneOut;
    var n, b1 := SelectNext(b), b.(algorithm := Counted(b.algorithm));
    SelectLaw(b);
    assert Agree(b1) && n != INVALID_PID && n != b.current;
    SwitchLaw(b1, n);
    SwitchQueue(b1, n);
    SameKeys(b, Switch(b1, n), b.ready, n);
  }

  lemma DispatchIdle(b: Scheduler)
    requires b.current == INVALID_PID && SelectNext(b) == INVALID_PID
    ensures Dispatch(b) == b.(algorithm := Counted(b.algorithm))
  {
  }

  lemma TickFree(s: Scheduler, b: Scheduler, t: Scheduler)
    requires Agree(s) && !Alive(s) && b == Charge(Reap(s)) && t == Dispatch(b)
    ensures Ticked(s, t)
  {
    hide Agree, Dispatch, OneOut, FirstLeast, Reap, SelectNext;
    ReapLaw(s);
    assert b == Reap(s);
    SelectLaw(b);
    AgreeFacts(s);
    if b.ready == [] {
      DispatchIdle(b);
    } else {
      DispatchSwitches(b);
    }
  }

  lemma AgreeFacts(s: Scheduler)
    requires Agree(s)
    ensures INVALID_PID !in s.procs && s.current !in s.ready && forall p :: p in s.ready ==> p in s.procs
    ensures s.current != INVALID_PID ==> s.current in s.procs
  {
  }

  lemma TickStays(s: Scheduler, b: Scheduler, t: Scheduler)
    requires Agree(s) && Stays(s) && b == Charge(s) && t == Dispatch(b)
    ensures Ticked(s, t)
  {
    hide Agree, OneOut, FirstLeast, Charge, SelectNext, Switch;
    ChargeLaw(s);
    ChargedGoesOn(s, b);
    SelectLaw(b);
    AgreeFacts(s);
  }

  lemma TickYields(s: Scheduler, b: Scheduler, t: Scheduler)
    requires Agree(s) && Yields(s) && b == Charge(s) && t == Dispatch(b)
    ensures Ticked(s, t)
  {
    hide Agree, OneOut, Charge, Dispatch, SelectNext;
    ChargeLaw(s);
    DispatchSwitches(b);
    AgreeFacts(s);
    AgreeFacts(b);
    if s.algorithm.Priority? { OtherSelected(s, b, t, t.current); }
  }

  /** Under priorities the process that yields is not chosen again. */
  lemma OtherSelected(s: Scheduler, b: Scheduler, t: Scheduler, n: Pid)
    requires Agree(s) && Yields(s) && s.algorithm.Priority? && b == Charge(s) && Switched(b, t, n)
    ensures n != s.current
  {
    hide Agree, Charge, OneOut;
    ChargeLaw(s);
    AgreeFacts(s);
    var p :| p in s.ready && p in s.procs && s.procs[p].priority < s.procs[s.current].priority;
    var i :| 0 <= i < |b.ready| && b.ready[i] == p;
    assert ByPriority(t)(n) <= ByPriority(t)(b.ready[i]);
    assert p != s.current;
  }

  lemma TickRotates(s: Scheduler, b: Scheduler, t: Scheduler)
    requires Agree(s) && Alive(s) && !Yields(s) && !Stays(s) && b == Charge(s) && t == Dispatch(b)
    ensures Ticked(s, t)
  {
    hide Agree, OneOut, FirstLeast, Charge, Dispatch, SelectNext;
    ChargeLaw(s);
    DispatchSwitches(b);
    AgreeFacts(s);
  }

  /** A tick, under every algorithm. */
  lemma TickLaw(s: Scheduler)
    requires Agree(s) && Counting(s.algorithm)
    ensures Ticked(s, Tick(s)) && Agree(Tick(s))
  {
    hide Agree, Charge, Dispatch, Reap, Ticked;
    TickAgrees(s);
    ReapLaw(s);
    assert Boosted(s) == s;
    var b := Charge(Reap(s));
    if !Alive(s) { TickFree(s, b, Dispatch(b)); }
    else if Yields(s) { TickYields(s, b, Dispatch(b)); }
    else if Stays(s) { TickStays(s, b, Dispatch(b)); }
    else { TickRotates(s, b, Dispatch(b)); }
  }

  /** So it is at every point of every run. */
  lemma TickLawOnRuns(k: AlgorithmKind, quantum: nat, maxProcesses: nat, ops: seq<Op>)
    ensures var s := Run(Initial(k, quantum, maxProcesses), ops); Ticked(s, Tick(s))
  {
    var s0 := Initial(k, quantum, maxProcesses);
    RunAgrees(k, quantum, maxProcesses, ops);
    RunCounts(s0, ops);
    TickLaw(Run(s0, ops));
  }

  // ---- First come, first served -----------------------------------------------------------------------

  ghost predicate InOrder(a: Algorithm) { a.Fcfs? || a.RoundRobin? }

  /** p waits for the CPU, and q does not have it nor stand before p. */
  ghost predicate After(s: Scheduler, p: Pid, q: Pid) {
    p in s.ready && q != s.current && q != INVALID_PID && p != q && (q in s.ready ==> Ahead(s.ready, p, q))
  }

  lemma RemoveKeepsOrder(q: seq<Pid>, x: Pid, a: Pid, b: Pid)
    requires NoDup(q) && Ahead(q, a, b) && x != a && x != b
    ensures Ahead(Remove(q, x), a, b)
  {
    RemoveOut(q, x);
    AheadOut(q, Remove(q, x), x, a, b);
  }

  lemma TickOrder(s: Scheduler, s': Scheduler, p: Pid, q: Pid)
    requires Agree(s) && Agree(s') && InOrder(s.algorithm) && Ticked(s, s') && After(s, p, q) && p in s'.ready
    ensures After(s', p, q)
  {
    hide Ahead, OneOut;
    AgreeFacts(s);
    AgreeFacts(s');
    if !Stays(s) {
      var n := s'.current;
      assert n == s.ready[0];
      FrontIsFirst(s.ready, p);
      if q in s'.ready { StillAfter(s, s', p, q, n); }
    }
  }

  lemma FrontIsFirst(q: seq<Pid>, p: Pid)
    requires NoDup(q) && q != []
    ensures !Ahead(q, p, q[0])
  {
  }

  lemma StillAfter(s: Scheduler, s': Scheduler, p: Pid, q: Pid, n: Pid)
    requires OneOut(if Alive(s) then s.ready + [s.current] else s.ready, s'.ready, n)
    requires p in s.ready && q in s'.ready && q != s.current && (q in s.ready ==> Ahead(s.ready, p, q)) && n != p && n != q
    ensures Ahead(s'.ready, p, q)
  {
    var all := if Alive(s) then s.ready + [s.current] else s.ready;
    assert q in all;
    AheadBack(s.ready, p, q, s.current);
    AheadOut(all, s'.ready, n, p, q);
  }

  lemma SpareOrder(s: Scheduler, op: Op, p: Pid, q: Pid)
    requires Agree(s) && After(s, p, q) && !op.OpTick? && !op.OpExecute? && !op.OpAlgorithm? && p in Apply(s, op).ready
    ensures After(Apply(s, op), p, q)
  {
    hide Ahead;
    match op
    case OpCreate(_, _) => AheadBack(s.ready, p, q, s.next);
    case OpKill(x) => if x != p && x != q && q in s.ready { RemoveKeepsOrder(s.ready, x, p, q); }
    case OpSuspend(x) => if x != p && x != q && q in s.ready { RemoveKeepsOrder(s.ready, x, p, q); }
    case OpResume(x) => AheadBack(s.ready, p, q, x);
    case OpQuantum(_) =>
  }

  lemma ExecuteOrder(s: Scheduler, p: Pid, q: Pid)
    requires Agree(s) && After(s, p, q)
    ensures After(Execute(s), p, q)
  {
    hide Ahead;
    AgreeFacts(s);
    if s.current != INVALID_PID && q in s.ready { RemoveKeepsOrder(s.ready, s.current, p, q); }
  }

  lemma StepOrder(s: Scheduler, op: Op, p: Pid, q: Pid)
    requires Agree(s) && InOrder(s.algorithm) && After(s, p, q) && !op.OpAlgorithm? && p in Apply(s, op).ready
    ensures After(Apply(s, op), p, q) && Agree(Apply(s, op)) && InOrder(Apply(s, op).algorithm)
  {
    hide Agree, After, Ticked, Tick, Execute;
    StepAgrees(s, op);
    StepAlgorithm(s, op);
    if op == OpTick {
      TickLaw(s);
      TickOrder(s, Tick(s), p, q);
    } else if op == OpExecute {
      ExecuteOrder(s, p, q);
    } else {
      SpareOrder(s, op, p, q);
    }
  }

  lemma StepAlgorithm(s: Scheduler, op: Op)
    requires !op.OpAlgorithm?
    ensures var a, a' := s.algorithm, Apply(s, op).algorithm; a' == a || (a.Multilevel? && a'.Multilevel?)
  {
    hide Execute, Charge, Reap, Boosted, Remove;
    ExecuteAlgorithm(s);
    PhasesAlgorithm(s);
  }

  lemma ExecuteAlgorithm(s: Scheduler)
    ensures Execute(s).algorithm == s.algorithm
  {
    hide Remove;
  }

  lemma PhasesAlgorithm(s: Scheduler)
    ensures Charge(Reap(Boosted(s))).algorithm == s.algorithm
  {
    hide Remove;
  }

  /** p is ready at every point of the run. */
  ghost predicate KeepsReady(s: Scheduler, ops: seq<Op>, p: Pid)
    decreases |ops|
  {
    p in s.ready && (ops == [] || KeepsReady(Apply(s, ops[0]), ops[1..], p))
  }

  ghost predicate SameAlgorithm(ops: seq<Op>) { forall op :: op in ops ==> !op.OpAlgorithm? }

  /** First come, first served, and round robin: while p is ready, nobody behind it runs, whatever
      else is created, killed, suspended or resumed. */
  lemma {:induction false} NoOvertaking(s: Scheduler, ops: seq<Op>, p: Pid, q: Pid)
    requires Agree(s) && InOrder(s.algorithm) && After(s, p, q) && KeepsReady(s, ops, p) && SameAlgorithm(ops)
    ensures After(Run(s, ops), p, q) && Run(s, ops).current != q
    decreases |ops|
  {
    hide Agree, Apply;
    if ops != [] {
      assert ops[0] in ops;
      assert KeepsReady(Apply(s, ops[0]), ops[1..], p);
      StepOrder(s, ops[0], p, q);
      NoOvertaking(Apply(s, ops[0]), ops[1..], p, q);
    }
  }

  /** First come, first served does not preempt. */
  lemma FcfsHolds(s: Scheduler)
    requires Agree(s) && s.algorithm.Fcfs?
    ensures Alive(s) ==> Tick(s).current == s.current && Tick(s).ready == s.ready
    ensures !Alive(s) && s.ready != [] ==> Tick(s).current == s.ready[0] && Tick(s).ready == s.ready[1..]
  {
    hide Agree, Tick;
    TickLaw(s);
    if !Alive(s) && s.ready != [] { assert s.ready[..0] + s.ready[1..] == s.ready[1..]; }
  }

  // ---- The multilevel queue ----------------------------------------------------------------------------

  ghost predicate LeastLevel(s: Scheduler) {
    s.current in s.procs ==> forall p :: p in s.ready && p in s.procs ==> s.procs[s.current].level <= s.procs[p].level
  }

  /** After every tick no ready process stands on a better level than the running one. */
  lemma LeastLevelRuns(s: Scheduler)
    requires Agree(s) && Counting(s.algorithm) && s.algorithm.Multilevel?
    ensures LeastLevel(Tick(s))
  {
    hide Agree, Tick, FirstLeast, OneOut;
    TickLaw(s);
    var t := Tick(s);
    AgreeFacts(s);
    AgreeFacts(t);
    if !Stays(s) && Candidates(s) != [] {
      forall p | p in t.ready ensures t.procs[t.current].level <= t.procs[p].level {
        OutIn(if Alive(s) then s.ready + [s.current] else s.ready, t.ready, t.current, p);
        LeastIn(Candidates(s), ByLevel(t), t.current, p);
      }
    }
  }

  lemma TickLevels(s: Scheduler, p: Pid)
    requires Agree(s) && Counting(s.algorithm) && p in s.procs
    ensures var s' := Tick(s);
            && p in s'.procs && s.procs[p].level <= s'.procs[p].level <= s.procs[p].level + 1
            && (s'.procs[p].level > s.procs[p].level ==> p == s.current && Yields(s))
  {
    hide Agree, Tick, OneOut, FirstLeast;
    TickLaw(s);
    AgreeFacts(s);
  }

  lemma ExecuteLevels(s: Scheduler, p: Pid)
    requires Agree(s) && p in s.procs
    ensures p in Execute(s).procs && Execute(s).procs[p].level == s.procs[p].level
  {
    hide Agree, Execute;
    ExecuteLaw(s);
  }

  lemma StepLevels(s: Scheduler, op: Op, p: Pid)
    requires Agree(s) && op != OpTick && op != OpExecute && !op.OpAlgorithm? && p in s.procs
    ensures p in Apply(s, op).procs && Apply(s, op).procs[p].level == s.procs[p].level
  {
    hide Remove;
    assert s.next !in s.procs;
  }

  /** The running process is lowered exactly when it yields and there is a level below: also with
      quantum left, when a better process is ready. */
  lemma LoweredIff(s: Scheduler)
    requires Agree(s) && Counting(s.algorithm) && s.algorithm.Multilevel? && Alive(s)
    ensures var t := Tick(s);
            && s.current in t.procs
            && (t.procs[s.current].level != s.procs[s.current].level <==> Yields(s) && s.procs[s.current].level < 2)
  {
    hide Agree, Tick, OneOut, FirstLeast;
    TickLaw(s);
  }

  lemma TickStep(s: Scheduler)
    ensures Apply(s, OpTick) == Tick(s) && Apply(s, OpExecute) == Execute(s)
  {
  }

  /** A level once lost is never regained: on no run does the multilevel queue raise a process again. */
  lemma {:induction false} LevelsNeverRise(s: Scheduler, ops: seq<Op>, p: Pid)
    requires Agree(s) && Counting(s.algorithm) && SameAlgorithm(ops) && p in s.procs
    ensures p in Run(s, ops).procs && s.procs[p].level <= Run(s, ops).procs[p].level
    decreases |ops|
  {
    hide Agree, Apply, Counting;
    if ops != [] {
      assert ops[0] in ops;
      StepAgrees(s, ops[0]);
      StepCounts(s, ops[0]);
      TickStep(s);
      if ops[0] == OpTick { TickLevels(s, p); } else if ops[0] == OpExecute { ExecuteLevels(s, p); } else { StepLevels(s, ops[0], p); }
      LevelsNeverRise(Apply(s, ops[0]), ops[1..], p);
    }
  }

  // ---- Priorities ----------------------------------------------------------------------------------------

  ghost predicate LeastPriority(s: Scheduler) {
    s.current in s.procs ==> forall p :: p in s.ready && p in s.procs ==> s.procs[s.current].priority <= s.procs[p].priority
  }

  /** The running process is better than everyone who is ready. */
  ghost predicate RunsBest(s: Scheduler) {
    Alive(s) && s.ready != [] && forall p :: p in s.ready && p in s.procs ==> s.procs[s.current].priority < s.procs[p].priority
  }

  lemma KeysAfter(s: Scheduler, t: Scheduler, p: Pid)
    requires Ticked(s, t) && p in s.procs && INVALID_PID !in s.procs
    ensures p in t.procs && t.procs[p].priority == s.procs[p].priority
  {
    hide OneOut, FirstLeast;
  }

  /** The selection leaves the running process out: after a tick a process of least priority number
      runs if and only if the one that ran before was not already better than all others. */
  lemma PriorityRunsIff(s: Scheduler)
    requires Agree(s) && s.algorithm.Priority?
    ensures LeastPriority(Tick(s)) <==> !RunsBest(s)
  {
    hide Agree, Tick;
    TickLaw(s);
    var t := Tick(s);
    AgreeFacts(s);
    AgreeFacts(t);
    forall p | p in s.procs ensures p in t.procs && t.procs[p].priority == s.procs[p].priority { KeysAfter(s, t, p); }
    if RunsBest(s) { Inverted(s, t); } else { NotInverted(s, t); }
  }

  lemma Inverted(s: Scheduler, t: Scheduler)
    requires Agree(s) && Agree(t) && s.algorithm.Priority? && Ticked(s, t) && RunsBest(s)
    ensures !LeastPriority(t)
  {
    hide Agree, FirstLeast;
    AgreeFacts(s);
    AgreeFacts(t);
    KeysAfter(s, t, s.current);
    KeysAfter(s, t, t.current);
    var q, n := s.ready + [s.current], t.current;
    var i :| 0 <= i < |q| && q[i] == n;
    assert q[|q| - 1] == s.current;
    assert (q[..i] + q[i + 1..])[|q| - 2] == s.current;
    assert s.current in t.ready;
  }

  lemma LeastIn(q: seq<Pid>, key: Pid -> nat, n: Pid, p: Pid)
    requires FirstLeast(q, key, n) && p in q
    ensures key(n) <= key(p)
  {
    var i :| 0 <= i < |q| && q[i] == p;
  }

  lemma OutIn(q: seq<Pid>, r: seq<Pid>, x: Pid, y: Pid)
    requires OneOut(q, r, x) && y in r
    ensures y in q
  {
    if x in q {
      var i :| 0 <= i < |q| && q[i] == x;
      assert r == q[..i] + q[i + 1..];
    }
  }

  lemma NotInverted(s: Scheduler, t: Scheduler)
    requires Agree(s) && Agree(t) && s.algorithm.Priority? && Ticked(s, t) && !RunsBest(s)
    ensures LeastPriority(t)
  {
    hide Agree, FirstLeast, OneOut, ChargedTo, Starts;
    AgreeFacts(s);
    AgreeFacts(t);
    if !Stays(s) && Candidates(s) != [] {
      forall p | p in t.ready ensures t.procs[t.current].priority <= t.procs[p].priority {
        OutIn(if Alive(s) then s.ready + [s.current] else s.ready, t.ready, t.current, p);
        NotBetter(s, t, p);
      }
    }
  }

  lemma NotBetter(s: Scheduler, t: Scheduler, p: Pid)
    requires Agree(s) && s.algorithm.Priority? && Ticked(s, t) && !RunsBest(s) && !Stays(s) && Candidates(s) != []
    requires p in s.procs && t.current in s.procs && (p in s.ready || (Alive(s) && p == s.current))
    ensures p in t.procs && t.current in t.procs && t.procs[t.current].priority <= t.procs[p].priority
  {
    hide Agree, FirstLeast, OneOut, ChargedTo, Starts;
    AgreeFacts(s);
    KeysAfter(s, t, p);
    if p in Candidates(s) {
      LeastIn(Candidates(s), ByPriority(t), t.current, p);
    } else {
      var r :| r in s.ready && r in s.procs && s.procs[r].priority <= s.procs[s.current].priority;
      KeysAfter(s, t, r);
      LeastIn(Candidates(s), ByPriority(t), t.current, r);
    }
  }

  /** From the start: of two processes the better one runs first, and loses the CPU to the worse one
      in the next tick. */
  lemma PriorityInverts(quantum: nat, code: seq<Instruction>)
    requires code != []
    ensures var s := Run(Initial(KPriority, quantum, 2), [OpCreate(1, code), OpCreate(5, code), OpTick]);
            && s.current == 2 && 2 in s.procs && s.procs[2].priority == 1
            && Tick(s).current == 3 && 3 in Tick(s).procs && Tick(s).procs[3].priority == 5
  {
    hide Tick, Agree;
    var s0 := Initial(KPriority, quantum, 2);
    var s1 := Create(s0, 1, code);
    var s2 := Create(s1, 5, code);
    var s := Tick(s2);
    var ops := [OpCreate(1, code), OpCreate(5, code), OpTick];
    assert ops[1..] == [OpCreate(5, code), OpTick] && ops[1..][1..] == [OpTick] && [OpTick][1..] == [];
    assert Run(s0, ops) == Run(s1, ops[1..]) == Run(s2, [OpTick]) == Run(s, []);
    RunAgrees(KPriority, quantum, 2, []);
    CreateAgrees(s0, 1, code);
    CreateAgrees(s1, 5, code);
    TwoProcesses(s2, code);
  }

  lemma TwoProcesses(s: Scheduler, code: seq<Instruction>)
    requires Agree(s) && s.algorithm.Priority? && s.current == INVALID_PID && s.ready == [2, 3] && code != []
    requires 2 in s.procs && 3 in s.procs && s.procs[2].priority == 1 && s.procs[3].priority == 5
    requires s.procs[2].code == code && s.procs[2].pc == 0 && s.procs[3].code == code
    ensures var t := Tick(s);
            t.current == 2 && 2 in t.procs && t.procs[2].priority == 1
            && Tick(t).current == 3 && 3 in Tick(t).procs && Tick(t).procs[3].priority == 5
  {
    hide Agree, Tick;
    var t := Tick(s);
    TickLaw(s);
    AgreeFacts(s);
    KeysAfter(s, t, 2);
    KeysAfter(s, t, 3);
    LeastIn(s.ready, ByPriority(t), t.current, 2);
    assert t.current == 2 && t.ready == [3] by { assert s.ready[0] == 2; assert s.ready[..0] + s.ready[1..] == [3]; }
    TickLaw(t);
    AgreeFacts(t);
    KeysAfter(t, Tick(t), 3);
    assert t.procs[2].priority == 1 && t.procs[3].priority == 5;
    assert !Yields(t) && !Stays(t) && Candidates(t) == [3];
  }

  // ---- One instruction ------------------------------------------------------------------------------------

  /** One instruction of the running process: input and output, and sleep, make it wait at the end of
      the queue; exit, or having none left, ends it; any other moves its counter on. */
  ghost predicate Executed(s: Scheduler, s': Scheduler) {
    if s.current == INVALID_PID then s' == s
    else
      && s.current in s.procs && s'.procs.Keys == s.procs.Keys && s'.ready == s.ready
      && s' == s.(procs := s'.procs, waiting := s'.waiting, current := s'.current)
      && (forall p :: p in s.procs && p != s.current ==> s'.procs[p] == s.procs[p])
      && var c, c' := s.procs[s.current], s'.procs[s.current];
         if c.pc >= |c.code| || c.code[c.pc].Exit? then
           c' == c.(state := Terminated) && s'.current == INVALID_PID && s'.waiting == s.waiting
         else if c.code[c.pc].IoRequest? || c.code[c.pc].Sleep? then
           c' == c.(state := Waiting, pc := c.pc + 1) && s'.current == INVALID_PID && s'.waiting == s.waiting + [s.current]
         else c' == c.(pc := c.pc + 1) && s'.current == s.current && s'.waiting == s.waiting
  }

  lemma KilledCurrent(s: Scheduler)
    requires Agree(s) && s.current != INVALID_PID && s.current in s.procs
    ensures Kill(s, s.current) == s.(procs := s.procs[s.current := s.procs[s.current].(state := Terminated)], current := INVALID_PID)
  {
    RemoveNone(s.ready, s.current);
    RemoveNone(s.waiting, s.current);
  }

  lemma BlockedCurrent(s: Scheduler)
    requires Agree(s) && s.current != INVALID_PID && s.current in s.procs
    ensures var c := s.procs[s.current];
            Blocked(Advanced(s)) == s.(procs := s.procs[s.current := c.(state := Waiting, pc := c.pc + 1)],
                                       waiting := s.waiting + [s.current], current := INVALID_PID)
  {
    RemoveNone(s.ready, s.current);
  }

  lemma ExecuteLaw(s: Scheduler)
    requires Agree(s)
    ensures Executed(s, Execute(s))
  {
    AgreeFacts(s);
    hide Agree, Kill, Blocked;
    if s.current != INVALID_PID {
      KilledCurrent(s);
      BlockedCurrent(s);
    }
  }
}
