/** The process scheduler of kernel/src/scheduler.cpp on values: its four algorithms and the agreement
    of states and queues on every run. Event publication, the Gantt chart and the statistics
    counters are not modelled. */
module Scheduling {
  import opened Collections

  type Pid = nat
  const INVALID_PID: Pid := 0
  const AGING_INTERVAL: nat := 50
  const MAX_LEVEL: nat := 2

  type PriorityNumber = n: nat | n < 256

  type QueueLevel = n: nat | n <= MAX_LEVEL

  datatype State = Ready | Running | Waiting | Terminated

  datatype Instruction = CpuWork | IoRequest | MemoryAccess | IpcOperation | Sleep | Exit

  datatype Process = Process(state: State, priority: PriorityNumber, quantum: nat, level: QueueLevel, code: seq<Instruction>, pc: nat)

  datatype Algorithm = Fcfs | RoundRobin | Priority | Multilevel(sinceBoost: nat)

  datatype Scheduler = Scheduler(
    procs: map<Pid, Process>, ready: seq<Pid>, waiting: seq<Pid>, current: Pid, next: Pid,
    algorithm: Algorithm, quantum: nat, maxProcesses: nat)

  datatype AlgorithmKind = KFcfs | KRoundRobin | KPriority | KMultilevel

  // ---- Queues -----------------------------------------------------------------------------------

  function Remove(q: seq<Pid>, p: Pid): (r: seq<Pid>)
    ensures forall x :: x in r <==> x in q && x != p
  {
    if q == [] then [] else if q[0] == p then Remove(q[1..], p) else [q[0]] + Remove(q[1..], p)
  }

  lemma {:induction false} RemoveNoDup(q: seq<Pid>, p: Pid)
    requires NoDup(q)
    ensures NoDup(Remove(q, p))
    decreases |q|
  {
    if q != [] {
      RemoveNoDup(q[1..], p);
      assert q[0] !in q[1..];
      var r := Remove(q[1..], p);
      assert q[0] !in r;
      forall i, j | 0 <= i < j < |[q[0]] + r| ensures ([q[0]] + r)[i] != ([q[0]] + r)[j] { }
    }
  }

  lemma {:induction false} RemoveNone(q: seq<Pid>, x: Pid)
    requires x !in q
    ensures Remove(q, x) == q
    decreases |q|
  {
    if q != [] { RemoveNone(q[1..], x); }
  }

  // ---- The algorithms ---------------------------------------------------------------------------

  function QuantumForLevel(level: nat): nat { if level == 0 then 2 else if level == 1 then 4 else 8 }

  /** Keys a selection minimises; a process missing from the table never wins. */
  function PriorityOf(s: Scheduler, p: Pid): nat { if p in s.procs then s.procs[p].priority else 255 }

  function LevelOf(s: Scheduler, p: Pid): nat { if p in s.procs then s.procs[p].level else 255 }

  function ByPriority(s: Scheduler): Pid -> nat { (p: Pid) => PriorityOf(s, p) }

  function ByLevel(s: Scheduler): Pid -> nat { (p: Pid) => LevelOf(s, p) }

  /** The first queue element with the least key below 255, the front if there is none. */
  function Best(q: seq<Pid>, key: Pid -> nat, k: nat, best: Pid, bestKey: nat): Pid
    requires k <= |q|
    decreases |q| - k
  {
    if k == |q| then best
    else if key(q[k]) < bestKey then Best(q, key, k + 1, q[k], key(q[k]))
    else Best(q, key, k + 1, best, bestKey)
  }

  function FirstAbove(s: Scheduler, level: nat, k: nat): Pid
    requires k <= |s.ready|
    decreases |s.ready| - k
  {
    if k == |s.ready| then INVALID_PID
    else if s.ready[k] in s.procs && s.procs[s.ready[k]].level < level then s.ready[k]
    else FirstAbove(s, level, k + 1)
  }

  function ShouldPreempt(s: Scheduler, c: Process): bool {
    match s.algorithm
    case Fcfs => false
    case RoundRobin => c.quantum == 0 && s.ready != []
    case Priority => exists i :: 0 <= i < |s.ready| && s.ready[i] in s.procs && s.procs[s.ready[i]].priority < c.priority
    case Multilevel(_) =>
      if c.quantum == 0 then s.ready != []
      else exists i :: 0 <= i < |s.ready| && s.ready[i] in s.procs && s.procs[s.ready[i]].level < c.level
  }

  function Expired(s: Scheduler, c: Process): Process {
    match s.algorithm
    case RoundRobin => c.(quantum := s.quantum)
    case Multilevel(_) =>
      var level := if c.level < MAX_LEVEL then c.level + 1 else c.level;
      c.(level := level, quantum := QuantumForLevel(level))
    case _ => c
  }

  function SelectNext(s: Scheduler): Pid {
    match s.algorithm
    case Fcfs => if s.current != INVALID_PID then s.current else Front(s)
    case RoundRobin =>
      if s.current != INVALID_PID && s.current in s.procs && s.procs[s.current].quantum > 0 then s.current else Front(s)
    case Priority => if s.ready == [] then INVALID_PID else Best(s.ready, ByPriority(s), 0, s.ready[0], 255)
    case Multilevel(_) =>
      if s.current != INVALID_PID && s.current in s.procs && s.procs[s.current].quantum > 0 then
        var p := FirstAbove(s, s.procs[s.current].level, 0);
        if p != INVALID_PID then p else s.current
      else if s.ready == [] then INVALID_PID
      else Best(s.ready, ByLevel(s), 0, s.ready[0], 255)
  }

  function Front(s: Scheduler): Pid { if s.ready == [] then INVALID_PID else s.ready[0] }

  /** The multilevel selection counts its calls and starts over at the interval. */
  function Counted(a: Algorithm): Algorithm {
    match a
    case Multilevel(n) => Multilevel(if n + 1 >= AGING_INTERVAL then 0 else n + 1)
    case _ => a
  }

  // ---- The operations ---------------------------------------------------------------------------

  function SetState(s: Scheduler, p: Pid, st: State): Scheduler
    requires p in s.procs
  {
    s.(procs := s.procs[p := s.procs[p].(state := st)])
  }

  function Create(s: Scheduler, priority: PriorityNumber, code: seq<Instruction>): Scheduler {
    if |s.procs| >= s.maxProcesses then s
    else s.(procs := s.procs[s.next := Process(Ready, priority, s.quantum, 0, code, 0)],
            ready := s.ready + [s.next], next := s.next + 1)
  }

  function Kill(s: Scheduler, p: Pid): Scheduler {
    if p !in s.procs || s.procs[p].state == Terminated then s
    else SetState(s, p, Terminated).(current := if s.current == p then INVALID_PID else s.current,
                                     ready := Remove(s.ready, p), waiting := Remove(s.waiting, p))
  }

  function Suspend(s: Scheduler, p: Pid): Scheduler {
    if p !in s.procs || (s.procs[p].state != Running && s.procs[p].state != Ready) then s
    else SetState(s, p, Waiting).(current := if s.current == p then INVALID_PID else s.current,
                                  ready := Remove(s.ready, p), waiting := s.waiting + [p])
  }

  function Resume(s: Scheduler, p: Pid): Scheduler {
    if p !in s.procs || s.procs[p].state != Waiting then s
    else SetState(s, p, Ready).(waiting := Remove(s.waiting, p), ready := s.ready + [p])
  }

  /** contextSwitch. */
  function Switch(s: Scheduler, n: Pid): Scheduler {
    var s1 := if s.current != INVALID_PID && s.current in s.procs && s.procs[s.current].state == Running
              then SetState(s, s.current, Ready).(ready := s.ready + [s.current]) else s;
    var s2 := s1.(ready := Remove(s1.ready, n));
    if n !in s2.procs then s2.(current := n)
    else
      var c := s2.procs[n].(state := Running);
      var fresh_ := if s2.algorithm.Multilevel? then QuantumForLevel(c.level) else s2.quantum;
      s2.(procs := s2.procs[n := if c.quantum == 0 then c.(quantum := fresh_) else c], current := n)
  }

  /** Frees the CPU of a process that has ended. */
  function Reap(s: Scheduler): Scheduler {
    if s.current == INVALID_PID then s
    else if s.current !in s.procs then s.(current := INVALID_PID)
    else
      var c := s.procs[s.current];
      if c.state == Terminated || c.pc >= |c.code| then Kill(s, s.current).(current := INVALID_PID) else s
  }

  /** Charges the running process one tick and takes the CPU away when the algorithm says so. */
  function Charge(s: Scheduler): Scheduler {
    if s.current == INVALID_PID || s.current !in s.procs then s
    else
      var c := s.procs[s.current];
      var c1 := if c.quantum > 0 then c.(quantum := c.quantum - 1) else c;
      var s1 := s.(procs := s.procs[s.current := c1]);
      if ShouldPreempt(s1, c1)
      then s1.(procs := s1.procs[s.current := Expired(s1, c1.(state := Ready))],
               ready := s1.ready + [s.current], current := INVALID_PID)
      else s1
  }

  function Boosted(s: Scheduler): Scheduler {
    if s.algorithm.Multilevel? && s.algorithm.sinceBoost >= AGING_INTERVAL
    then s.(procs := map p | p in s.procs :: Refreshed(s.procs[p], 0, QuantumForLevel(0)))
    else s
  }

  function Refreshed(c: Process, level: QueueLevel, quantum: nat): Process {
    if c.state == Ready || c.state == Running then c.(level := level, quantum := quantum) else c
  }

  function Dispatch(s: Scheduler): Scheduler {
    var n := SelectNext(s);
    var s1 := s.(algorithm := Counted(s.algorithm));
    if n != INVALID_PID && n != s.current then Switch(s1, n) else s1
  }

  /** schedule: one tick. */
  function Tick(s: Scheduler): Scheduler { Dispatch(Charge(Reap(Boosted(s)))) }

  /** executeCurrentProcess. */
  function Execute(s: Scheduler): Scheduler {
    if s.current == INVALID_PID then s
    else if s.current !in s.procs then s.(current := INVALID_PID)
    else
      var c := s.procs[s.current];
      if c.pc >= |c.code| then Kill(s, s.current)
      else
        var s1 := Advanced(s);
        match c.code[c.pc]
        case IoRequest => Blocked(s1)
        case Sleep => Blocked(s1)
        case Exit => Kill(s, s.current)
        case _ => s1
  }

  function Advanced(s: Scheduler): Scheduler
    requires s.current in s.procs
  {
    s.(procs := s.procs[s.current := s.procs[s.current].(pc := s.procs[s.current].pc + 1)])
  }

  function Blocked(s: Scheduler): Scheduler
    requires s.current in s.procs
  {
    SetState(s, s.current, Waiting).(ready := Remove(s.ready, s.current), waiting := s.waiting + [s.current], current := INVALID_PID)
  }

  function SetAlgorithm(s: Scheduler, k: AlgorithmKind): Scheduler {
    match k
    case KFcfs => s.(algorithm := Fcfs)
    case KRoundRobin =>
      s.(algorithm := RoundRobin, procs := map p | p in s.procs :: Refreshed(s.procs[p], s.procs[p].level, s.quantum))
    case KPriority => s.(algorithm := Priority)
    case KMultilevel =>
      s.(algorithm := Multilevel(0), procs := map p | p in s.procs :: Refreshed(s.procs[p], 0, QuantumForLevel(0)))
  }

  datatype Op =
    | OpCreate(priority: PriorityNumber, code: seq<Instruction>)
    | OpKill(pid: Pid)
    | OpSuspend(pid: Pid)
    | OpResume(pid: Pid)
    | OpTick
    | OpExecute
    | OpAlgorithm(kind: AlgorithmKind)
    | OpQuantum(quantum: nat)

  function Apply(s: Scheduler, op: Op): Scheduler {
    match op
    case OpCreate(priority, code) => Create(s, priority, code)
    case OpKill(pid) => Kill(s, pid)
    case OpSuspend(pid) => Suspend(s, pid)
    case OpResume(pid) => Resume(s, pid)
    case OpTick => Tick(s)
    case OpExecute => Execute(s)
    case OpAlgorithm(kind) => SetAlgorithm(s, kind)
    case OpQuantum(q) => s.(quantum := q)
  }

  function Run(s: Scheduler, ops: seq<Op>): Scheduler
    decreases |ops|
  {
    if ops == [] then s else Run(Apply(s, ops[0]), ops[1..])
  }

  function Initial(k: AlgorithmKind, quantum: nat, maxProcesses: nat): Scheduler {
    SetAlgorithm(Scheduler(map[], [], [], INVALID_PID, 2, Fcfs, quantum, maxProcesses), k)
  }

  // ---- States and queues agree -------------------------------------------------------------------

  /** Ready exactly when once in the ready queue, Waiting exactly when once in the waiting queue,
      Running exactly when current. */
  ghost predicate Agree(s: Scheduler) {
    && NoDup(s.ready) && NoDup(s.waiting)
    && (forall p :: p in s.ready <==> p in s.procs && s.procs[p].state == Ready)
    && (forall p :: p in s.waiting <==> p in s.procs && s.procs[p].state == Waiting)
    && (forall p :: p in s.procs ==> (s.procs[p].state == Running <==> p == s.current))
    && (s.current != INVALID_PID ==> s.current in s.procs)
    && (forall p :: p in s.procs ==> INVALID_PID < p < s.next)
    && INVALID_PID < s.next
  }

  lemma CreateAgrees(s: Scheduler, priority: PriorityNumber, code: seq<Instruction>)
    requires Agree(s)
    ensures Agree(Create(s, priority, code))
  {
    assert s.next !in s.procs;
    assert s.next !in s.ready;
  }

  lemma KillAgrees(s: Scheduler, p: Pid)
    requires Agree(s)
    ensures Agree(Kill(s, p))
  {
    RemoveNoDup(s.ready, p);
    RemoveNoDup(s.waiting, p);
  }

  lemma SuspendAgrees(s: Scheduler, p: Pid)
    requires Agree(s)
    ensures Agree(Suspend(s, p))
  {
    RemoveNoDup(s.ready, p);
  }

  lemma ResumeAgrees(s: Scheduler, p: Pid)
    requires Agree(s)
    ensures Agree(Resume(s, p))
  {
    RemoveNoDup(s.waiting, p);
  }

  lemma SwitchAgrees(s: Scheduler, n: Pid)
    requires Agree(s) && n in s.ready && n != s.current
    ensures Agree(Switch(s, n))
  {
    var s1 := if s.current != INVALID_PID && s.current in s.procs && s.procs[s.current].state == Running
              then SetState(s, s.current, Ready).(ready := s.ready + [s.current]) else s;
    assert NoDup(s1.ready);
    RemoveNoDup(s1.ready, n);
  }

  lemma ReapAgrees(s: Scheduler)
    requires Agree(s)
    ensures Agree(Reap(s))
  {
    KillAgrees(s, s.current);
  }

  lemma ChargeAgrees(s: Scheduler)
    requires Agree(s)
    ensures Agree(Charge(s))
  {
  }

  lemma {:induction false} BestIn(q: seq<Pid>, key: Pid -> nat, k: nat, best: Pid, bestKey: nat)
    requires k <= |q| && best in q
    ensures Best(q, key, k, best, bestKey) in q
    decreases |q| - k
  {
    if k < |q| {
      if key(q[k]) < bestKey { BestIn(q, key, k + 1, q[k], key(q[k])); } else { BestIn(q, key, k + 1, best, bestKey); }
    }
  }

  /** The selection is the first process with the least key. */
  lemma {:induction false} BestLeast(q: seq<Pid>, key: Pid -> nat, k: nat, best: Pid, bestKey: nat)
    requires k <= |q| && (key(best) == bestKey || bestKey == 255)
    requires forall i :: 0 <= i < k ==> bestKey <= key(q[i])
    ensures var r := Best(q, key, k, best, bestKey);
            forall i :: 0 <= i < |q| && key(q[i]) < 255 ==> key(r) <= key(q[i])
    decreases |q| - k
  {
    if k < |q| {
      if key(q[k]) < bestKey { BestLeast(q, key, k + 1, q[k], key(q[k])); } else { BestLeast(q, key, k + 1, best, bestKey); }
    }
  }

  lemma {:induction false} FirstAboveIn(s: Scheduler, level: nat, k: nat)
    requires k <= |s.ready|
    ensures FirstAbove(s, level, k) == INVALID_PID || FirstAbove(s, level, k) in s.ready
    decreases |s.ready| - k
  {
    if k < |s.ready| { FirstAboveIn(s, level, k + 1); }
  }

  /** An algorithm picks the running process, one that is ready, or none. */
  lemma SelectsReady(s: Scheduler)
    ensures var n := SelectNext(s); n == INVALID_PID || n == s.current || n in s.ready
  {
    if s.ready != [] {
      BestIn(s.ready, ByPriority(s), 0, s.ready[0], 255);
      BestIn(s.ready, ByLevel(s), 0, s.ready[0], 255);
    }
    if s.current in s.procs { FirstAboveIn(s, s.procs[s.current].level, 0); }
  }

  lemma DispatchAgrees(s: Scheduler)
    requires Agree(s)
    ensures Agree(Dispatch(s))
  {
    SelectsReady(s);
    var n, s1 := SelectNext(s), s.(algorithm := Counted(s.algorithm));
    assert Agree(s1);
    if n != INVALID_PID && n != s.current { SwitchAgrees(s1, n); }
  }

  lemma BoostAgrees(s: Scheduler)
    requires Agree(s)
    ensures Agree(Boosted(s))
  {
  }

  lemma TickAgrees(s: Scheduler)
    requires Agree(s)
    ensures Agree(Tick(s))
  {
    hide Agree;
    BoostAgrees(s);
    ReapAgrees(Boosted(s));
    ChargeAgrees(Reap(Boosted(s)));
    DispatchAgrees(Charge(Reap(Boosted(s))));
  }

  lemma ExecuteAgrees(s: Scheduler)
    requires Agree(s)
    ensures Agree(Execute(s))
  {
    hide Agree, Kill, Blocked, Advanced;
    CurrentKnown(s);
    if s.current != INVALID_PID {
      KillAgrees(s, s.current);
      AdvancedAgrees(s);
      BlockedAgrees(Advanced(s));
    }
  }

  lemma CurrentKnown(s: Scheduler)
    requires Agree(s)
    ensures s.current != INVALID_PID ==> s.current in s.procs && s.current !in s.ready
  {
  }

  lemma AdvancedAgrees(s: Scheduler)
    requires Agree(s) && s.current != INVALID_PID && s.current in s.procs
    ensures Agree(Advanced(s)) && Advanced(s).current == s.current && s.current in Advanced(s).procs
  {
  }

  lemma BlockedAgrees(s: Scheduler)
    requires Agree(s) && s.current != INVALID_PID && s.current in s.procs
    ensures Agree(Blocked(s))
  {
    RemoveNoDup(s.ready, s.current);
  }

  lemma AlgorithmAgrees(s: Scheduler, k: AlgorithmKind)
    requires Agree(s)
    ensures Agree(SetAlgorithm(s, k))
  {
  }

  lemma StepAgrees(s: Scheduler, op: Op)
    requires Agree(s)
    ensures Agree(Apply(s, op))
  {
    match op
    case OpCreate(priority, code) => CreateAgrees(s, priority, code);
    case OpKill(pid) => KillAgrees(s, pid);
    case OpSuspend(pid) => SuspendAgrees(s, pid);
    case OpResume(pid) => ResumeAgrees(s, pid);
    case OpTick => TickAgrees(s);
    case OpExecute => ExecuteAgrees(s);
    case OpAlgorithm(kind) => AlgorithmAgrees(s, kind);
    case OpQuantum(_) =>
  }

  lemma {:induction false} RunFromAgrees(s: Scheduler, ops: seq<Op>)
    requires Agree(s)
    ensures Agree(Run(s, ops))
    decreases |ops|
  {
    if ops != [] {
      StepAgrees(s, ops[0]);
      RunFromAgrees(Apply(s, ops[0]), ops[1..]);
    }
  }

  /** On every run, under every algorithm and any switch between them, states and queues agree. */
  lemma RunAgrees(k: AlgorithmKind, quantum: nat, maxProcesses: nat, ops: seq<Op>)
    ensures Agree(Run(Initial(k, quantum, maxProcesses), ops))
  {
    RunFromAgrees(Initial(k, quantum, maxProcesses), ops);
  }

  ghost predicate Counting(a: Algorithm) { a.Multilevel? ==> a.sinceBoost < AGING_INTERVAL }

  lemma StepCounts(s: Scheduler, op: Op)
    requires Counting(s.algorithm)
    ensures Counting(Apply(s, op).algorithm)
  {
    if op == OpTick { assert Charge(Reap(Boosted(s))).algorithm == s.algorithm; }
  }

  lemma {:induction false} RunCounts(s: Scheduler, ops: seq<Op>)
    requires Counting(s.algorithm)
    ensures Counting(Run(s, ops).algorithm)
    decreases |ops|
  {
    if ops != [] {
      StepCounts(s, ops[0]);
      RunCounts(Apply(s, ops[0]), ops[1..]);
    }
  }

  /** The aging of the multilevel queue never fires: no tick of any run boosts a process. */
  lemma AgingNeverFires(k: AlgorithmKind, quantum: nat, maxProcesses: nat, ops: seq<Op>)
    ensures var s := Run(Initial(k, quantum, maxProcesses), ops); Boosted(s) == s
  {
    RunCounts(Initial(k, quantum, maxProcesses), ops);
  }
}
