/** The Scheduler object: its methods update the process table and the queues in place, and each
    one computes the function of the same name in Scheduling. */
module SchedulerObject {
  import opened Collections
  import opened Scheduling
  import opened SchedulingLaws

  class ProcessScheduler {
    var procs: map<Pid, Process>
    var ready: seq<Pid>
    var waiting: seq<Pid>
    var current: Pid
    var next: Pid
    var algorithm: Algorithm
    var quantum: nat
    const maxProcesses: nat

    function S(): Scheduler
      reads this
    {
      Scheduler(procs, ready, waiting, current, next, algorithm, quantum, maxProcesses)
    }

    /** init. */
    constructor (k: AlgorithmKind, q: nat, max: nat)
      ensures S() == Initial(k, q, max) && Agree(S()) && Counting(algorithm)
      ensures procs == map[] && ready == waiting == [] && current == INVALID_PID && next == 2 && quantum == q && maxProcesses == max
    {
      procs, ready, waiting, current, next, quantum := map[], [], [], INVALID_PID, 2, q;
      maxProcesses := max;
      algorithm := match k case KFcfs => Fcfs case KRoundRobin => RoundRobin case KPriority => Priority case KMultilevel => Multilevel(0);
    }

    method RemoveFromQueue(q: seq<Pid>, p: Pid) returns (r: seq<Pid>)
      ensures r == Remove(q, p)
    {
      r := [];
      var i := 0;
      while i < |q|
        invariant 0 <= i <= |q| && Remove(q, p) == r + Remove(q[i..], p)
      {
        if q[i] != p { r := r + [q[i]]; }
        i := i + 1;
      }
    }

    method CreateProcess(priority: PriorityNumber, code: seq<Instruction>) returns (pid: Pid)
      requires Agree(S())
      modifies this
      ensures S() == Create(old(S()), priority, code) && Agree(S())
      ensures pid == if |old(procs)| >= maxProcesses then INVALID_PID else old(next)
      ensures pid == INVALID_PID ==> S() == old(S())
      ensures pid != INVALID_PID ==>
                S() == old(S()).(procs := old(procs)[pid := Process(Ready, priority, quantum, 0, code, 0)], ready := old(ready) + [pid], next := pid + 1)
    {
      CreateAgrees(S(), priority, code);
      if |procs| >= maxProcesses { return INVALID_PID; }
      pid := next;
      next := next + 1;
      procs := procs[pid := Process(Ready, priority, quantum, 0, code, 0)];
      ready := ready + [pid];
    }

    method KillProcess(p: Pid) returns (ok: bool)
      modifies this
      ensures S() == Kill(old(S()), p) && (old(Agree(S())) ==> Agree(S()))
      ensures ok <==> p in old(procs) && old(procs)[p].state != Terminated
      ensures !ok ==> S() == old(S())
      ensures ok ==>
                && p in procs && procs == old(procs)[p := old(procs)[p].(state := Terminated)]
                && current == (if old(current) == p then INVALID_PID else old(current))
                && S() == old(S()).(procs := procs, ready := ready, waiting := waiting, current := current)
                && (old(Agree(S())) ==> OneOut(old(ready), ready, p) && OneOut(old(waiting), waiting, p))
    {
      if Agree(S()) {
        KillAgrees(S(), p);
        RemoveOut(ready, p);
        RemoveOut(waiting, p);
      }
      if p !in procs || procs[p].state == Terminated { return false; }
      if current == p { current := INVALID_PID; }
      ready := RemoveFromQueue(ready, p);
      waiting := RemoveFromQueue(waiting, p);
      procs := procs[p := procs[p].(state := Terminated)];
      ok := true;
    }

    method SuspendProcess(p: Pid) returns (ok: bool)
      requires Agree(S())
      modifies this
      ensures S() == Suspend(old(S()), p) && Agree(S())
      ensures ok <==> p in old(ready) || (p == old(current) && p != INVALID_PID)
      ensures !ok ==> S() == old(S())
      ensures ok ==>
                && p in old(procs) && procs == old(procs)[p := old(procs)[p].(state := Waiting)]
                && current == (if old(current) == p then INVALID_PID else old(current))
                && OneOut(old(ready), ready, p) && waiting == old(waiting) + [p]
                && S() == old(S()).(procs := procs, ready := ready, waiting := waiting, current := current)
    {
      SuspendAgrees(S(), p);
      RemoveOut(ready, p);
      if p !in procs || (procs[p].state != Running && procs[p].state != Ready) { return false; }
      if current == p { current := INVALID_PID; }
      ready := RemoveFromQueue(ready, p);
      procs := procs[p := procs[p].(state := Waiting)];
      waiting := waiting + [p];
      ok := true;
    }

    method ResumeProcess(p: Pid) returns (ok: bool)
      requires Agree(S())
      modifies this
      ensures S() == Resume(old(S()), p) && Agree(S())
      ensures ok <==> p in old(waiting)
      ensures !ok ==> S() == old(S())
      ensures ok ==>
                && p in old(procs) && procs == old(procs)[p := old(procs)[p].(state := Ready)]
                && ready == old(ready) + [p] && OneOut(old(waiting), waiting, p)
                && S() == old(S()).(procs := procs, ready := ready, waiting := waiting)
    {
      ResumeAgrees(S(), p);
      RemoveOut(waiting, p);
      if p !in procs || procs[p].state != Waiting { return false; }
      waiting := RemoveFromQueue(waiting, p);
      procs := procs[p := procs[p].(state := Ready)];
      ready := ready + [p];
      ok := true;
    }

    // ---- The algorithms' choices -----------------------------------------------------------------

    method HigherPriorityReady(c: Process) returns (found: bool)
      ensures found <==> exists i :: 0 <= i < |ready| && ready[i] in procs && procs[ready[i]].priority < c.priority
    {
      var i := 0;
      while i < |ready|
        invariant 0 <= i <= |ready|
        invariant forall j :: 0 <= j < i ==> !(ready[j] in procs && procs[ready[j]].priority < c.priority)
      {
        if ready[i] in procs && procs[ready[i]].priority < c.priority { return true; }
        i := i + 1;
      }
      return false;
    }

    method HigherLevelReady(level: nat) returns (p: Pid)
      ensures p == FirstAbove(S(), level, 0)
    {
      var i := 0;
      while i < |ready|
        invariant 0 <= i <= |ready| && FirstAbove(S(), level, 0) == FirstAbove(S(), level, i)
      {
        if ready[i] in procs && procs[ready[i]].level < level { return ready[i]; }
        i := i + 1;
      }
      return INVALID_PID;
    }

    method MustPreempt(c: Process) returns (r: bool)
      requires INVALID_PID !in procs
      ensures r <==> ShouldPreempt(S(), c)
    {
      match algorithm {
        case Fcfs => r := false;
        case RoundRobin => r := c.quantum == 0 && ready != [];
        case Priority => r := HigherPriorityReady(c);
        case Multilevel(_) =>
          if c.quantum == 0 {
            r := ready != [];
          } else {
            var p := HigherLevelReady(c.level);
            FirstAboveExists(S(), c.level, 0);
            r := p != INVALID_PID;
          }
      }
    }

    method LeastPriority() returns (p: Pid)
      requires ready != []
      ensures p == Best(ready, ByPriority(S()), 0, ready[0], 255)
      ensures forall i :: 0 <= i < |ready| && PriorityOf(S(), ready[i]) < 255 ==> PriorityOf(S(), p) <= PriorityOf(S(), ready[i])
    {
      ghost var key := ByPriority(S());
      BestLeast(ready, key, 0, ready[0], 255);
      p := ready[0];
      var best, i := 255, 0;
      while i < |ready|
        invariant 0 <= i <= |ready|
        invariant Best(ready, key, 0, ready[0], 255) == Best(ready, key, i, p, best)
      {
        var k := PriorityOf(S(), ready[i]);
        if k < best { best, p := k, ready[i]; }
        i := i + 1;
      }
    }

    method LeastLevel() returns (p: Pid)
      requires ready != []
      ensures p == Best(ready, ByLevel(S()), 0, ready[0], 255)
      ensures forall i :: 0 <= i < |ready| && LevelOf(S(), ready[i]) < 255 ==> LevelOf(S(), p) <= LevelOf(S(), ready[i])
    {
      ghost var key := ByLevel(S());
      BestLeast(ready, key, 0, ready[0], 255);
      p := ready[0];
      var best, i := 255, 0;
      while i < |ready|
        invariant 0 <= i <= |ready|
        invariant Best(ready, key, 0, ready[0], 255) == Best(ready, key, i, p, best)
      {
        var k := LevelOf(S(), ready[i]);
        if k < best { best, p := k, ready[i]; }
        i := i + 1;
      }
    }

    /** selectNext; the multilevel queue also counts its calls. */
    method Select() returns (n: Pid)
      modifies this`algorithm
      ensures n == SelectNext(old(S())) && algorithm == Counted(old(algorithm))
    {
      var front := if ready == [] then INVALID_PID else ready[0];
      var running := current != INVALID_PID && current in procs;
      match algorithm {
        case Fcfs => n := if current != INVALID_PID then current else front;
        case RoundRobin => n := if running && procs[current].quantum > 0 then current else front;
        case Priority =>
          n := INVALID_PID;
          if ready != [] { n := LeastPriority(); }
        case Multilevel(count) =>
          if running && procs[current].quantum > 0 {
            n := HigherLevelReady(procs[current].level);
            if n == INVALID_PID { n := current; }
          } else if ready == [] {
            n := INVALID_PID;
          } else {
            n := LeastLevel();
          }
          algorithm := Multilevel(if count + 1 >= AGING_INTERVAL then 0 else count + 1);
      }
    }

    // ---- Ticks ----------------------------------------------------------------------------------

    method ContextSwitch(n: Pid)
      modifies this
      ensures S() == Switch(old(S()), n)
      ensures old(Agree(S()) && n in ready && n != current) ==>
                && current == n && n in old(procs) && n in procs && Starts(old(S()), old(procs)[n], procs[n])
                && OneOut(if old(current) != INVALID_PID then old(ready) + [old(current)] else old(ready), ready, n)
    {
      if Agree(S()) && n in ready && n != current {
        SwitchLaw(S(), n);
        SwitchQueue(S(), n);
      }
      if current != INVALID_PID && current in procs && procs[current].state == Running {
        procs := procs[current := procs[current].(state := Ready)];
        ready := ready + [current];
      }
      ready := RemoveFromQueue(ready, n);
      if n in procs {
        var c := procs[n].(state := Running);
        if c.quantum == 0 {
          c := c.(quantum := if algorithm.Multilevel? then QuantumForLevel(c.level) else quantum);
        }
        procs := procs[n := c];
      }
      current := n;
    }

    /** Gives every ready or running process a level and a quantum, in whatever order the table
        is walked. */
    method RefreshAll(keepLevel: bool, q: nat)
      modifies this`procs
      ensures procs == map p | p in old(procs) :: Refreshed(old(procs)[p], if keepLevel then old(procs)[p].level else 0, q)
    {
      var todo := procs.Keys;
      ghost var before := procs;
      while todo != {}
        invariant todo <= procs.Keys == before.Keys
        invariant forall p :: p in before ==>
          procs[p] == if p in todo then before[p] else Refreshed(before[p], if keepLevel then before[p].level else 0, q)
        decreases |todo|
      {
        var p :| p in todo;
        procs := procs[p := Refreshed(procs[p], if keepLevel then procs[p].level else 0, q)];
        todo := todo - {p};
      }
    }

    /** schedule. */
    method Schedule()
      requires Agree(S())
      modifies this
      ensures S() == Tick(old(S())) && Agree(S())
      ensures old(Counting(algorithm)) ==> Ticked(old(S()), S())
    {
      hide Agree, Ticked;
      TickAgrees(S());
      if Counting(algorithm) { TickLaw(S()); }
      BoostAgrees(S());
      ReapAgrees(Boosted(S()));
      ghost var before := S();
      if algorithm.Multilevel? && algorithm.sinceBoost >= AGING_INTERVAL { RefreshAll(false, QuantumForLevel(0)); }
      assert procs == Boosted(before).procs;
      FreeEnded();
      ChargeCurrent();
      var n := Select();
      if n != INVALID_PID && n != current { ContextSwitch(n); }
    }

    method FreeEnded()
      modifies this
      ensures S() == Reap(old(S()))
    {
      if current != INVALID_PID {
        if current in procs {
          var c := procs[current];
          if c.state == Terminated || c.pc >= |c.code| {
            if c.state != Terminated { var killed := KillProcess(current); }
            current := INVALID_PID;
          }
        } else {
          current := INVALID_PID;
        }
      }
    }

    method ChargeCurrent()
      requires Agree(S())
      modifies this
      ensures S() == Charge(old(S()))
    {
      if current != INVALID_PID && current in procs {
        var c := procs[current];
        if c.quantum > 0 { c := c.(quantum := c.quantum - 1); }
        procs := procs[current := c];
        var preempt := MustPreempt(c);
        if preempt {
          ready := ready + [current];
          procs := procs[current := Expired(S(), c.(state := Ready))];
          current := INVALID_PID;
        }
      }
    }

    /** executeCurrentProcess. */
    method ExecuteCurrent()
      requires Agree(S())
      modifies this
      ensures S() == Execute(old(S())) && Agree(S())
      ensures Executed(old(S()), S())
    {
      hide Agree, Executed;
      ExecuteAgrees(S());
      ExecuteLaw(S());
      if current == INVALID_PID || current !in procs { current := INVALID_PID; return; }
      var c := procs[current];
      if c.pc >= |c.code| { var killed := KillProcess(current); return; }
      match c.code[c.pc] {
        case IoRequest => BlockCurrent();
        case Sleep => BlockCurrent();
        case Exit => var killed := KillProcess(current);
        case _ => procs := procs[current := c.(pc := c.pc + 1)];
      }
    }

    method BlockCurrent()
      requires current in procs
      modifies this
      ensures S() == Blocked(Advanced(old(S())))
    {
      var c := procs[current];
      procs := procs[current := c.(pc := c.pc + 1, state := Waiting)];
      ready := RemoveFromQueue(ready, current);
      waiting := waiting + [current];
      current := INVALID_PID;
    }

    method ChangeAlgorithm(k: AlgorithmKind)
      requires Agree(S())
      modifies this
      ensures S() == SetAlgorithm(old(S()), k) && Agree(S())
      ensures S() == old(S()).(procs := procs, algorithm := algorithm) && procs.Keys == old(procs).Keys
      ensures match k case KFcfs => algorithm == Fcfs case KRoundRobin => algorithm == RoundRobin
                      case KPriority => algorithm == Priority case KMultilevel => algorithm == Multilevel(0)
      ensures forall p :: p in procs ==>
                var c := old(procs)[p];
                procs[p] == if c.state == Waiting || c.state == Terminated || k == KFcfs || k == KPriority then c
                            else if k == KRoundRobin then c.(quantum := quantum) else c.(level := 0, quantum := 2)
    {
      AlgorithmAgrees(S(), k);
      match k {
        case KFcfs => algorithm := Fcfs;
        case KRoundRobin => algorithm := RoundRobin; RefreshAll(true, quantum);
        case KPriority => algorithm := Priority;
        case KMultilevel => algorithm := Multilevel(0); RefreshAll(false, QuantumForLevel(0));
      }
    }
  }

  lemma {:induction false} FirstAboveExists(s: Scheduler, level: nat, k: nat)
    requires k <= |s.ready| && INVALID_PID !in s.procs
    ensures FirstAbove(s, level, k) != INVALID_PID <==>
            exists i :: k <= i < |s.ready| && s.ready[i] in s.procs && s.procs[s.ready[i]].level < level
    decreases |s.ready| - k
  {
    if k < |s.ready| { FirstAboveExists(s, level, k + 1); }
  }
}
