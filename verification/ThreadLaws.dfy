/** What the clock does to the threads of the machine: sleepers wake, ready threads age, and a tick
    charges the running thread. The laws are about every step and every run, and none of them names
    the sweep, the charge or the aging that the task scheduler is made of
    (kernel/src/task_scheduler.cpp). */
module ThreadLaws {
  import opened Rings
  import opened Threads
  import opened Wakeups

  // ---- Picking a thread -----------------------------------------------------------------------------

  /** The clock value that a step sees. */
  function NowOf(step: Step): nat {
    match step
    case DoTick(now) => now
    case DoReceive(now) => now
    case DoWait(now) => now
    case DoExit(_, now) => now
    case DoKill(_, now) => now
    case DoSleep(_, now) => now
    case DoAwait(_, now) => now
    case _ => 0
  }

  /** The step ends with a choice of the thread to run: the quantum is used up, or the current thread
      blocks, sleeps, exits or is killed. */
  ghost predicate Picks(k: Kernel, step: Step)
    requires k.current < |k.threads|
  {
    var t := k.threads[k.current];
    match step
    case DoTick(_) => t.state != Running || t.quantum == 1
    case DoReceive(_) => t.mail.count == 0
    case DoWait(_) => Named(k.threads, k.current) && forall c :: 1 <= c < |k.threads| && k.threads[c].parent == k.current ==> k.threads[c].state != Zombie
    case DoExit(_, _) => true
    case DoKill(tid, _) => tid == k.current
    case DoSleep(_, _) => true
    case DoAwait(c, _) => c < |k.channels| && k.channels[c].active && k.channels[c].ring.head == k.channels[c].ring.tail
    case _ => false
  }

  /** No thread sleeps on past its time. */
  ghost predicate NoneDue(ts: seq<Thread>, now: nat) {
    forall i :: 0 <= i < |ts| && ts[i].state == Sleeping ==> now < ts[i].sleepUntil
  }

  lemma SweptNoneDue(ts: seq<Thread>, cur: nat, now: nat)
    ensures NoneDue(Swept(ts, cur, now), now)
  {
  }

  lemma SwitchNoneDue(k: Kernel, n: nat, now: nat)
    requires n < |k.threads| && NoneDue(k.threads, now)
    ensures NoneDue(SwitchTo(k, n).threads, now)
  {
  }

  lemma RescheduleNoneDue(k: Kernel, now: nat)
    requires k.current < |k.threads|
    ensures NoneDue(Reschedule(k, now).threads, now)
  {
    hide NoneDue, PickFrom, Released;
    SweptNoneDue(k.threads, k.current, now);
    var k1 := SweepKernel(k, now);
    var n := PickFrom(k1.threads, k1.current);
    if n < |k1.threads| { SwitchNoneDue(k1, n, now); }
  }

  lemma RequeueNoneDue(k: Kernel, now: nat)
    requires k.current < |k.threads|
    ensures NoneDue(Requeue(k, now).threads, now)
  {
    hide PickFrom, Released;
    SweptNoneDue(k.threads, k.current, now);
    var k1 := SweepKernel(k, now);
    var n := PickFrom(k1.threads, k1.current);
    if n < |k1.threads| { SwitchNoneDue(k1, n, now); }
  }

  /** After every step that picks a thread no sleeper is due. */
  lemma NoneOversleeps(k: Kernel, step: Step)
    requires Inv(k) && Allowed(k, step) && Picks(k, step)
    ensures NoneDue(Next(k, step).threads, NowOf(step))
  {
    hide NoneDue, Core, Reschedule, Requeue;
    CoreParts(k);
    var t, now := k.threads[k.current], NowOf(step);
    match step
    case DoTick(_) => TickNoneDue(k, now);
    case DoReceive(_) => RescheduleNoneDue(SetThread(SetThread(k, k.current, t.(waiting := true)), k.current, t.(waiting := true, state := Blocked, channel := NOT_WAITING)), now);
    case DoWait(_) =>
      ZombieChildIs(k.threads, k.current, 1);
      RescheduleNoneDue(SetThread(k, k.current, t.(state := Blocked, channel := WAIT_CHILD)), now);
    case DoExit(code, _) => ExitNoneDue(k, code, now);
    case DoKill(_, _) => TickNoneDue(SetThread(k, k.current, t.(state := Terminated)), now);
    case DoSleep(until, _) => RescheduleNoneDue(SetThread(k, k.current, t.(state := Sleeping, sleepUntil := until)), now);
    case DoAwait(c, _) => AwaitNoneDue(k, c, now);
  }

  lemma TickNoneDue(k: Kernel, now: nat)
    requires k.current < |k.threads| && (k.threads[k.current].state != Running || k.threads[k.current].quantum == 1)
    ensures NoneDue(Tick(k, now).threads, now)
  {
    hide NoneDue, Requeue;
    var k1 := AgeStep(k);
    var t := k1.threads[k1.current];
    RequeueNoneDue(k1, now);
    RequeueNoneDue(SetThread(k1, k1.current, t.(state := Ready, quantum := DEFAULT_QUANTUM)), now);
  }

  lemma ExitNoneDue(k: Kernel, code: int, now: nat)
    requires k.current < |k.threads|
    ensures NoneDue(Exit(k, code, now).threads, now)
  {
    hide NoneDue, Reschedule;
    var t := k.threads[k.current].(exitCode := code);
    RescheduleNoneDue(SetThread(k, k.current, t.(state := Terminated)), now);
    var ts := k.threads[k.current := t.(state := Zombie)];
    RescheduleNoneDue(k.(threads := ts), now);
    if 0 <= t.parent { RescheduleNoneDue(k.(threads := UnblockOne(ts, t.parent)), now); }
  }

  lemma AwaitNoneDue(k: Kernel, c: nat, now: nat)
    requires Inv(k) && c < |k.channels| && k.channels[c].active && k.channels[c].ring.head == k.channels[c].ring.tail
    ensures NoneDue(AwaitEvent(k, c, now).threads, now)
  {
    hide NoneDue, Reschedule, NoLostWakeup, UsedCount;
    var room := |k.channels[c].waiters| < MAX_WAITERS;
    var k1 := SetThread(k, k.current, k.threads[k.current].(enrolled := room || k.current in k.channels[c].waiters));
    var k2 := if room then k1.(channels := k1.channels[c := k1.channels[c].(waiters := k1.channels[c].waiters + [k.current])]) else k1;
    RescheduleNoneDue(SetThread(k2, k2.current, k2.threads[k2.current].(state := Blocked, channel := c)), now);
  }

  /** On every run from boot: after a step that picks a thread no sleeper is due. */
  lemma NoneOversleepsOnRuns(ks: seq<Kernel>, steps: seq<Step>, n: nat)
    requires IsRun(ks, steps) && Booted(ks[0]) && n < |steps| && ks[n].current < |ks[n].threads| && Picks(ks[n], steps[n])
    ensures NoneDue(ks[n + 1].threads, NowOf(steps[n]))
  {
    hide Inv, Booted, Next, Picks;
    RunInv(ks, steps, n);
    assert IsStep(ks[n], steps[n], ks[n + 1]);
    NoneOversleeps(ks[n], steps[n]);
  }

  // ---- One tick ---------------------------------------------------------------------------------------

  /** The tick on which ready threads age. */
  predicate AgesNow(k: Kernel) { k.aging + 1 >= AGING_INTERVAL }

  /** A thread that does not run, before the choice: aged if it is ready and the interval is over, and
      if a choice is made, given back if it was killed and ready if its sleep is over. */
  ghost predicate Rested(k: Kernel, i: nat, picks: bool, now: nat, t: Thread, t': Thread) {
    && t'.sleepUntil == t.sleepUntil && t'.mail == t.mail && t'.waiting == t.waiting && t'.parent == t.parent
    && t'.exitCode == t.exitCode && t'.enrolled == t.enrolled
    && t'.priority == (if AgesNow(k) && i >= 1 && t.state == Ready && t.priority > 1 then t.priority - 1 else t.priority)
    && t'.state == (if picks && t.state == Terminated then Unused else if picks && t.state == Sleeping && now >= t.sleepUntil then Ready else t.state)
    && t'.channel == (if picks && t.state == Sleeping && now >= t.sleepUntil then NOT_WAITING else t.channel)
    && t'.quantum == t.quantum
  }

  /** What one tick does to every thread: the running thread is charged, and loses the CPU when its
      quantum is used up; the thread that gets it has a full quantum. */
  ghost predicate Ticked(k: Kernel, now: nat, k': Kernel) {
    && |k'.threads| == |k.threads| && k.current < |k.threads| && k'.current < |k.threads| && k'.channels == k.channels
    && k'.aging == (if AgesNow(k) then 0 else k.aging + 1)
    && var c, picks := k.threads[k.current], k.threads[k.current].quantum == 1;
    && (!picks ==> k'.current == k.current && k'.threads[k.current].(quantum := c.quantum) == c && k'.threads[k.current].quantum + 1 == c.quantum)
    && (picks ==> k'.threads[k.current] == c.(state := if k'.current == k.current then Running else Ready, quantum := DEFAULT_QUANTUM))
    && forall i :: 0 <= i < |k.threads| && i != k.current ==>
         if i == k'.current then
           && k'.threads[i].state == Running && k'.threads[i].quantum == DEFAULT_QUANTUM
           && Rested(k, i, picks, now, k.threads[i], k'.threads[i].(state := Ready, quantum := k.threads[i].quantum))
         else Rested(k, i, picks, now, k.threads[i], k'.threads[i])
  }

  lemma RestedIs(k: Kernel, i: nat, now: nat, t: Thread)
    ensures Rested(k, i, false, now, t, if AgesNow(k) then Aged(t, i) else t)
    ensures Rested(k, i, true, now, t, Sweep(if AgesNow(k) then Aged(t, i) else t, false, now))
  {
  }

  lemma TickLaw(k: Kernel, now: nat)
    requires Inv(k)
    ensures Ticked(k, now, Tick(k, now))
  {
    hide Core, Rested, Aged, Sweep, Requeue;
    CoreParts(k);
    TickKnown(k);
    NotAged(k);
    var k1 := AgeStep(k);
    forall i | 0 <= i < |k.threads| ensures Rested(k, i, false, now, k.threads[i], k1.threads[i]) {
      RestedIs(k, i, now, k.threads[i]);
    }
    if k.threads[k.current].quantum == 1 {
      TickPicks(k, k1, now);
    }
  }

  /** The quantum is used up. */
  lemma TickPicks(k: Kernel, k1: Kernel, now: nat)
    requires Inv(k) && k1 == AgeStep(k) && k.threads[k.current].quantum == 1 && k1.threads[k.current] == k.threads[k.current]
    ensures Tick(k, now) == Requeue(SetThread(k1, k.current, k.threads[k.current].(state := Ready, quantum := DEFAULT_QUANTUM)), now)
    ensures Ticked(k, now, Tick(k, now))
  {
    hide Core, Released, PickFrom, Rested, Aged, Sweep;
    CoreParts(k);
    TickKnown(k);
    var c := k.threads[k.current].(state := Ready, quantum := DEFAULT_QUANTUM);
    var kr := SetThread(k1, k.current, c);
    var k2 := SweepKernel(kr, now);
    forall i | 0 <= i < |k.threads| && i != k.current ensures Rested(k, i, true, now, k.threads[i], k2.threads[i]) {
      RestedIs(k, i, now, k.threads[i]);
    }
    ReadyNotSwept(c, now);
    BootReady(k, k2);
    PickReady(k2);
    var n := PickFrom(k2.threads, k2.current);
    if n != k.current { QuantumKept(k, n, now, k2.threads[n]); }
  }

  lemma QuantumKept(k: Kernel, i: nat, now: nat, t': Thread)
    requires i < |k.threads| && Rested(k, i, true, now, k.threads[i], t')
    ensures t'.quantum == k.threads[i].quantum
  {
  }

  lemma BootReady(k: Kernel, k2: Kernel)
    requires Inv(k) && k2.current == k.current && |k2.threads| == |k.threads|
    requires k.current != 0 ==> exists now :: Rested(k, 0, true, now, k.threads[0], k2.threads[0])
    requires k2.threads[k.current].state == Ready
    ensures k2.threads[0].state == Ready
  {
  }

  lemma PickReady(k: Kernel)
    requires k.current < |k.threads| && k.threads[0].state == Ready
    ensures var n := PickFrom(k.threads, k.current); n < |k.threads| && k.threads[n].state in {Ready, Running}
    ensures k.threads[k.current].state == Ready ==> k.threads[PickFrom(k.threads, k.current)].state == Ready
  {
    ChooseBound(k.threads, k.current, 0, 0, 255);
  }

  lemma NotAged(k: Kernel)
    requires k.current < |k.threads| && k.threads[k.current].state == Running
    ensures AgeStep(k).threads[k.current] == k.threads[k.current]
  {
  }

  lemma ReadyNotSwept(t: Thread, now: nat)
    requires t.state == Ready
    ensures Sweep(t, true, now) == t
  {
  }

  lemma TickKnown(k: Kernel)
    requires Inv(k)
    ensures k.current < |k.threads| && k.threads[k.current].state == Running && k.threads[k.current].quantum > 0
  {
  }

  /** The thread that got the CPU comes before every other ready thread but the one that lost it: by
      priority number, then by tid. */
  ghost predicate Foremost(ts: seq<Thread>, was: nat, n: nat) {
    n < |ts| && forall i :: 0 <= i < |ts| && i != was && i != n && ts[i].state == Ready && ts[i].priority < 255 ==>
      ts[n].priority < ts[i].priority || (ts[n].priority == ts[i].priority && n < i)
  }

  lemma PickForemost(k: Kernel)
    requires k.current < |k.threads| && k.threads[k.current].state != Running && k.threads[0].state == Ready && k.threads[0].priority < 255
    ensures var n := PickFrom(k.threads, k.current); n < |k.threads| && Foremost(SwitchTo(k, n).threads, k.current, n)
  {
    PickIsBest(k.threads, k.current);
    PickReady(k);
    if j :| 0 <= j < |k.threads| && Candidate(k.threads, k.current, j) {
      var b: nat :| IsBest(k.threads, k.current, b);
      forall i | 0 <= i < |k.threads| && i != k.current && i != b && k.threads[i].state == Ready && k.threads[i].priority < 255
        ensures k.threads[b].priority < k.threads[i].priority || (k.threads[b].priority == k.threads[i].priority && b < i)
      {
        assert Candidate(k.threads, k.current, i);
      }
    } else {
      forall i | 0 <= i < |k.threads| && i != k.current ensures !(k.threads[i].state == Ready && k.threads[i].priority < 255) {
        assert !Candidate(k.threads, k.current, i);
      }
    }
  }

  /** When the quantum is used up the foremost thread gets the CPU. */
  lemma TickForemost(k: Kernel, now: nat)
    requires Inv(k) && k.threads[k.current].quantum == 1
    ensures Foremost(Tick(k, now).threads, k.current, Tick(k, now).current)
  {
    hide Core, Released, PickFrom, Rested, Aged, Sweep, Foremost;
    CoreParts(k);
    TickKnown(k);
    NotAged(k);
    var k1 := AgeStep(k);
    TickPicks(k, k1, now);
    var c := k.threads[k.current].(state := Ready, quantum := DEFAULT_QUANTUM);
    var k2 := SweepKernel(SetThread(k1, k.current, c), now);
    ReadyNotSwept(c, now);
    if k.current != 0 {
      RestedIs(k, 0, now, k.threads[0]);
      BootStays(k, now, k2.threads[0]);
    }
    PickForemost(k2);
    PickReady(k2);
    var n := PickFrom(k2.threads, k2.current);
    assert n == k.current ==> Tick(k, now).threads == k2.threads[n := Tick(k, now).threads[n]];
    if n == k.current { SameForemost(k2.threads, k.current, Tick(k, now).threads); }
  }

  lemma SameForemost(ts: seq<Thread>, n: nat, ts': seq<Thread>)
    requires n < |ts| && |ts'| == |ts| && ts' == ts[n := ts'[n]] && ts'[n].priority == ts[n].priority && Foremost(ts, n, n)
    ensures Foremost(ts', n, n)
  {
  }

  lemma BootStays(k: Kernel, now: nat, t: Thread)
    requires Inv(k) && k.current != 0 && Rested(k, 0, true, now, k.threads[0], t)
    ensures t.state == Ready && t.priority < 255
  {
  }

  // ---- Sleepers wake ----------------------------------------------------------------------------------

  ghost predicate OnlyTicks(steps: seq<Step>, now: nat) { forall j :: 0 <= j < |steps| ==> steps[j].DoTick? && steps[j].now >= now }

  ghost predicate Awake(t: Thread) { t.state == Ready || t.state == Running }

  lemma AwakeStays(k: Kernel, now: nat, i: nat)
    requires Inv(k) && i < |k.threads| && Awake(k.threads[i])
    ensures i < |Tick(k, now).threads| && Awake(Tick(k, now).threads[i])
  {
    hide Inv, Tick;
    TickLaw(k, now);
  }

  /** A sleeper whose time has come is awake once the running thread has used up its quantum. */
  lemma {:induction false} SleeperWakes(ks: seq<Kernel>, steps: seq<Step>, i: nat, until: nat)
    requires IsRun(ks, steps) && Inv(ks[0]) && i < |ks[0].threads| && OnlyTicks(steps, until)
    requires Awake(ks[0].threads[i]) || (ks[0].threads[i].state == Sleeping && ks[0].threads[i].sleepUntil <= until && QuantumLeft(ks[0]) <= |steps|)
    ensures i < |ks[|steps|].threads| && Awake(ks[|steps|].threads[i])
    decreases |steps|
  {
    hide Inv, Tick;
    TickKnown(ks[0]);
    if steps != [] {
      assert IsStep(ks[0], steps[0], ks[1]);
      var now := steps[0].now;
      StepKeeps(ks[0], steps[0], ks[1]);
      TickLaw(ks[0], now);
      TickKnown(ks[1]);
      if Awake(ks[0].threads[i]) { AwakeStays(ks[0], now, i); }
      RunTail(ks, steps);
      SleeperWakes(ks[1..], steps[1..], i, until);
    }
  }

  function QuantumLeft(k: Kernel): nat { if k.current < |k.threads| then k.threads[k.current].quantum else 0 }

  lemma RunTail(ks: seq<Kernel>, steps: seq<Step>)
    requires IsRun(ks, steps) && steps != []
    ensures IsRun(ks[1..], steps[1..])
  {
    hide IsStep;
    forall j | 0 <= j < |steps[1..]| ensures IsStep(ks[1..][j], steps[1..][j], ks[1..][j + 1]) {
      assert IsStep(ks[j + 1], steps[j + 1], ks[j + 2]);
    }
  }

  // ---- Ready threads age --------------------------------------------------------------------------------

  /** A thread that is ready for fifty ticks rises by exactly one, until it has priority 1. */
  lemma AgesOnce(ks: seq<Kernel>, steps: seq<Step>, i: nat)
    requires IsRun(ks, steps) && Inv(ks[0]) && ks[0].aging < AGING_INTERVAL && |steps| == AGING_INTERVAL && OnlyTicks(steps, 0)
    requires 1 <= i < MAX_THREADS && forall j :: 0 <= j <= |steps| ==> |ks[j].threads| == MAX_THREADS && ks[j].threads[i].state == Ready
    ensures var p := ks[0].threads[i].priority; ks[AGING_INTERVAL].threads[i].priority == if p > 1 then p - 1 else p
  {
    AgedBy(ks, steps, i, AGING_INTERVAL);
  }

  lemma {:induction false} AgedBy(ks: seq<Kernel>, steps: seq<Step>, i: nat, n: nat)
    requires IsRun(ks, steps) && Inv(ks[0]) && ks[0].aging < AGING_INTERVAL && n <= |steps| <= AGING_INTERVAL && OnlyTicks(steps, 0)
    requires 1 <= i < MAX_THREADS && forall j :: 0 <= j <= |steps| ==> |ks[j].threads| == MAX_THREADS && ks[j].threads[i].state == Ready
    ensures Inv(ks[n])
    ensures var a, p := ks[0].aging, ks[0].threads[i].priority;
            if a + n < AGING_INTERVAL then ks[n].aging == a + n && ks[n].threads[i].priority == p
            else ks[n].aging == a + n - AGING_INTERVAL && ks[n].threads[i].priority == if p > 1 then p - 1 else p
    decreases n
  {
    hide Inv, Tick;
    if n > 0 {
      var j := n - 1;
      AgedBy(ks, steps, i, j);
      assert IsStep(ks[j], steps[j], ks[j + 1]);
      var now := steps[j].now;
      StepKeeps(ks[j], steps[j], ks[j + 1]);
      TickLaw(ks[j], now);
      TickKnown(ks[j]);
      TickKnown(ks[j + 1]);
    }
  }

  // ---- Giving up the CPU --------------------------------------------------------------------------------

  /** What the choice of a thread does to the others: a killed thread gives its slot back, a sleeper
      whose time has come is ready, and nothing else changes. */
  ghost predicate Settled(t: Thread, t': Thread, isCurrent: bool, now: nat) {
    && (t.state == Terminated && !isCurrent ==> t' == t.(state := Unused))
    && (t.state == Sleeping && t.sleepUntil <= now ==> t' == t.(state := Ready, channel := NOT_WAITING))
    && (!(t.state == Terminated && !isCurrent) && !(t.state == Sleeping && t.sleepUntil <= now) ==> t' == t)
  }

  lemma SweepSettles(t: Thread, isCurrent: bool, now: nat)
    ensures Settled(t, Sweep(t, isCurrent, now), isCurrent, now)
  {
  }

  /** Another thread runs: the foremost, with a full quantum. */
  ghost predicate SwitchedAway(k: Kernel, now: nat, k': Kernel) {
    && |k'.threads| == |k.threads| && k'.current < |k.threads| && k'.current != k.current && k'.channels == k.channels && k'.aging == k.aging
    && Foremost(k'.threads, k.current, k'.current)
    && forall i :: 0 <= i < |k.threads| ==>
         if i == k'.current then
           && k'.threads[i].state == Running && k'.threads[i].quantum == DEFAULT_QUANTUM
           && Settled(k.threads[i], k'.threads[i].(state := Ready, quantum := k.threads[i].quantum), false, now)
         else Settled(k.threads[i], k'.threads[i], i == k.current, now)
  }

  lemma RescheduleLaw(k: Kernel, now: nat)
    requires Core(k) && NoneRunning(k.threads) && k.current != 0
    ensures SwitchedAway(k, now, Reschedule(k, now))
  {
    hide Core, Released, PickFrom, Settled, Foremost;
    CoreParts(k);
    var k1 := SweepKernel(k, now);
    SweepCore(k, now);
    CoreParts(k1);
    SweepRunning(k.threads, k.current, now);
    forall i | 0 <= i < |k.threads| ensures Settled(k.threads[i], k1.threads[i], i == k.current, now) {
      SweepSettles(k.threads[i], i == k.current, now);
    }
    PicksOther(k1.threads, k1.current);
    PickForemost(k1);
    var n := PickFrom(k1.threads, k1.current);
    SettledQuantum(k.threads[n], k1.threads[n], now);
  }

  lemma SettledQuantum(t: Thread, t': Thread, now: nat)
    requires Settled(t, t', false, now)
    ensures t'.quantum == t.quantum
  {
  }

  /** sys_exit: the thread is a zombie with its code for a parent whose slot is in use, which wakes if
      it waits for a child; without one it is terminated. */
  ghost predicate Exited(k: Kernel, code: int, now: nat, k': Kernel) {
    && |k'.threads| == |k.threads| && k.current < |k.threads| && k'.current < |k.threads| && k'.current != k.current
    && var c, p := k.threads[k.current], k.threads[k.current].parent;
    && var kept := 0 <= p < |k.threads| && k.threads[p].state != Unused;
    && k'.threads[k.current] == c.(exitCode := code, state := if kept then Zombie else Terminated)
    && (kept && p != k.current && k.threads[p].state == Blocked && k.threads[p].channel == WAIT_CHILD ==>
          (k'.threads[p].state == Ready || k'.threads[p].state == Running) && k'.threads[p].channel == NOT_WAITING)
    && forall i :: 0 <= i < |k.threads| && i != k.current && i != p && i != k'.current ==> Settled(k.threads[i], k'.threads[i], false, now)
  }

  lemma ExitLaw(k: Kernel, code: int, now: nat)
    requires Inv(k) && k.current != 0
    ensures Exited(k, code, now, Exit(k, code, now))
  {
    hide Reschedule, Foremost;
    var mid := ExitMid(k, code);
    hide Core;
    CoreParts(k);
    RescheduleLaw(mid, now);
  }

  /** The state between the exit and the task switch. */
  lemma ExitMid(k: Kernel, code: int) returns (mid: Kernel)
    requires Inv(k) && k.current != 0
    ensures Core(mid) && NoneRunning(mid.threads) && mid.current == k.current && |mid.threads| == |k.threads|
    ensures forall now :: Exit(k, code, now) == Reschedule(mid, now)
    ensures var c, p := k.threads[k.current], k.threads[k.current].parent;
            var kept := 0 <= p < |k.threads| && k.threads[p].state != Unused;
            && mid.threads[k.current] == c.(exitCode := code, state := if kept then Zombie else Terminated)
            && (kept && p != k.current && k.threads[p].state == Blocked && k.threads[p].channel == WAIT_CHILD ==>
                  mid.threads[p] == k.threads[p].(state := Ready, channel := NOT_WAITING))
            && forall i :: 0 <= i < |k.threads| && i != k.current && i != p ==> mid.threads[i] == k.threads[i]
  {
    hide Reschedule;
    var t := k.threads[k.current].(exitCode := code);
    if 0 <= t.parent < |k.threads| && k.threads[t.parent].state != Unused {
      var z := t.(state := Zombie);
      if t.parent != k.current && k.threads[t.parent].state == Blocked && k.threads[t.parent].channel == WAIT_CHILD {
        var p := k.threads[t.parent].(state := Ready, channel := NOT_WAITING);
        SetCore(k, t.parent, p, k.count);
        var k1 := SetThread(k, t.parent, p);
        SetCore(k1, k.current, z, k.count);
        mid := SetThread(k1, k.current, z);
        assert k.threads[k.current := z][t.parent := p] == mid.threads;
      } else {
        SetCore(k, k.current, z, k.count);
        mid := SetThread(k, k.current, z);
      }
    } else {
      SetCore(k, k.current, t.(state := Terminated), k.count);
      mid := SetThread(k, k.current, t.(state := Terminated));
    }
  }

  // ---- Channels -----------------------------------------------------------------------------------------

  lemma {:induction false} FreeChannelFirst(cs: seq<Channel>, i: nat)
    requires i <= |cs|
    ensures var c := FreeChannel(cs, i);
            i <= c <= |cs| && (c < |cs| ==> !cs[c].active) && forall d :: i <= d < c ==> cs[d].active
    decreases |cs| - i
  {
    if i < |cs| { FreeChannelFirst(cs, i + 1); }
  }

  /** create_channel takes the first inactive channel from 16 on and makes it active and empty, without
      waiters; it fails exactly when there is none. */
  lemma CreateLaw(k: Kernel) returns (c: nat)
    requires Inv(k)
    ensures 16 <= c <= |k.channels| && forall d :: 16 <= d < c ==> k.channels[d].active
    ensures c == |k.channels| ==> CreateChannel(k) == k
    ensures c < |k.channels| ==>
              var ch := CreateChannel(k).channels[c];
              && !k.channels[c].active && ch.active && ch.waiters == [] && RingOk(ch.ring) && Events(ch.ring) == []
              && CreateChannel(k) == k.(channels := k.channels[c := ch])
  {
    hide NoLostWakeup, UsedCount;
    c := FreeChannel(k.channels, 16);
    FreeChannelFirst(k.channels, 16);
    if c < |k.channels| { EmptyRing(CreateChannel(k).channels[c].ring); }
  }

  /** destroy_channel wakes every thread the channel lists and makes it inactive. */
  lemma DestroyLaw(k: Kernel, c: nat)
    requires c < |k.channels|
    ensures var k' := DestroyChannel(k, c);
            && k'.channels == k.channels[c := k.channels[c].(active := false, waiters := [])] && |k'.threads| == |k.threads|
            && forall i :: 0 <= i < |k.threads| ==>
                 k'.threads[i] == if i in k.channels[c].waiters && k.threads[i].state == Blocked
                                  then k.threads[i].(state := Ready, channel := NOT_WAITING) else k.threads[i]
  {
    UnblockAllIs(k.threads, k.channels[c].waiters);
  }
}
