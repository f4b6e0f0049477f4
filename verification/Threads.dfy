/** The live thread table as a step machine: mailboxes, event channels, exit and wait, and the task
    scheduler. A system call body is one step up to a task switch, because gate 128 is an interrupt
    gate (kernel/src/syscall_gate.cpp:27-29). A blocked thread that runs again re-enters its loop;
    the machine lets it take any step, which covers that. Names, stacks, files and address spaces
    are not modelled. */
module Threads {
  import opened Rings

  const MAX_THREADS: nat := 32
  const MAX_CHANNELS: nat := 32
  const MAX_WAITERS: nat := 8
  const DEFAULT_QUANTUM: nat := 5
  const AGING_INTERVAL: nat := 50
  const IPC_MAX_MSG_SIZE: nat := 512
  const NOT_WAITING: int := -1   // also the channel of a thread blocked in recv
  const WAIT_CHILD: int := -2

  datatype Message = Message(sender: nat, data: seq<nat>)

  datatype TState = Unused | Ready | Running | Blocked | Sleeping | Terminated | Zombie

  /** `enrolled` records whether the waiter table of the channel the thread blocked on lists it; it
      is history, not a field of the kernel. */
  datatype Thread = Thread(
    state: TState, priority: nat, sleepUntil: nat, channel: int, quantum: nat,
    mail: Mailbox<Message>, waiting: bool, parent: int, exitCode: int, enrolled: bool)

  datatype Channel = Channel(active: bool, ring: Ring<nat>, waiters: seq<nat>)

  datatype Kernel = Kernel(threads: seq<Thread>, current: nat, count: int, channels: seq<Channel>, aging: nat)

  // ---- Counting used slots -----------------------------------------------------------------------

  function UsedCount(ts: seq<Thread>): nat {
    if ts == [] then 0 else UsedCount(ts[..|ts| - 1]) + if ts[|ts| - 1].state == Unused then 0 else 1
  }

  function One(b: bool): nat { if b then 1 else 0 }

  lemma {:induction false} UsedUpdate(ts: seq<Thread>, i: nat, t: Thread)
    requires i < |ts|
    ensures UsedCount(ts[i := t]) == UsedCount(ts) - One(ts[i].state != Unused) + One(t.state != Unused)
    decreases |ts|
  {
    var n := |ts| - 1;
    if i < n {
      UsedUpdate(ts[..n], i, t);
      assert ts[i := t][..n] == ts[..n][i := t];
    } else {
      assert ts[i := t][..n] == ts[..n];
    }
  }

  // ---- The scheduler -----------------------------------------------------------------------------

  /** What pick_next_thread does to a thread before it chooses. */
  function Sweep(t: Thread, isCurrent: bool, now: nat): Thread {
    if t.state == Terminated && !isCurrent then t.(state := Unused)
    else if t.state == Sleeping && now >= t.sleepUntil then t.(state := Ready, channel := NOT_WAITING)
    else t
  }

  function Swept(ts: seq<Thread>, cur: nat, now: nat): (r: seq<Thread>)
    ensures |r| == |ts| && forall i :: 0 <= i < |ts| ==> r[i] == Sweep(ts[i], i == cur, now)
  {
    seq(|ts|, i requires 0 <= i < |ts| => Sweep(ts[i], i == cur, now))
  }

  /** How many terminated threads the sweep releases. */
  function Released(ts: seq<Thread>, cur: nat): nat {
    if ts == [] then 0
    else Released(ts[..|ts| - 1], cur) + One(ts[|ts| - 1].state == Terminated && |ts| - 1 != cur)
  }

  /** The ready thread with the least priority value below best, the lowest number first. */
  function Choose(ts: seq<Thread>, cur: nat, k: nat, best: nat, bestPriority: nat): nat
    requires k <= |ts|
    decreases |ts| - k
  {
    if k == |ts| then best
    else if k != cur && ts[k].state == Ready && ts[k].priority < bestPriority then Choose(ts, cur, k + 1, k, ts[k].priority)
    else Choose(ts, cur, k + 1, best, bestPriority)
  }

  function PickFrom(ts: seq<Thread>, cur: nat): nat
    requires cur < |ts|
  {
    var best := Choose(ts, cur, 0, 0, 255);
    if best == 0 && ts[cur].state == Running then cur else best
  }

  function SweepKernel(k: Kernel, now: nat): Kernel {
    k.(threads := Swept(k.threads, k.current, now), count := k.count - Released(k.threads, k.current))
  }

  function SwitchTo(k: Kernel, n: nat): Kernel
    requires n < |k.threads|
  {
    if n == k.current then k
    else k.(threads := k.threads[n := k.threads[n].(state := Running, quantum := DEFAULT_QUANTUM)], current := n)
  }

  lemma {:induction false} ChooseBound(ts: seq<Thread>, cur: nat, k: nat, best: nat, bestPriority: nat)
    requires k <= |ts| && best < |ts|
    ensures Choose(ts, cur, k, best, bestPriority) < |ts|
    ensures var r := Choose(ts, cur, k, best, bestPriority); r == best || (k <= r && r != cur && ts[r].state == Ready)
    decreases |ts| - k
  {
    if k < |ts| {
      if k != cur && ts[k].state == Ready && ts[k].priority < bestPriority {
        ChooseBound(ts, cur, k + 1, k, ts[k].priority);
      } else {
        ChooseBound(ts, cur, k + 1, best, bestPriority);
      }
    }
  }

  /** A thread other than the current one that may be chosen. */
  predicate Candidate(ts: seq<Thread>, cur: nat, i: nat) {
    i < |ts| && i != cur && ts[i].state == Ready && ts[i].priority < 255
  }

  /** The ready thread with the least priority number, the first of several. */
  ghost predicate IsBest(ts: seq<Thread>, cur: nat, b: nat) {
    && Candidate(ts, cur, b)
    && forall j :: 0 <= j < |ts| && Candidate(ts, cur, j) ==>
         ts[b].priority <= ts[j].priority && (j < b ==> ts[b].priority < ts[j].priority)
  }

  lemma {:induction false} ChooseLeast(ts: seq<Thread>, cur: nat, k: nat, best: nat, bestPriority: nat)
    requires k <= |ts| && bestPriority <= 255
    ensures var r := Choose(ts, cur, k, best, bestPriority);
            || (r == best && forall j :: k <= j < |ts| && Candidate(ts, cur, j) ==> bestPriority <= ts[j].priority)
            || (k <= r < |ts| && Candidate(ts, cur, r) && ts[r].priority < bestPriority
                && forall j :: k <= j < |ts| && Candidate(ts, cur, j) ==>
                     ts[r].priority <= ts[j].priority && (j < r ==> ts[r].priority < ts[j].priority))
    decreases |ts| - k
  {
    if k < |ts| {
      if k != cur && ts[k].state == Ready && ts[k].priority < bestPriority {
        ChooseLeast(ts, cur, k + 1, k, ts[k].priority);
      } else {
        ChooseLeast(ts, cur, k + 1, best, bestPriority);
      }
    }
  }

  /** The scheduler picks the ready thread with the least priority number. If there is none, or it
      is thread 0, a running thread goes on. */
  lemma PickIsBest(ts: seq<Thread>, cur: nat)
    requires cur < |ts|
    ensures forall b :: IsBest(ts, cur, b) ==> PickFrom(ts, cur) == if b == 0 && ts[cur].state == Running then cur else b
    ensures (forall j :: 0 <= j < |ts| ==> !Candidate(ts, cur, j)) ==> PickFrom(ts, cur) == if ts[cur].state == Running then cur else 0
    ensures (exists j :: 0 <= j < |ts| && Candidate(ts, cur, j)) ==> exists b :: IsBest(ts, cur, b)
  {
    ChooseLeast(ts, cur, 0, 0, 255);
    var r := Choose(ts, cur, 0, 0, 255);
    if j :| 0 <= j < |ts| && Candidate(ts, cur, j) {
      assert IsBest(ts, cur, r);
      forall b: nat | IsBest(ts, cur, b) ensures b == r {
        assert ts[b].priority == ts[r].priority;
      }
    }
  }

  /** The tail of block_current, sleep_current, terminate_current and sys_exit. */
  function Reschedule(k: Kernel, now: nat): Kernel {
    if k.current >= |k.threads| then k
    else
      var k1 := SweepKernel(k, now);
      var n := PickFrom(k1.threads, k1.current);
      if n < |k1.threads| then SwitchTo(k1, n) else k1
  }

  function Aged(t: Thread, i: nat): Thread {
    if i >= 1 && t.state == Ready && t.priority > 1 then t.(priority := t.priority - 1) else t
  }

  function AgeAll(ts: seq<Thread>): (r: seq<Thread>)
    ensures |r| == |ts| && forall i :: 0 <= i < |ts| ==> r[i] == Aged(ts[i], i)
  {
    seq(|ts|, i requires 0 <= i < |ts| => Aged(ts[i], i))
  }

  function SetThread(k: Kernel, i: nat, t: Thread): Kernel
    requires i < |k.threads|
  {
    k.(threads := k.threads[i := t])
  }

  function AgeStep(k: Kernel): Kernel {
    if k.aging + 1 >= AGING_INTERVAL then k.(aging := 0, threads := AgeAll(k.threads)) else k.(aging := k.aging + 1)
  }

  /** Charges the running thread; when its quantum is used up, or it cannot run, picks the next. */
  function Charge(k: Kernel, now: nat): Kernel
    requires k.current < |k.threads|
  {
    var t := k.threads[k.current];
    var q := if t.quantum == 0 then 0xFFFF_FFFF else t.quantum - 1;
    if t.state == Running && q > 0 then SetThread(k, k.current, t.(quantum := q))
    else Requeue(if t.state == Running then SetThread(k, k.current, t.(state := Ready, quantum := DEFAULT_QUANTUM)) else k, now)
  }

  function Requeue(k: Kernel, now: nat): Kernel
    requires k.current < |k.threads|
  {
    var k2 := SweepKernel(k, now);
    var n := PickFrom(k2.threads, k2.current);
    if n == k2.current && k2.threads[n].state == Ready
    then SetThread(k2, n, k2.threads[n].(state := Running, quantum := DEFAULT_QUANTUM))
    else if n < |k2.threads| then SwitchTo(k2, n)
    else k2
  }

  /** schedule: the timer tick, and yield. */
  function Tick(k: Kernel, now: nat): Kernel {
    if k.current >= |k.threads| then k else Charge(AgeStep(k), now)
  }

  function UnblockOne(ts: seq<Thread>, i: nat): (r: seq<Thread>)
    ensures |r| == |ts|
  {
    if i < |ts| && ts[i].state == Blocked then ts[i := ts[i].(state := Ready, channel := NOT_WAITING)] else ts
  }

  function UnblockAll(ts: seq<Thread>, tids: seq<nat>): (r: seq<Thread>)
    ensures |r| == |ts|
    decreases |tids|
  {
    if tids == [] then ts else UnblockAll(UnblockOne(ts, tids[0]), tids[1..])
  }

  // ---- System calls --------------------------------------------------------------------------------

  function Block(k: Kernel, channel: int, now: nat): Kernel
    requires k.current < |k.threads|
  {
    Reschedule(SetThread(k, k.current, k.threads[k.current].(state := Blocked, channel := channel)), now)
  }

  predicate CanReceive(k: Kernel, target: nat, size: nat) {
    && target < |k.threads| && size <= IPC_MAX_MSG_SIZE
    && k.threads[target].state != Unused && k.threads[target].state != Terminated
    && k.threads[target].mail.count < MAILBOX_SIZE
    && k.threads[target].mail.tail < |k.threads[target].mail.buf| && k.threads[target].mail.tail < MAILBOX_SIZE
  }

  /** sys_send_msg. */
  function Send(k: Kernel, target: nat, data: seq<nat>): Kernel {
    if !CanReceive(k, target, |data|) then k
    else
      var t := k.threads[target];
      var t1 := t.(mail := Put(t.mail, Message(k.current, data)));
      if t.waiting then k.(threads := UnblockOne(k.threads[target := t1.(waiting := false)], target))
      else SetThread(k, target, t1)
  }

  /** One round of the loop of sys_recv_msg. */
  function Receive(k: Kernel, now: nat): Kernel
    requires k.current < |k.threads|
  {
    var t := k.threads[k.current];
    if t.mail.count > 0 && t.mail.head < MAILBOX_SIZE then SetThread(k, k.current, t.(mail := Take(t.mail)))
    else Block(SetThread(k, k.current, t.(waiting := true)), NOT_WAITING, now)
  }

  /** The first child that is a zombie, 0 if there is none. */
  function ZombieChild(ts: seq<Thread>, p: nat, i: nat): nat
    decreases |ts| - i
  {
    if i >= |ts| then 0 else if ts[i].parent == p && ts[i].state == Zombie then i else ZombieChild(ts, p, i + 1)
  }

  /** Some slot, used or not, still names p as its parent: the test of sys_wait for children. */
  predicate Named(ts: seq<Thread>, p: nat) { exists i :: 1 <= i < |ts| && ts[i].parent == p }

  /** One round of the loop of sys_wait. */
  function Wait(k: Kernel, now: nat): Kernel
    requires k.current < |k.threads|
  {
    var z := ZombieChild(k.threads, k.current, 1);
    if 0 < z < |k.threads| then SetThread(k, z, k.threads[z].(state := Unused)).(count := k.count - 1)
    else if !Named(k.threads, k.current) then k
    else Block(k, WAIT_CHILD, now)
  }

  /** sys_exit: a zombie for a parent that exists, otherwise terminated. */
  function Exit(k: Kernel, code: int, now: nat): Kernel
    requires k.current < |k.threads|
  {
    var t := k.threads[k.current].(exitCode := code);
    if 0 <= t.parent < |k.threads| && k.threads[t.parent].state != Unused then
      var ts := k.threads[k.current := t.(state := Zombie)];
      var ts1 := if ts[t.parent].state == Blocked && ts[t.parent].channel == WAIT_CHILD then UnblockOne(ts, t.parent) else ts;
      Reschedule(k.(threads := ts1), now)
    else Reschedule(SetThread(k, k.current, t.(state := Terminated)), now)
  }

  /** thread_terminate. */
  function Kill(k: Kernel, i: nat, now: nat): Kernel {
    if i >= |k.threads| then k
    else
      var k1 := SetThread(k, i, k.threads[i].(state := Terminated));
      if i == k.current then Tick(k1, now) else k1
  }

  function Sleep(k: Kernel, until: nat, now: nat): Kernel
    requires k.current < |k.threads|
  {
    Reschedule(SetThread(k, k.current, k.threads[k.current].(state := Sleeping, sleepUntil := until)), now)
  }

  function FreeSlot(ts: seq<Thread>, i: nat): nat
    decreases |ts| - i
  {
    if i >= |ts| then 0 else if ts[i].state == Unused then i else FreeSlot(ts, i + 1)
  }

  function NewThread(t: Thread, priority: nat, parent: int): Thread {
    t.(state := Ready, priority := priority, sleepUntil := 0, channel := NOT_WAITING, quantum := DEFAULT_QUANTUM,
       mail := Mailbox(t.mail.buf, 0, 0, 0), waiting := false, parent := parent, exitCode := 0, enrolled := false)
  }

  /** thread_create (parent -1) and sys_fork (parent the caller). */
  function Spawn(k: Kernel, priority: nat, parent: int): Kernel {
    var i := FreeSlot(k.threads, 1);
    if 0 < i < |k.threads| then SetThread(k, i, NewThread(k.threads[i], priority, parent)).(count := k.count + 1) else k
  }

  /** sys_fork when the address space cannot be cloned: the slot is filled in, parent and all, and
      given back. */
  function FailedFork(k: Kernel): Kernel
    requires k.current < |k.threads|
  {
    var i := FreeSlot(k.threads, 1);
    if 0 < i < |k.threads|
    then SetThread(k, i, NewThread(k.threads[i], k.threads[k.current].priority, k.current).(state := Unused)) else k
  }

  // ---- Channels ------------------------------------------------------------------------------------

  function WakeWaiters(k: Kernel, c: nat): Kernel
    requires c < |k.channels|
  {
    k.(threads := UnblockAll(k.threads, k.channels[c].waiters), channels := k.channels[c := k.channels[c].(waiters := [])])
  }

  predicate RingIndices(r: Ring<nat>) { r.head < |r.buf| && r.head < RING_SIZE && r.tail < RING_SIZE }

  function PushEvent(k: Kernel, c: nat, x: nat): Kernel {
    if c >= |k.channels| || !k.channels[c].active || !RingIndices(k.channels[c].ring) then k
    else WakeWaiters(k.(channels := k.channels[c := k.channels[c].(ring := Push(k.channels[c].ring, x))]), c)
  }

  function PopEvent(k: Kernel, c: nat): Kernel {
    if c >= |k.channels| || !k.channels[c].active || !RingIndices(k.channels[c].ring) || k.channels[c].ring.head == k.channels[c].ring.tail then k
    else k.(channels := k.channels[c := k.channels[c].(ring := Pop(k.channels[c].ring))])
  }

  /** One round of the loop of EventSystem::wait: a thread that finds the waiter table full blocks
      without an entry. */
  function AwaitEvent(k: Kernel, c: nat, now: nat): Kernel
    requires k.current < |k.threads|
  {
    if c >= |k.channels| || !k.channels[c].active || !RingIndices(k.channels[c].ring) then k
    else if k.channels[c].ring.head != k.channels[c].ring.tail then PopEvent(k, c)
    else
      var room := |k.channels[c].waiters| < MAX_WAITERS;
      var k1 := SetThread(k, k.current, k.threads[k.current].(enrolled := room || k.current in k.channels[c].waiters));
      var k2 := if room then k1.(channels := k1.channels[c := k1.channels[c].(waiters := k1.channels[c].waiters + [k.current])]) else k1;
      Block(k2, c, now)
  }

  function DestroyChannel(k: Kernel, c: nat): Kernel {
    if c >= |k.channels| then k
    else var k1 := WakeWaiters(k, c); k1.(channels := k1.channels[c := k1.channels[c].(active := false)])
  }

  function FreeChannel(cs: seq<Channel>, i: nat): nat
    decreases |cs| - i
  {
    if i >= |cs| then |cs| else if !cs[i].active then i else FreeChannel(cs, i + 1)
  }

  function CreateChannel(k: Kernel): Kernel {
    var c := FreeChannel(k.channels, 16);
    if c < |k.channels| then k.(channels := k.channels[c := Channel(true, k.channels[c].ring.(head := 0, tail := 0), [])]) else k
  }
}
