/** Two waits of the thread machine that do not end: a ninth waiter of a channel, reached from boot,
    and a sys_wait whose only "children" are slots given back (kernel/src/event_channel.cpp,
    kernel/src/syscall_gate.cpp). */
module LostWaits {
  import opened Rings
  import opened Threads
  import opened Wakeups

  // ---- The ninth waiter ---------------------------------------------------------------------------

  /** EventSystem::init: the channel is active and empty. */
  ghost predicate FreshChannel(ch: Channel) { ch.active && ch.ring.head == ch.ring.tail && ch.waiters == [] }

  /** n threads of priority 1 are there beside the boot thread, which has run for 5 - q ticks. */
  ghost predicate Created(k: Kernel, n: nat, q: nat) {
    && |k.threads| == MAX_THREADS && |k.channels| == MAX_CHANNELS && n < MAX_THREADS && k.current == 0
    && k.threads[0].state == Running && k.threads[0].priority == 128 && k.threads[0].quantum == q
    && (forall i :: 1 <= i <= n ==> k.threads[i].state == Ready && k.threads[i].priority == 1)
    && (forall i :: n < i < MAX_THREADS ==> k.threads[i].state == Unused)
    && FreshChannel(k.channels[0]) && RingOk(k.channels[0].ring)
  }

  lemma {:induction false} FirstFree(ts: seq<Thread>, n: nat, i: nat)
    requires 1 <= i <= n + 1 < |ts| && (forall j :: 1 <= j <= n ==> ts[j].state != Unused) && ts[n + 1].state == Unused
    ensures FreeSlot(ts, i) == n + 1
    decreases n + 1 - i
  {
    if i <= n { FirstFree(ts, n, i + 1); }
  }

  lemma CreateOne(k: Kernel, n: nat)
    requires Created(k, n, 5) && n + 1 < MAX_THREADS
    ensures Created(Next(k, DoCreate(1)), n + 1, 5)
  {
    FirstFree(k.threads, n, 1);
  }

  lemma TickOnce(k: Kernel, n: nat, q: nat)
    requires Created(k, n, q) && q > 1
    ensures Created(Next(k, DoTick(0)), n, q - 1)
  {
    hide Requeue;
  }

  /** Threads 1 to j are blocked, those from j + 2 to n ready. */
  ghost predicate Lined(ts: seq<Thread>, n: nat, j: nat) {
    && |ts| == MAX_THREADS && j < n < MAX_THREADS && ts[0].state == Ready && ts[0].priority == 128
    && (forall i :: 1 <= i <= j ==> ts[i].state == Blocked)
    && (forall i :: j + 2 <= i <= n ==> ts[i].state == Ready && ts[i].priority == 1)
    && (forall i :: n < i < MAX_THREADS ==> ts[i].state == Unused)
  }

  ghost predicate Enrolled(cs: seq<Channel>, j: nat) {
    && |cs| == MAX_CHANNELS && cs[0].active && cs[0].ring.head == cs[0].ring.tail && RingOk(cs[0].ring)
    && cs[0].waiters == seq(j, i requires 0 <= i < j => i + 1)
  }

  /** Threads 1 to j wait on channel 0 and j + 1 runs. */
  ghost predicate Queued(k: Kernel, n: nat, j: nat) {
    Lined(k.threads, n, j) && k.current == j + 1 && k.threads[j + 1].state == Running && Enrolled(k.channels, j)
  }

  lemma LastTick(k: Kernel, n: nat)
    requires Created(k, n, 1) && n >= 1
    ensures Queued(Next(k, DoTick(0)), n, 0)
  {
    hide Released;
    var k1 := AgeStep(k);
    var k2 := SweepKernel(SetThread(k1, 0, k1.threads[0].(state := Ready, quantum := DEFAULT_QUANTUM)), 0);
    assert IsBest(k2.threads, 0, 1);
    PickIsBest(k2.threads, 0);
  }

  /** Thread j + 1 is entered in the table and gives up the CPU. */
  lemma AwaitEnters(k: Kernel, n: nat, j: nat) returns (k1: Kernel)
    requires Queued(k, n, j) && j + 1 < n && j < MAX_WAITERS
    ensures Lined(k1.threads, n, j) && k1.current == j + 1 && k1.threads[j + 1].state == Blocked && Enrolled(k1.channels, j + 1)
    ensures AwaitEvent(k, 0, 0) == Reschedule(k1, 0)
  {
    hide Reschedule;
    var t := k.threads[j + 1].(enrolled := true, state := Blocked, channel := 0);
    k1 := k.(threads := k.threads[j + 1 := t],
             channels := k.channels[0 := k.channels[0].(waiters := k.channels[0].waiters + [j + 1])]);
    assert k.threads[j + 1 := k.threads[j + 1].(enrolled := true)][j + 1 := t] == k1.threads;
  }

  /** The lowest ready thread of priority 1 runs next. */
  lemma NextUp(k: Kernel, n: nat, j: nat)
    requires Lined(k.threads, n, j) && j + 2 <= n && k.current == j + 1 && k.threads[j + 1].state == Blocked
    ensures Reschedule(k, 0) == SwitchTo(SweepKernel(k, 0), j + 2)
    ensures Swept(k.threads, j + 1, 0) == k.threads
  {
    hide Released;
    var k2 := SweepKernel(k, 0);
    assert k2.threads == k.threads;
    assert IsBest(k2.threads, j + 1, j + 2);
    PickIsBest(k2.threads, j + 1);
  }

  lemma AwaitOne(k: Kernel, n: nat, j: nat)
    requires Queued(k, n, j) && j + 1 < n && j < MAX_WAITERS
    ensures Queued(Next(k, DoAwait(0, 0)), n, j + 1)
  {
    hide Released, AwaitEvent, Reschedule;
    var k1 := AwaitEnters(k, n, j);
    NextUp(k1, n, j);
  }

  lemma Extend(ks: seq<Kernel>, steps: seq<Step>, step: Step)
    requires IsRun(ks, steps) && ks[|steps|].current < |ks[|steps|].threads| && Allowed(ks[|steps|], step)
    ensures IsRun(ks + [Next(ks[|steps|], step)], steps + [step])
  {
    hide Next, Allowed;
    var ks', steps' := ks + [Next(ks[|steps|], step)], steps + [step];
    forall i | 0 <= i < |steps'| ensures IsStep(ks'[i], steps'[i], ks'[i + 1]) {
      if i < |steps| { assert IsStep(ks[i], steps[i], ks[i + 1]); }
    }
  }

  /** From boot, nine threads that wait on a channel reach a full table and a ninth waiter without
      an entry: the next push leaves it asleep with an event in the ring. */
  lemma NinthWaiter(k: Kernel, x: nat) returns (ks: seq<Kernel>, steps: seq<Step>)
    requires Booted(k) && FreshChannel(k.channels[0])
    ensures IsRun(ks, steps) && ks[0] == k
    ensures var e := ks[|steps|];
            && |e.threads| == MAX_THREADS && |e.channels| == MAX_CHANNELS
            && e.threads[9].state == Blocked && e.threads[9].channel == 0
            && RingOk(e.channels[0].ring) && Events(e.channels[0].ring) == [x]
  {
    hide Next, Inv, Created, Queued, Booted, AwaitEvent, PushEvent;
    ks, steps := [k], [];
    BootCreated(k);
    for n := 0 to 9
      invariant IsRun(ks, steps) && ks[0] == k && Created(ks[|steps|], n, 5)
    {
      CreatedRuns(ks[|steps|], n, 5);
      Extend(ks, steps, DoCreate(1));
      CreateOne(ks[|steps|], n);
      ks, steps := ks + [Next(ks[|steps|], DoCreate(1))], steps + [DoCreate(1)];
    }
    for q := 5 downto 1
      invariant IsRun(ks, steps) && ks[0] == k && Created(ks[|steps|], 9, q)
    {
      CreatedRuns(ks[|steps|], 9, q + 1);
      Extend(ks, steps, DoTick(0));
      TickOnce(ks[|steps|], 9, q + 1);
      ks, steps := ks + [Next(ks[|steps|], DoTick(0))], steps + [DoTick(0)];
    }
    CreatedRuns(ks[|steps|], 9, 1);
    Extend(ks, steps, DoTick(0));
    LastTick(ks[|steps|], 9);
    ks, steps := ks + [Next(ks[|steps|], DoTick(0))], steps + [DoTick(0)];
    for j := 0 to 8
      invariant IsRun(ks, steps) && ks[0] == k && Queued(ks[|steps|], 9, j)
    {
      QueuedRuns(ks[|steps|], 9, j);
      Extend(ks, steps, DoAwait(0, 0));
      AwaitOne(ks[|steps|], 9, j);
      ks, steps := ks + [Next(ks[|steps|], DoAwait(0, 0))], steps + [DoAwait(0, 0)];
    }
    RunInv(ks, steps, |steps|);
    var full := ks[|steps|];
    Overflow(full, x);
    QueuedRuns(full, 9, 8);
    Extend(ks, steps, DoAwait(0, 0));
    ks, steps := ks + [Next(full, DoAwait(0, 0))], steps + [DoAwait(0, 0)];
    Extend(ks, steps, DoPush(0, x));
    ks, steps := ks + [Next(ks[|steps|], DoPush(0, x))], steps + [DoPush(0, x)];
  }

  lemma BootCreated(k: Kernel)
    requires Booted(k) && FreshChannel(k.channels[0])
    ensures Created(k, 0, 5)
  {
  }

  lemma CreatedRuns(k: Kernel, n: nat, q: nat)
    requires Created(k, n, q)
    ensures k.current < |k.threads|
  {
  }

  lemma QueuedRuns(k: Kernel, n: nat, j: nat)
    requires Queued(k, n, j)
    ensures 0 < k.current < |k.threads| && k.current == j + 1
  {
  }

  lemma Overflow(k: Kernel, x: nat)
    requires Inv(k) && Queued(k, 9, 8)
    ensures k.current < |k.threads|
    ensures var k1 := Next(k, DoAwait(0, 0));
            && k1.current < |k1.threads| && Allowed(k1, DoPush(0, x))
            && var e := Next(k1, DoPush(0, x));
            && |e.threads| == MAX_THREADS && |e.channels| == MAX_CHANNELS
            && e.threads[9].state == Blocked && e.threads[9].channel == 0
            && RingOk(e.channels[0].ring) && Events(e.channels[0].ring) == [x]
  {
    hide Core, Lined, AwaitEvent, PushEvent;
    CoreParts(k);
    assert 9 !in k.channels[0].waiters;
    PushWakesIff(k, 0, 0, x);
    AwaitInv(k, 0, 0);
    CoreParts(AwaitEvent(k, 0, 0));
  }

  // ---- A wait for nobody ----------------------------------------------------------------------------

  ghost predicate HasZombie(ts: seq<Thread>, p: nat) {
    exists j :: 1 <= j < |ts| && ts[j].parent == p && ts[j].state == Zombie
  }

  /** A slot that will never hold a zombie for its parent: given back, or killed and not yet swept. */
  predicate Gone(t: Thread) { t.state == Unused || t.state == Terminated }

  ghost predicate HasLiveChild(ts: seq<Thread>, p: nat) {
    exists j :: 0 <= j < |ts| && ts[j].parent == p && !Gone(ts[j])
  }

  /** A round of sys_wait reaps if a zombie names the caller, fails if no slot names it, used or not,
      and blocks in all other cases. */
  lemma WaitVerdict(k: Kernel, now: nat)
    requires Inv(k) && k.current != 0
    ensures HasZombie(k.threads, k.current) ==>
              Wait(k, now).current == k.current && Wait(k, now).count == k.count - 1
    ensures !Named(k.threads, k.current) <==> Wait(k, now) == k
    ensures Named(k.threads, k.current) && !HasZombie(k.threads, k.current) <==>
              |Wait(k, now).threads| == |k.threads| && Wait(k, now).threads[k.current].state == Blocked
    ensures Named(k.threads, k.current) && !HasZombie(k.threads, k.current) ==>
              Wait(k, now).threads[k.current] == k.threads[k.current].(state := Blocked, channel := WAIT_CHILD)
              && Wait(k, now) == Block(k, WAIT_CHILD, now) && Wait(k, now).channels == k.channels
  {
    ZombieChildIs(k.threads, k.current, 1);
    if Named(k.threads, k.current) && !HasZombie(k.threads, k.current) {
      var t := k.threads[k.current].(state := Blocked, channel := WAIT_CHILD);
      SetCore(k, k.current, t, k.count);
      BlockedStays(SetThread(k, k.current, t), now);
    }
  }

  /** Thread i waits for a child, every child of it is gone or killed, no message is promised to it
      and no channel lists it. */
  ghost predicate Stuck(k: Kernel, i: nat) {
    && 1 <= i < |k.threads| && k.threads[i].state == Blocked && k.threads[i].channel == WAIT_CHILD && !k.threads[i].waiting
    && !HasLiveChild(k.threads, i)
    && forall c :: 0 <= c < |k.channels| ==> i !in k.channels[c].waiters
  }

  lemma StuckSet(k: Kernel, i: nat, j: nat, t: Thread, count: int)
    requires Stuck(k, i) && j < |k.threads| && j != i && (!Gone(t) ==> t.parent != i)
    ensures Stuck(SetThread(k, j, t).(count := count), i)
  {
  }

  lemma StuckSweep(k: Kernel, i: nat, now: nat)
    requires Stuck(k, i)
    ensures Stuck(SweepKernel(k, now), i)
  {
    hide Released;
    var ts := SweepKernel(k, now).threads;
    forall j | 0 <= j < |ts| && !Gone(ts[j]) ensures ts[j].parent != i { assert !Gone(k.threads[j]); }
  }

  /** A live thread is not a child of i; an unused or killed one may still name it. */
  lemma Parentage(k: Kernel, i: nat, n: nat)
    requires Stuck(k, i) && n < |k.threads|
    ensures !Gone(k.threads[n]) ==> k.threads[n].parent != i
  {
  }

  lemma StuckSwitch(k: Kernel, i: nat)
    requires Stuck(k, i) && k.current < |k.threads| && k.current != i && BootOk(k.threads[0])
    ensures var n := PickFrom(k.threads, k.current);
            n < |k.threads| && n != i && (n == k.current || !Gone(k.threads[n])) && Stuck(SwitchTo(k, n), i)
  {
    hide Stuck;
    var n := PickFrom(k.threads, k.current);
    ChooseBound(k.threads, k.current, 0, 0, 255);
    StuckNow(k, i);
    Parentage(k, i, n);
    if n != k.current {
      var t := k.threads[n].(state := Running, quantum := DEFAULT_QUANTUM);
      StuckSet(k, i, n, t, k.count);
      StuckCurrent(SetThread(k, n, t), i, n);
    }
  }

  lemma StuckNow(k: Kernel, i: nat)
    requires Stuck(k, i)
    ensures 1 <= i < |k.threads| && k.threads[i].state == Blocked && k.threads[i].channel == WAIT_CHILD && !k.threads[i].waiting
  {
  }

  lemma StuckCurrent(k: Kernel, i: nat, n: nat)
    requires Stuck(k, i)
    ensures Stuck(k.(current := n), i)
  {
  }

  lemma StuckReschedule(k: Kernel, i: nat, now: nat)
    requires Stuck(k, i) && k.current < |k.threads| && k.current != i && k.threads[k.current].state != Unused
    requires BootOk(k.threads[0])
    ensures Stuck(Reschedule(k, now), i)
  {
    hide Stuck, PickFrom;
    StuckSweep(k, i, now);
    StuckSwitch(SweepKernel(k, now), i);
  }

  lemma StuckRequeue(k: Kernel, i: nat, now: nat)
    requires Stuck(k, i) && k.current < |k.threads| && k.current != i && k.threads[k.current].state != Unused
    requires BootOk(k.threads[0])
    ensures Stuck(Requeue(k, now), i)
  {
    hide Stuck, PickFrom;
    var k2 := SweepKernel(k, now);
    StuckSweep(k, i, now);
    StuckSwitch(k2, i);
    Parentage(k2, i, k2.current);
    var n := PickFrom(k2.threads, k2.current);
    if n == k2.current && k2.threads[n].state == Ready { StuckSet(k2, i, n, k2.threads[n].(state := Running, quantum := DEFAULT_QUANTUM), k2.count); }
  }

  lemma StuckAge(k: Kernel, i: nat)
    requires Stuck(k, i)
    ensures Stuck(AgeStep(k), i)
  {
    var ts := AgeStep(k).threads;
    forall j | 0 <= j < |ts| && !Gone(ts[j]) ensures ts[j].parent != i { assert !Gone(k.threads[j]); }
  }

  lemma StuckTick(k: Kernel, i: nat, now: nat)
    requires Stuck(k, i) && k.current < |k.threads| && k.current != i && k.threads[k.current].state != Unused
    requires k.current != 0 ==> BootOk(k.threads[0])
    requires k.current == 0 ==> k.threads[0].state == Running && k.threads[0].priority < 255
    ensures Stuck(Tick(k, now), i)
  {
    hide Stuck, Requeue;
    StuckAge(k, i);
    var k1 := AgeStep(k);
    Parentage(k1, i, k1.current);
    var t := k1.threads[k1.current];
    if t.state == Running {
      StuckSet(k1, i, k1.current, t.(quantum := if t.quantum == 0 then 0xFFFF_FFFF else t.quantum - 1), k1.count);
      var r := t.(state := Ready, quantum := DEFAULT_QUANTUM);
      StuckSet(k1, i, k1.current, r, k1.count);
      StuckRequeue(SetThread(k1, k1.current, r), i, now);
    } else {
      StuckRequeue(k1, i, now);
    }
  }

  lemma StuckUnblock(k: Kernel, i: nat, j: nat)
    requires Stuck(k, i) && j != i
    ensures Stuck(k.(threads := UnblockOne(k.threads, j)), i)
  {
    hide Stuck;
    if j < |k.threads| && k.threads[j].state == Blocked {
      Parentage(k, i, j);
      StuckSet(k, i, j, k.threads[j].(state := Ready, channel := NOT_WAITING), k.count);
    }
  }

  lemma {:induction false} StuckUnblockAll(k: Kernel, i: nat, tids: seq<nat>)
    requires Stuck(k, i) && i !in tids
    ensures Stuck(k.(threads := UnblockAll(k.threads, tids)), i)
    decreases |tids|
  {
    hide Stuck;
    if tids != [] {
      StuckUnblock(k, i, tids[0]);
      StuckUnblockAll(k.(threads := UnblockOne(k.threads, tids[0])), i, tids[1..]);
    }
  }

  lemma StuckChannel(k: Kernel, i: nat, c: nat, ch: Channel)
    requires Stuck(k, i) && c < |k.channels| && i !in ch.waiters
    ensures Stuck(k.(channels := k.channels[c := ch]), i)
  {
  }

  lemma Unlisted(k: Kernel, i: nat, c: nat)
    requires Stuck(k, i) && c < |k.channels|
    ensures i !in k.channels[c].waiters
  {
  }

  /** The current thread of a good state is not the stuck one and can be switched away from. */
  lemma StuckRuns(k: Kernel, i: nat)
    requires Inv(k) && Stuck(k, i)
    ensures k.current < |k.threads| && k.current != i && k.threads[k.current].state == Running && BootOk(k.threads[0])
    ensures k.threads[k.current].parent != i
  {
  }

  lemma StuckBlock(k: Kernel, i: nat, t: Thread, now: nat)
    requires Inv(k) && Stuck(k, i) && k.current != 0 && k.current < |k.threads| && t.state != Unused && t.parent == k.threads[k.current].parent
    ensures Stuck(Reschedule(SetThread(k, k.current, t), now), i)
  {
    StuckRuns(k, i);
    hide Inv, Stuck, Reschedule;
    StuckSet(k, i, k.current, t, k.count);
    StuckReschedule(SetThread(k, k.current, t), i, now);
  }

  lemma StuckSend(k: Kernel, i: nat, target: nat, data: seq<nat>)
    requires Inv(k) && Stuck(k, i)
    ensures Stuck(Send(k, target, data), i)
  {
    if CanReceive(k, target, |data|) {
      var t := k.threads[target];
      var t1 := t.(mail := Put(t.mail, Message(k.current, data)));
      if target == i {
        var k1 := SetThread(k, i, t1);
        assert HasLiveChild(k1.threads, i) ==> HasLiveChild(k.threads, i);
      } else {
        Parentage(k, i, target);
        StuckSet(k, i, target, t1, k.count);
        StuckSet(k, i, target, t1.(waiting := false), k.count);
        StuckUnblock(SetThread(k, target, t1.(waiting := false)), i, target);
      }
    }
  }

  lemma StuckExit(k: Kernel, i: nat, code: int, now: nat)
    requires Inv(k) && Stuck(k, i) && k.current != 0
    ensures Stuck(Exit(k, code, now), i)
  {
    StuckRuns(k, i);
    hide Inv, Stuck, Reschedule;
    var t := k.threads[k.current].(exitCode := code);
    if 0 <= t.parent < |k.threads| && k.threads[t.parent].state != Unused {
      var k1 := SetThread(k, k.current, t.(state := Zombie));
      StuckSet(k, i, k.current, t.(state := Zombie), k.count);
      StuckUnblock(k1, i, t.parent);
      StuckReschedule(k1, i, now);
      var k2 := k1.(threads := UnblockOne(k1.threads, t.parent));
      if k1.threads[t.parent].state == Blocked { StuckReschedule(k2, i, now); }
    } else {
      StuckSet(k, i, k.current, t.(state := Terminated), k.count);
      StuckReschedule(SetThread(k, k.current, t.(state := Terminated)), i, now);
    }
  }

  lemma StuckKill(k: Kernel, i: nat, tid: nat, now: nat)
    requires Inv(k) && Stuck(k, i) && tid != i && 1 <= tid < |k.threads| && k.threads[tid].state != Unused
    ensures Stuck(Kill(k, tid, now), i)
  {
    StuckRuns(k, i);
    hide Inv, Stuck, Tick;
    var t := k.threads[tid].(state := Terminated);
    Parentage(k, i, tid);
    StuckSet(k, i, tid, t, k.count);
    if tid == k.current { StuckTick(SetThread(k, tid, t), i, now); }
  }

  lemma StuckReceive(k: Kernel, i: nat, now: nat)
    requires Inv(k) && Stuck(k, i) && k.current != 0
    ensures Stuck(Receive(k, now), i)
  {
    StuckRuns(k, i);
    hide Inv, Stuck, Reschedule;
    var t := k.threads[k.current];
    var t1 := t.(waiting := true, state := Blocked, channel := NOT_WAITING);
    StuckBlock(k, i, t1, now);
    assert k.threads[k.current := t.(waiting := true)][k.current := t1] == k.threads[k.current := t1];
    if t.mail.count > 0 && t.mail.head < MAILBOX_SIZE { StuckSet(k, i, k.current, t.(mail := Take(t.mail)), k.count); }
  }

  lemma StuckWait(k: Kernel, i: nat, now: nat)
    requires Inv(k) && Stuck(k, i) && k.current != 0
    ensures Stuck(Wait(k, now), i)
  {
    StuckRuns(k, i);
    ZombieChildIs(k.threads, k.current, 1);
    hide Inv, Stuck, Reschedule;
    StuckNow(k, i);
    var z := ZombieChild(k.threads, k.current, 1);
    if 0 < z { StuckSet(k, i, z, k.threads[z].(state := Unused), k.count - 1); }
    StuckBlock(k, i, k.threads[k.current].(state := Blocked, channel := WAIT_CHILD), now);
  }

  /** A slot is filled for another parent, and perhaps given back. */
  lemma StuckSpawn(k: Kernel, i: nat, t: Thread, count: int)
    requires Stuck(k, i) && (!Gone(t) ==> t.parent != i)
    ensures var f := FreeSlot(k.threads, 1); 0 < f < |k.threads| ==> Stuck(SetThread(k, f, t).(count := count), i)
  {
    FreeSlotIs(k.threads, 1);
    StuckNow(k, i);
    var f := FreeSlot(k.threads, 1);
    if 0 < f < |k.threads| { StuckSet(k, i, f, t, count); }
  }

  lemma StuckAwait(k: Kernel, i: nat, c: nat, now: nat)
    requires Inv(k) && Stuck(k, i) && k.current != 0
    ensures Stuck(AwaitEvent(k, c, now), i)
  {
    StuckRuns(k, i);
    hide Inv, Stuck, Reschedule;
    if c < |k.channels| && k.channels[c].active && RingIndices(k.channels[c].ring) {
      Unlisted(k, i, c);
      var room := |k.channels[c].waiters| < MAX_WAITERS;
      var ch := if room then k.channels[c].(waiters := k.channels[c].waiters + [k.current]) else k.channels[c];
      var k1 := k.(channels := k.channels[c := ch]);
      var e := k.threads[k.current].(enrolled := room || k.current in k.channels[c].waiters);
      var t := e.(state := Blocked, channel := c);
      StuckChannel(k, i, c, ch);
      StuckSet(k1, i, k.current, t, k.count);
      StuckReschedule(SetThread(k1, k.current, t), i, now);
      assert k.threads[k.current := e][k.current := t] == k.threads[k.current := t];
      assert !room ==> k.channels[c := ch] == k.channels;
      if k.channels[c].ring.head != k.channels[c].ring.tail { StuckChannel(k, i, c, k.channels[c].(ring := Pop(k.channels[c].ring))); }
    }
  }

  lemma StuckWake(k: Kernel, i: nat, c: nat, ch: Channel)
    requires Stuck(k, i) && c < |k.channels| && i !in ch.waiters
    ensures Stuck(k.(threads := UnblockAll(k.threads, k.channels[c].waiters), channels := k.channels[c := ch]), i)
  {
    hide Stuck;
    Unlisted(k, i, c);
    StuckUnblockAll(k, i, k.channels[c].waiters);
    StuckChannel(k.(threads := UnblockAll(k.threads, k.channels[c].waiters)), i, c, ch);
  }

  lemma StuckEvents(k: Kernel, i: nat, c: nat, x: nat)
    requires Stuck(k, i)
    ensures Stuck(PushEvent(k, c, x), i) && Stuck(PopEvent(k, c), i) && Stuck(DestroyChannel(k, c), i) && Stuck(CreateChannel(k), i)
  {
    hide Stuck;
    if c < |k.channels| {
      Unlisted(k, i, c);
      StuckWake(k, i, c, k.channels[c].(waiters := [], active := false));
      assert k.channels[c := k.channels[c].(waiters := [])][c := k.channels[c].(waiters := [], active := false)]
          == k.channels[c := k.channels[c].(waiters := [], active := false)];
      if RingIndices(k.channels[c].ring) {
        var ch := k.channels[c].(ring := Push(k.channels[c].ring, x));
        StuckWake(k, i, c, ch.(waiters := []));
        assert k.channels[c := ch][c := ch.(waiters := [])] == k.channels[c := ch.(waiters := [])];
        if k.channels[c].ring.head != k.channels[c].ring.tail { StuckChannel(k, i, c, k.channels[c].(ring := Pop(k.channels[c].ring))); }
      }
    }
    var f := FreeChannel(k.channels, 16);
    if f < |k.channels| { StuckChannel(k, i, f, Channel(true, k.channels[f].ring.(head := 0, tail := 0), [])); }
  }

  lemma StuckStep(k: Kernel, i: nat, step: Step)
    requires Inv(k) && Stuck(k, i) && Allowed(k, step) && (step.DoKill? ==> step.tid != i)
    ensures Stuck(Next(k, step), i)
  {
    StuckRuns(k, i);
    FreeSlotIs(k.threads, 1);
    hide Inv, Stuck, Tick, Send, Receive, Wait, Exit, Kill, Reschedule, AwaitEvent, PushEvent, PopEvent, DestroyChannel, CreateChannel;
    match step
    case DoTick(now) => StuckTick(k, i, now);
    case DoSend(target, data) => StuckSend(k, i, target, data);
    case DoReceive(now) => StuckReceive(k, i, now);
    case DoWait(now) => StuckWait(k, i, now);
    case DoExit(code, now) => StuckExit(k, i, code, now);
    case DoKill(tid, now) => StuckKill(k, i, tid, now);
    case DoSleep(until, now) => StuckBlock(k, i, k.threads[k.current].(state := Sleeping, sleepUntil := until), now);
    case DoCreate(priority) => StuckSpawn(k, i, NewThread(k.threads[FreeSlot(k.threads, 1)], priority, -1), k.count + 1);
    case DoFork => StuckSpawn(k, i, NewThread(k.threads[FreeSlot(k.threads, 1)], k.threads[k.current].priority, k.current), k.count + 1);
    case DoFailedFork =>
      StuckSpawn(k, i, NewThread(k.threads[FreeSlot(k.threads, 1)], k.threads[k.current].priority, k.current).(state := Unused), k.count);
    case DoPush(c, x) => StuckEvents(k, i, c, x);
    case DoPop(c) => StuckEvents(k, i, c, 0);
    case DoAwait(c, now) => StuckAwait(k, i, c, now);
    case DoCreateChannel => StuckEvents(k, i, 0, 0);
    case DoDestroyChannel(c) => StuckEvents(k, i, c, 0);
  }

  /** A stuck thread stays blocked along every run in which it is not killed. */
  lemma {:induction false} StuckForEver(ks: seq<Kernel>, steps: seq<Step>, i: nat, n: nat)
    requires IsRun(ks, steps) && Inv(ks[0]) && Stuck(ks[0], i) && n < |ks|
    requires forall j :: 0 <= j < |steps| ==> !(steps[j].DoKill? && steps[j].tid == i)
    ensures Inv(ks[n]) && Stuck(ks[n], i)
    decreases n
  {
    hide Inv, Stuck, Next, Allowed;
    if n > 0 {
      var j := n - 1;
      StuckForEver(ks, steps, i, j);
      assert IsStep(ks[j], steps[j], ks[j + 1]);
      StepInv(ks[j], steps[j]);
      StuckStep(ks[j], i, steps[j]);
    }
  }

  /** The caller of sys_wait is neither promised a message nor listed by a channel. */
  ghost predicate Unpromised(k: Kernel) {
    k.current < |k.threads| && !k.threads[k.current].waiting && forall c :: 0 <= c < |k.channels| ==> k.current !in k.channels[c].waiters
  }

  /** A wait with no live child blocks for ever exactly if a slot, unused or killed, still names the
      caller. */
  lemma WaitForNobody(k: Kernel, now: nat)
    requires Inv(k) && k.current != 0 && Unpromised(k) && !HasLiveChild(k.threads, k.current)
    ensures Stuck(Wait(k, now), k.current) <==> Named(k.threads, k.current)
    ensures Inv(Wait(k, now))
  {
    WaitInv(k, now);
    WaitVerdict(k, now);
    if Named(k.threads, k.current) {
      var t := k.threads[k.current].(state := Blocked, channel := WAIT_CHILD);
      var k1 := SetThread(k, k.current, t);
      assert Stuck(k1, k.current) by {
        assert HasLiveChild(k1.threads, k.current) ==> HasLiveChild(k.threads, k.current);
      }
      StuckMoves(k, now);
    }
  }

  lemma StuckMoves(k: Kernel, now: nat)
    requires Inv(k) && k.current != 0 && k.current < |k.threads|
    requires Stuck(SetThread(k, k.current, k.threads[k.current].(state := Blocked, channel := WAIT_CHILD)), k.current)
    ensures Stuck(Block(k, WAIT_CHILD, now), k.current)
  {
    var t := k.threads[k.current].(state := Blocked, channel := WAIT_CHILD);
    var k1 := SetThread(k, k.current, t);
    StuckSweep(k1, k.current, now);
    var k2 := SweepKernel(k1, now);
    PicksOther(k2.threads, k2.current);
    var n := PickFrom(k2.threads, k2.current);
    Parentage(k2, k.current, n);
    StuckSet(k2, k.current, n, k2.threads[n].(state := Running, quantum := DEFAULT_QUANTUM), k2.count);
  }

  /** Once the last child is reaped its slot still names the parent: the next sys_wait does not fail
      but blocks for ever. */
  lemma SecondWait(k: Kernel, now: nat, now': nat)
    requires Inv(k) && k.current != 0 && Unpromised(k) && HasZombie(k.threads, k.current)
    requires forall i, j :: 0 <= i < j < |k.threads| ==>
               !(k.threads[i].parent == k.current && !Gone(k.threads[i]) && k.threads[j].parent == k.current && !Gone(k.threads[j]))
    ensures var k1 := Wait(k, now); k1.current == k.current && Inv(k1) && Inv(Wait(k1, now')) && Stuck(Wait(k1, now'), k.current)
  {
    WaitInv(k, now);
    ZombieChildIs(k.threads, k.current, 1);
    var z := ZombieChild(k.threads, k.current, 1);
    var k1 := Wait(k, now);
    assert k1.threads[z].parent == k.current;
    assert k.threads[k.current].state == Running;
    forall j | 0 <= j < |k1.threads| && !Gone(k1.threads[j]) ensures k1.threads[j].parent != k.current {
      assert j != z && k1.threads[j] == k.threads[j];
    }
    WaitForNobody(k1, now');
  }

  /** So does the first sys_wait after a fork that failed for want of memory. */
  lemma WaitAfterFailedFork(k: Kernel, now: nat)
    requires Inv(k) && k.current != 0 && Unpromised(k) && !HasLiveChild(k.threads, k.current)
    requires exists j :: 1 <= j < |k.threads| && k.threads[j].state == Unused
    ensures var k1 := FailedFork(k); Inv(k1) && Inv(Wait(k1, now)) && Stuck(Wait(k1, now), k.current)
  {
    FailedForkInv(k);
    FreeSlotIs(k.threads, 1);
    var j :| 1 <= j < |k.threads| && k.threads[j].state == Unused;
    FreeSlotFound(k.threads, 1, j);
    var k1, f := FailedFork(k), FreeSlot(k.threads, 1);
    assert k1.threads[f].parent == k.current;
    assert f != k.current;
    forall j | 0 <= j < |k1.threads| && !Gone(k1.threads[j]) ensures k1.threads[j].parent != k.current {
      assert j != f && k1.threads[j] == k.threads[j];
    }
    WaitForNobody(k1, now);
  }

  lemma {:induction false} FreeSlotFound(ts: seq<Thread>, i: nat, j: nat)
    requires 1 <= i <= j < |ts| && ts[j].state == Unused
    ensures FreeSlot(ts, i) != 0
    decreases |ts| - i
  {
    if i < j { FreeSlotFound(ts, i + 1, j); }
  }

  // ---- A child that is killed -----------------------------------------------------------------------

  /** Thread p waits for a child; c is the only live one; nothing else can wake p. */
  ghost predicate WaitsForOnly(k: Kernel, p: nat, c: nat) {
    && 1 <= p < |k.threads| && k.threads[p].state == Blocked && k.threads[p].channel == WAIT_CHILD && !k.threads[p].waiting
    && 1 <= c < |k.threads| && c != p && !Gone(k.threads[c])
    && (forall j :: 0 <= j < |k.threads| && j != c && k.threads[j].parent == p ==> Gone(k.threads[j]))
    && forall ch :: 0 <= ch < |k.channels| ==> p !in k.channels[ch].waiters
  }

  /** thread_terminate tells nobody: when the only live child is killed, by another thread or by
      itself, its waiting parent is stuck. */
  lemma KilledChild(k: Kernel, p: nat, c: nat, now: nat)
    requires Inv(k) && WaitsForOnly(k, p, c)
    ensures Inv(Next(k, DoKill(c, now))) && Stuck(Next(k, DoKill(c, now)), p)
  {
    KillInv(k, c, now);
    KilledStuck(k, p, c);
    RunningNow(k);
    hide Inv, Stuck, Tick;
    var k1 := SetThread(k, c, k.threads[c].(state := Terminated));
    if c == k.current { StuckTick(k1, p, now); }
  }

  lemma KilledStuck(k: Kernel, p: nat, c: nat)
    requires WaitsForOnly(k, p, c)
    ensures Stuck(SetThread(k, c, k.threads[c].(state := Terminated)), p)
  {
  }

  lemma RunningNow(k: Kernel)
    requires Inv(k)
    ensures k.current < |k.threads| && k.threads[k.current].state == Running && BootOk(k.threads[0])
  {
  }

  /** An exit of that child, on the other hand, wakes the parent. */
  lemma ChildExitWakes(k: Kernel, p: nat, code: int, now: nat)
    requires Inv(k) && k.current != 0 && k.current < |k.threads| && k.threads[k.current].parent == p
    requires p < |k.threads| && k.threads[p].state == Blocked && k.threads[p].channel == WAIT_CHILD
    ensures var k' := Next(k, DoExit(code, now));
            && p < |k'.threads| && (k'.threads[p].state == Ready || k'.threads[p].state == Running)
            && HasZombie(k'.threads, p)
  {
    hide NoLostWakeup, UsedCount, Released;
    var c, z := k.current, k.threads[k.current].(exitCode := code, state := Zombie);
    var k1 := k.(threads := UnblockOne(k.threads[c := z], p));
    assert k1.threads[p].state == Ready && k1.threads[c].state == Zombie;
    assert Next(k, DoExit(code, now)) == Reschedule(k1, now);
    var k2 := SweepKernel(k1, now);
    assert k2.threads[p].state == Ready && k2.threads[c] == z;
    ChooseBound(k2.threads, k2.current, 0, 0, 255);
    assert Reschedule(k1, now).threads[c].parent == p;
  }

  /** The whole story: once the only live child is killed the parent stays blocked along every run in
      which it is not killed itself. */
  lemma KilledChildRuns(k: Kernel, p: nat, c: nat, now: nat, ks: seq<Kernel>, steps: seq<Step>, n: nat)
    requires Inv(k) && WaitsForOnly(k, p, c) && IsRun(ks, steps) && ks[0] == Next(k, DoKill(c, now)) && n < |ks|
    requires forall j :: 0 <= j < |steps| ==> !(steps[j].DoKill? && steps[j].tid == p)
    ensures p < |ks[n].threads| && ks[n].threads[p].state == Blocked && ks[n].threads[p].channel == WAIT_CHILD
  {
    hide Inv, Next, Stuck, IsRun, WaitsForOnly;
    KilledChild(k, p, c, now);
    StuckForEver(ks, steps, p, n);
    StuckNow(ks[n], p);
  }

  /** Nobody is listed, promised a message or a child of thread 1, besides the slots from 2 on. */
  ghost predicate Quiet(k: Kernel) {
    && |k.threads| == MAX_THREADS && |k.channels| == MAX_CHANNELS && !k.threads[1].waiting
    && k.threads[0].parent != 1 && k.threads[1].parent != 1
    && forall ch :: 0 <= ch < |k.channels| ==> k.channels[ch].waiters == []
  }

  /** Thread 1 runs and there is no other beside the boot thread. */
  ghost predicate Solo(k: Kernel) { Quiet(k) && Queued(k, 1, 0) }

  lemma CreateQuiet(k: Kernel)
    requires Created(k, 0, 5) && k.threads[0].parent != 1 && forall ch :: 0 <= ch < |k.channels| ==> k.channels[ch].waiters == []
    ensures Created(Next(k, DoCreate(1)), 1, 5) && Quiet(Next(k, DoCreate(1)))
  {
    CreateOne(k, 0);
    FirstFree(k.threads, 0, 1);
  }

  lemma TickQuiet(k: Kernel, q: nat)
    requires Created(k, 1, q) && Quiet(k) && q >= 1
    ensures Quiet(Next(k, DoTick(0)))
  {
    var k1 := AgeStep(k);
    var k2 := SweepKernel(SetThread(k1, 0, k1.threads[0].(state := Ready, quantum := DEFAULT_QUANTUM)), 0);
    ChooseBound(k2.threads, 0, 0, 0, 255);
  }

  /** Thread 1 runs and thread 2 is its one child. */
  ghost predicate WithChild(k: Kernel) {
    && Quiet(k) && k.current == 1 && k.threads[2].parent == 1 && k.threads[2].state == Ready
    && (forall j :: 0 <= j < MAX_THREADS ==> k.threads[j].state in {Ready, Running, Unused})
    && forall j :: 3 <= j < MAX_THREADS ==> k.threads[j].state == Unused
  }

  lemma ForkStage(k: Kernel)
    requires Inv(k) && Solo(k)
    ensures Inv(Next(k, DoFork)) && WithChild(Next(k, DoFork))
  {
    SpawnInv(k, k.threads[1].priority, 1);
    FirstFree(k.threads, 1, 1);
    hide Inv;
    var k1 := Next(k, DoFork);
    assert forall j :: 0 <= j < MAX_THREADS && j != 2 ==> k1.threads[j] == k.threads[j];
  }

  /** The parent waits: for thread 2 only. */
  lemma WaitStage(k: Kernel)
    requires Inv(k) && WithChild(k)
    ensures var k2 := Next(k, DoWait(0)); Inv(k2) && k2.current < |k2.threads| && WaitsForOnly(k2, 1, 2)
  {
    WaitInv(k, 0);
    NobodyEnded(k);
    WaitVerdict(k, 0);
    RunningNow(Next(k, DoWait(0)));
    hide Inv, Released;
    var t := k.threads[1].(state := Blocked, channel := WAIT_CHILD);
    var k3 := SweepKernel(SetThread(k, 1, t), 0);
    ChooseBound(k3.threads, 1, 0, 0, 255);
    assert Next(k, DoWait(0)) == SwitchTo(k3, PickFrom(k3.threads, 1));
  }

  lemma NobodyEnded(k: Kernel)
    requires |k.threads| == MAX_THREADS && k.threads[2].parent == 1 && forall j :: 0 <= j < MAX_THREADS ==> k.threads[j].state in {Ready, Running, Unused}
    ensures Named(k.threads, 1) && !HasZombie(k.threads, 1)
  {
  }

  /** A run from boot to a parent that sleeps for ever: create, run, fork, wait, and the child is
      killed. */
  lemma KilledFromBoot(k: Kernel) returns (ks: seq<Kernel>, steps: seq<Step>)
    requires Booted(k) && FreshChannel(k.channels[0]) && k.threads[0].parent != 1
    requires forall ch :: 0 <= ch < |k.channels| ==> k.channels[ch].waiters == []
    ensures IsRun(ks, steps) && ks[0] == k && Inv(ks[|steps|]) && Stuck(ks[|steps|], 1)
  {
    hide Next, Inv, Created, Queued, Booted, Stuck, Quiet, WaitsForOnly, Allowed;
    BootCreated(k);
    CreatedRuns(k, 0, 5);
    CreateQuiet(k);
    EasyStep(k);
    ks, steps := [k], [];
    Extend(ks, steps, DoCreate(1));
    ks, steps := ks + [Next(k, DoCreate(1))], steps + [DoCreate(1)];
    for q := 5 downto 1
      invariant IsRun(ks, steps) && ks[0] == k && Created(ks[|steps|], 1, q) && Quiet(ks[|steps|])
    {
      CreatedRuns(ks[|steps|], 1, q + 1);
      EasyStep(ks[|steps|]);
      Extend(ks, steps, DoTick(0));
      TickOnce(ks[|steps|], 1, q + 1);
      TickQuiet(ks[|steps|], q + 1);
      ks, steps := ks + [Next(ks[|steps|], DoTick(0))], steps + [DoTick(0)];
    }
    CreatedRuns(ks[|steps|], 1, 1);
    EasyStep(ks[|steps|]);
    Extend(ks, steps, DoTick(0));
    LastTick(ks[|steps|], 1);
    TickQuiet(ks[|steps|], 1);
    ks, steps := ks + [Next(ks[|steps|], DoTick(0))], steps + [DoTick(0)];
    RunInv(ks, steps, |steps|);
    QueuedRuns(ks[|steps|], 1, 0);
    ForkStage(ks[|steps|]);
    EasyStep(ks[|steps|]);
    Extend(ks, steps, DoFork);
    ks, steps := ks + [Next(ks[|steps|], DoFork)], steps + [DoFork];
    WaitStage(ks[|steps|]);
    RunningNow(ks[|steps|]);
    EasyStep(ks[|steps|]);
    Extend(ks, steps, DoWait(0));
    ks, steps := ks + [Next(ks[|steps|], DoWait(0))], steps + [DoWait(0)];
    KilledChild(ks[|steps|], 1, 2, 0);
    MayKill(ks[|steps|], 1, 2);
    Extend(ks, steps, DoKill(2, 0));
    ks, steps := ks + [Next(ks[|steps|], DoKill(2, 0))], steps + [DoKill(2, 0)];
  }

  lemma EasyStep(k: Kernel)
    ensures Allowed(k, DoCreate(1)) && Allowed(k, DoTick(0)) && Allowed(k, DoFork)
    ensures k.current != 0 ==> Allowed(k, DoWait(0))
  {
  }

  lemma MayKill(k: Kernel, p: nat, c: nat)
    requires WaitsForOnly(k, p, c)
    ensures Allowed(k, DoKill(c, 0))
  {
  }
}
