/** No lost wakeups over all runs of the thread machine. */
module Wakeups {
  import opened Rings
  import opened Threads

  // ---- The invariant ----------------------------------------------------------------------------

  /** What a blocked thread waits for has not happened. */
  ghost predicate StillWaits(ts: seq<Thread>, cs: seq<Channel>, i: nat)
    requires i < |ts|
  {
    var t := ts[i];
    t.state == Blocked ==>
      && WAIT_CHILD <= t.channel < |cs|
      && (t.channel == NOT_WAITING ==> t.mail.count == 0 && t.waiting)
      && (t.channel == WAIT_CHILD ==> forall c :: 1 <= c < |ts| && ts[c].state == Zombie ==> ts[c].parent != i)
      && (0 <= t.channel && t.enrolled ==>
            cs[t.channel].active && cs[t.channel].ring.head == cs[t.channel].ring.tail && i in cs[t.channel].waiters)
  }

  ghost predicate NoLostWakeup(ts: seq<Thread>, cs: seq<Channel>) {
    forall i :: 0 <= i < |ts| ==> StillWaits(ts, cs, i)
  }

  ghost predicate BootOk(t: Thread) { (t.state == Ready || t.state == Running) && t.priority < 255 }

  ghost predicate Shapes(k: Kernel) {
    && |k.threads| == MAX_THREADS && |k.channels| == MAX_CHANNELS && k.current < MAX_THREADS
    && BootOk(k.threads[0])
    && (forall i :: 0 <= i < |k.threads| ==> MailboxOk(k.threads[i].mail))
    && (forall c :: 0 <= c < |k.channels| ==> RingOk(k.channels[c].ring))
  }

  /** All but the claim that some thread runs: it holds between a block and the task switch. */
  ghost predicate Core(k: Kernel) {
    Shapes(k) && NoLostWakeup(k.threads, k.channels) && k.count == UsedCount(k.threads)
  }

  ghost predicate OnlyRunning(ts: seq<Thread>, cur: nat) {
    forall i :: 0 <= i < |ts| ==> (ts[i].state == Running <==> i == cur)
  }

  ghost predicate NoneRunning(ts: seq<Thread>) { forall i :: 0 <= i < |ts| ==> ts[i].state != Running }

  /** Exactly one thread is running, and it is current. */
  ghost predicate Inv(k: Kernel) { Core(k) && OnlyRunning(k.threads, k.current) && k.threads[k.current].quantum > 0 }

  // ---- Changing one thread ------------------------------------------------------------------------

  /** A new value for thread i breaks no wait: it waits rightly itself, and if it is a zombie its
      parent does not wait for a child. */
  ghost predicate Harmless(k: Kernel, i: nat, t: Thread)
    requires i < |k.threads|
  {
    && MailboxOk(t.mail) && (i == 0 ==> BootOk(t))
    && StillWaits(k.threads[i := t], k.channels, i)
    && (t.state == Zombie ==> forall p :: 0 <= p < |k.threads| && p != i && t.parent == p ==>
          !(k.threads[p].state == Blocked && k.threads[p].channel == WAIT_CHILD))
  }

  lemma SetCore(k: Kernel, i: nat, t: Thread, count: int)
    requires Core(k) && i < |k.threads| && Harmless(k, i, t)
    requires count == k.count - One(k.threads[i].state != Unused) + One(t.state != Unused)
    ensures Core(SetThread(k, i, t).(count := count))
  {
    var ts := k.threads[i := t];
    UsedUpdate(k.threads, i, t);
    forall j | 0 <= j < |ts| ensures StillWaits(ts, k.channels, j) {
      assert StillWaits(k.threads, k.channels, j);
    }
  }

  // ---- The sweep ----------------------------------------------------------------------------------

  lemma {:induction false} SweptCount(ts: seq<Thread>, cur: nat, now: nat)
    ensures UsedCount(Swept(ts, cur, now)) == UsedCount(ts) - Released(ts, cur)
    decreases |ts|
  {
    if ts != [] {
      var n := |ts| - 1;
      SweptCount(ts[..n], cur, now);
      assert Swept(ts, cur, now)[..n] == Swept(ts[..n], cur, now);
    }
  }

  lemma SweepCore(k: Kernel, now: nat)
    requires Core(k)
    ensures Core(SweepKernel(k, now))
  {
    var ts := Swept(k.threads, k.current, now);
    SweptCount(k.threads, k.current, now);
    forall j | 0 <= j < |ts| ensures StillWaits(ts, k.channels, j) {
      assert StillWaits(k.threads, k.channels, j);
    }
  }

  lemma SweepRunning(ts: seq<Thread>, cur: nat, now: nat)
    ensures var r := Swept(ts, cur, now);
            forall i :: 0 <= i < |ts| ==> (r[i].state == Running <==> ts[i].state == Running)
  {
  }

  /** Another thread is chosen when the current one cannot run. */
  lemma PicksOther(ts: seq<Thread>, cur: nat)
    requires |ts| == MAX_THREADS && 0 < cur < |ts| && ts[0].state == Ready && ts[0].priority < 255 && ts[cur].state != Running
    ensures var n := PickFrom(ts, cur); n < |ts| && n != cur && ts[n].state == Ready
  {
    ChooseBound(ts, cur, 1, 0, ts[0].priority);
  }

  lemma SwitchInv(k: Kernel, n: nat)
    requires Core(k) && NoneRunning(k.threads) && n < |k.threads| && n != k.current && k.threads[n].state == Ready
    ensures Inv(SwitchTo(k, n))
  {
    var t := k.threads[n].(state := Running, quantum := DEFAULT_QUANTUM);
    SetCore(k, n, t, k.count);
  }

  /** After a block, sleep, exit or kill of the current thread exactly one other thread runs. */
  lemma RescheduleInv(k: Kernel, now: nat)
    requires Core(k) && NoneRunning(k.threads) && k.current != 0
    ensures Inv(Reschedule(k, now))
  {
    hide Core, Inv;
    CoreParts(k);
    var k1 := SweepKernel(k, now);
    SweepCore(k, now);
    CoreParts(k1);
    SweepRunning(k.threads, k.current, now);
    PicksOther(k1.threads, k1.current);
    SwitchInv(k1, PickFrom(k1.threads, k1.current));
  }

  lemma CoreParts(k: Kernel)
    requires Core(k)
    ensures |k.threads| == MAX_THREADS && |k.channels| == MAX_CHANNELS && k.current < MAX_THREADS && BootOk(k.threads[0])
  {
  }

  // ---- Ticks ---------------------------------------------------------------------------------------

  lemma {:induction false} AgedCount(ts: seq<Thread>)
    ensures UsedCount(AgeAll(ts)) == UsedCount(ts)
    decreases |ts|
  {
    if ts != [] {
      var n := |ts| - 1;
      AgedCount(ts[..n]);
      assert AgeAll(ts)[..n] == AgeAll(ts[..n]);
    }
  }

  lemma AgeCore(k: Kernel)
    requires Core(k)
    ensures Core(k.(threads := AgeAll(k.threads)))
  {
    var ts := AgeAll(k.threads);
    AgedCount(k.threads);
    forall j | 0 <= j < |ts| ensures StillWaits(ts, k.channels, j) {
      assert StillWaits(k.threads, k.channels, j);
    }
  }

  lemma RequeueInv(k: Kernel, now: nat)
    requires Core(k) && NoneRunning(k.threads)
    ensures Inv(Requeue(k, now))
  {
    hide Core, Inv;
    CoreParts(k);
    var k2 := SweepKernel(k, now);
    SweepCore(k, now);
    CoreParts(k2);
    SweepRunning(k.threads, k.current, now);
    var n := PickFrom(k2.threads, k2.current);
    ChooseBound(k2.threads, k2.current, 0, 0, 255);
    if k2.current != 0 {
      PicksOther(k2.threads, k2.current);
      SwitchInv(k2, n);
    } else if n == 0 {
      StaysInv(k2);
    } else {
      SwitchInv(k2, n);
    }
  }

  lemma StaysInv(k: Kernel)
    requires Core(k) && NoneRunning(k.threads) && k.current == 0
    ensures Inv(SetThread(k, 0, k.threads[0].(state := Running, quantum := DEFAULT_QUANTUM)))
  {
    SetCore(k, 0, k.threads[0].(state := Running, quantum := DEFAULT_QUANTUM), k.count);
  }

  lemma ChargeInv(k: Kernel, now: nat)
    requires Core(k) && (Inv(k) || NoneRunning(k.threads))
    ensures Inv(Charge(k, now))
  {
    hide NoLostWakeup, Requeue;
    var t := k.threads[k.current];
    if t.state != Running {
      RequeueInv(k, now);
    } else if t.quantum > 1 {
      ChargedCore(k, t.(quantum := t.quantum - 1));
    } else {
      ChargedCore(k, t.(state := Ready, quantum := DEFAULT_QUANTUM));
      RequeueInv(SetThread(k, k.current, t.(state := Ready, quantum := DEFAULT_QUANTUM)), now);
    }
  }

  lemma ChargedCore(k: Kernel, t: Thread)
    requires Core(k) && k.threads[k.current].state == Running && (t.state == Running || t.state == Ready)
    requires t.mail == k.threads[k.current].mail && t.priority == k.threads[k.current].priority
    ensures Core(SetThread(k, k.current, t))
  {
    SetCore(k, k.current, t, k.count);
  }

  lemma TickInv(k: Kernel, now: nat)
    requires Core(k) && (Inv(k) || NoneRunning(k.threads))
    ensures Inv(Tick(k, now))
  {
    AgeCore(k);
    hide NoLostWakeup;
    ChargeInv(AgeStep(k), now);
  }

  // ---- Blocking ------------------------------------------------------------------------------------

  /** The current thread may block when what it will wait for has not happened. */
  lemma BlockInv(k: Kernel, t: Thread, now: nat)
    requires Inv(k) && k.current != 0 && t.state != Running && t.state != Unused && Harmless(k, k.current, t)
    ensures Inv(Reschedule(SetThread(k, k.current, t), now))
  {
    SetCore(k, k.current, t, k.count);
    hide Core, Harmless;
    RescheduleInv(SetThread(k, k.current, t), now);
  }

  lemma ReceiveInv(k: Kernel, now: nat)
    requires Inv(k) && k.current != 0
    ensures Inv(Receive(k, now))
  {
    var t := k.threads[k.current];
    if t.mail.count > 0 {
      TakeDequeues(t.mail);
      SetCore(k, k.current, t.(mail := Take(t.mail)), k.count);
    } else {
      var t1 := t.(waiting := true, state := Blocked, channel := NOT_WAITING);
      BlockInv(k, t1, now);
      assert SetThread(SetThread(k, k.current, t.(waiting := true)), k.current, t1) == SetThread(k, k.current, t1);
    }
  }

  lemma {:induction false} ZombieChildIs(ts: seq<Thread>, p: nat, i: nat)
    requires i >= 1
    ensures var z := ZombieChild(ts, p, i);
            && (z == 0 ==> forall c :: i <= c < |ts| && ts[c].state == Zombie ==> ts[c].parent != p)
            && (z != 0 ==> i <= z < |ts| && ts[z].parent == p && ts[z].state == Zombie)
    decreases |ts| - i
  {
    if i < |ts| { ZombieChildIs(ts, p, i + 1); }
  }

  lemma WaitInv(k: Kernel, now: nat)
    requires Inv(k) && k.current != 0
    ensures Inv(Wait(k, now))
  {
    var z := ZombieChild(k.threads, k.current, 1);
    ZombieChildIs(k.threads, k.current, 1);
    if z != 0 {
      SetCore(k, z, k.threads[z].(state := Unused), k.count - 1);
    } else if Named(k.threads, k.current) {
      BlockInv(k, k.threads[k.current].(state := Blocked, channel := WAIT_CHILD), now);
    }
  }

  lemma SleepInv(k: Kernel, until: nat, now: nat)
    requires Inv(k) && k.current != 0
    ensures Inv(Sleep(k, until, now))
  {
    BlockInv(k, k.threads[k.current].(state := Sleeping, sleepUntil := until), now);
  }

  // ---- Waking --------------------------------------------------------------------------------------

  lemma UnblockCore(k: Kernel, i: nat)
    requires Core(k)
    ensures Core(k.(threads := UnblockOne(k.threads, i)))
  {
    if i < |k.threads| && k.threads[i].state == Blocked {
      SetCore(k, i, k.threads[i].(state := Ready, channel := NOT_WAITING), k.count);
    }
  }

  /** Every thread of the table is awake afterwards; the others are as they were. */
  lemma {:induction false} UnblockAllIs(ts: seq<Thread>, tids: seq<nat>)
    ensures var r := UnblockAll(ts, tids);
            forall i :: 0 <= i < |ts| ==> r[i] == if i in tids && ts[i].state == Blocked then ts[i].(state := Ready, channel := NOT_WAITING) else ts[i]
    decreases |tids|
  {
    if tids != [] {
      UnblockAllIs(UnblockOne(ts, tids[0]), tids[1..]);
      assert tids == [tids[0]] + tids[1..];
    }
  }

  lemma {:induction false} UnblockAllCore(k: Kernel, tids: seq<nat>)
    requires Core(k)
    ensures Core(k.(threads := UnblockAll(k.threads, tids)))
    decreases |tids|
  {
    if tids != [] {
      UnblockCore(k, tids[0]);
      UnblockAllCore(k.(threads := UnblockOne(k.threads, tids[0])), tids[1..]);
    }
  }

  /** The parent of a zombie does not wait for a child. */
  lemma ZombieUnwaited(k: Kernel, i: nat)
    requires Core(k) && i < |k.threads|
    ensures k.threads[i].state == Zombie ==> forall p :: 0 <= p < |k.threads| && k.threads[i].parent == p ==>
              !(k.threads[p].state == Blocked && k.threads[p].channel == WAIT_CHILD)
  {
    var p := k.threads[i].parent;
    if 0 <= p < |k.threads| { assert StillWaits(k.threads, k.channels, p); }
  }

  lemma SendInv(k: Kernel, target: nat, data: seq<nat>)
    requires Inv(k)
    ensures Inv(Send(k, target, data))
  {
    if CanReceive(k, target, |data|) {
      var t := k.threads[target];
      PutQueues(t.mail, Message(k.current, data));
      var t1 := t.(mail := Put(t.mail, Message(k.current, data)));
      var t2 := if !t.waiting then t1
                else if t.state == Blocked then t1.(waiting := false, state := Ready, channel := NOT_WAITING)
                else t1.(waiting := false);
      assert StillWaits(k.threads, k.channels, target);
      ZombieUnwaited(k, target);
      SetCore(k, target, t2, k.count);
      assert k.threads[target := t1.(waiting := false)][target := t2] == k.threads[target := t2];
    }
  }

  lemma ExitInv(k: Kernel, code: int, now: nat)
    requires Inv(k) && k.current != 0
    ensures Inv(Exit(k, code, now))
  {
    var t := k.threads[k.current].(exitCode := code);
    if 0 <= t.parent < |k.threads| && k.threads[t.parent].state != Unused {
      var z := t.(state := Zombie);
      var ts := k.threads[k.current := z];
      if ts[t.parent].state == Blocked && ts[t.parent].channel == WAIT_CHILD {
        var p := k.threads[t.parent].(state := Ready, channel := NOT_WAITING);
        var k1 := SetThread(k, t.parent, p);
        SetCore(k, t.parent, p, k.count);
        BlockInv(k1, z, now);
        assert ts[t.parent := p] == k1.threads[k.current := z];
      } else {
        BlockInv(k, z, now);
      }
    } else {
      BlockInv(k, t.(state := Terminated), now);
    }
  }

  /** Killing a live thread other than the boot thread keeps the invariant; killing the boot thread
      or an unused slot, which the kernel does not refuse, breaks it. */
  lemma KillInv(k: Kernel, i: nat, now: nat)
    requires Inv(k)
    ensures Inv(Kill(k, i, now)) <==> i >= |k.threads| || (1 <= i && k.threads[i].state != Unused)
  {
    if i < |k.threads| {
      if 1 <= i && k.threads[i].state != Unused {
        KillLive(k, i, now);
      } else if i == 0 {
        KillBoot(k, now);
      } else {
        UsedUpdate(k.threads, i, k.threads[i].(state := Terminated));
      }
    }
  }

  lemma KillLive(k: Kernel, i: nat, now: nat)
    requires Inv(k) && 1 <= i < |k.threads| && k.threads[i].state != Unused
    ensures Inv(Kill(k, i, now))
  {
    SetCore(k, i, k.threads[i].(state := Terminated), k.count);
    var k1 := SetThread(k, i, k.threads[i].(state := Terminated));
    if i == k.current {
      hide NoLostWakeup, Tick;
      TickInv(k1, now);
    }
  }

  lemma KillBoot(k: Kernel, now: nat)
    requires Inv(k)
    ensures !Inv(Kill(k, 0, now))
  {
    hide NoLostWakeup, UsedCount, Released;
    var k1 := SetThread(k, 0, k.threads[0].(state := Terminated));
    if k.current == 0 {
      var k2 := SweepKernel(AgeStep(k1), now);
      ChooseBound(k2.threads, 0, 0, 0, 255);
      assert k2.threads[0].state == Terminated;
      assert Tick(k1, now).threads[0].state == Terminated;
    }
  }

  lemma {:induction false} FreeSlotIs(ts: seq<Thread>, i: nat)
    requires i >= 1
    ensures var f := FreeSlot(ts, i); f != 0 ==> i <= f < |ts| && ts[f].state == Unused
    decreases |ts| - i
  {
    if i < |ts| { FreeSlotIs(ts, i + 1); }
  }

  lemma SpawnInv(k: Kernel, priority: nat, parent: int)
    requires Inv(k)
    ensures Inv(Spawn(k, priority, parent))
  {
    var f := FreeSlot(k.threads, 1);
    FreeSlotIs(k.threads, 1);
    if f != 0 { SetCore(k, f, NewThread(k.threads[f], priority, parent), k.count + 1); }
  }

  lemma FailedForkInv(k: Kernel)
    requires Inv(k)
    ensures Inv(FailedFork(k))
  {
    var f := FreeSlot(k.threads, 1);
    FreeSlotIs(k.threads, 1);
    if f != 0 { SetCore(k, f, NewThread(k.threads[f], k.threads[k.current].priority, k.current).(state := Unused), k.count); }
  }

  // ---- Channels ------------------------------------------------------------------------------------

  /** No thread with an entry is blocked on channel c. */
  ghost predicate Unwatched(ts: seq<Thread>, c: nat) {
    forall i :: 0 <= i < |ts| ==> !(ts[i].state == Blocked && ts[i].channel == c && ts[i].enrolled)
  }

  /** A channel that is not active, or holds an event, has nobody with an entry blocked on it. */
  lemma NobodyWatches(k: Kernel, c: nat)
    requires Core(k) && c < |k.channels|
    requires !k.channels[c].active || k.channels[c].ring.head != k.channels[c].ring.tail
    ensures Unwatched(k.threads, c)
  {
    var ts := k.threads;
    forall i | 0 <= i < |ts| ensures !(ts[i].state == Blocked && ts[i].channel == c && ts[i].enrolled) {
      assert StillWaits(k.threads, k.channels, i);
    }
  }

  lemma ChannelCore(k: Kernel, c: nat, ch: Channel)
    requires Core(k) && c < |k.channels| && RingOk(ch.ring)
    requires Unwatched(k.threads, c) || (ch.active == k.channels[c].active && ch.ring == k.channels[c].ring
                                         && forall i :: i in k.channels[c].waiters ==> i in ch.waiters)
    ensures Core(k.(channels := k.channels[c := ch]))
  {
    var cs := k.channels[c := ch];
    forall j | 0 <= j < |k.threads| ensures StillWaits(k.threads, cs, j) {
      assert StillWaits(k.threads, k.channels, j);
    }
  }

  /** Waking all waiters leaves nobody with an entry blocked on the channel. */
  lemma AfterWake(k: Kernel, c: nat)
    requires Core(k) && c < |k.channels|
    ensures Unwatched(UnblockAll(k.threads, k.channels[c].waiters), c)
    ensures Core(k.(threads := UnblockAll(k.threads, k.channels[c].waiters)))
    ensures forall i :: 0 <= i < |k.threads| ==>
              (UnblockAll(k.threads, k.channels[c].waiters)[i].state == Running <==> k.threads[i].state == Running)
    ensures forall i :: 0 <= i < |k.threads| ==> UnblockAll(k.threads, k.channels[c].waiters)[i].quantum == k.threads[i].quantum
  {
    UnblockAllCore(k, k.channels[c].waiters);
    UnblockAllIs(k.threads, k.channels[c].waiters);
    var ts := UnblockAll(k.threads, k.channels[c].waiters);
    forall i | 0 <= i < |ts| ensures !(ts[i].state == Blocked && ts[i].channel == c && ts[i].enrolled) {
      assert StillWaits(k.threads, k.channels, i);
    }
  }

  lemma WokenInv(k: Kernel, c: nat, ch: Channel)
    requires Inv(k) && c < |k.channels| && RingOk(ch.ring)
    ensures Inv(k.(threads := UnblockAll(k.threads, k.channels[c].waiters), channels := k.channels[c := ch]))
  {
    AfterWake(k, c);
    hide Core;
    CoreParts(k);
    ChannelCore(k.(threads := UnblockAll(k.threads, k.channels[c].waiters)), c, ch);
  }

  lemma PushInv(k: Kernel, c: nat, x: nat)
    requires Inv(k)
    ensures Inv(PushEvent(k, c, x))
  {
    if c < |k.channels| && k.channels[c].active {
      PushKeepsNewest(k.channels[c].ring, x);
      var ch := k.channels[c].(ring := Push(k.channels[c].ring, x), waiters := []);
      WokenInv(k, c, ch);
      assert k.channels[c := k.channels[c].(ring := ch.ring)][c := ch] == k.channels[c := ch];
    }
  }

  lemma DestroyInv(k: Kernel, c: nat)
    requires Inv(k)
    ensures Inv(DestroyChannel(k, c))
  {
    if c < |k.channels| {
      var ch := k.channels[c].(waiters := [], active := false);
      WokenInv(k, c, ch);
      assert k.channels[c := k.channels[c].(waiters := [])][c := ch] == k.channels[c := ch];
    }
  }

  lemma PopInv(k: Kernel, c: nat)
    requires Inv(k)
    ensures Inv(PopEvent(k, c))
  {
    if c < |k.channels| && k.channels[c].active && k.channels[c].ring.head != k.channels[c].ring.tail {
      PopDequeues(k.channels[c].ring);
      NobodyWatches(k, c);
      ChannelCore(k, c, k.channels[c].(ring := Pop(k.channels[c].ring)));
    }
  }

  lemma AwaitInv(k: Kernel, c: nat, now: nat)
    requires Inv(k) && k.current != 0
    ensures Inv(AwaitEvent(k, c, now))
  {
    if c < |k.channels| && k.channels[c].active {
      if k.channels[c].ring.head != k.channels[c].ring.tail {
        PopInv(k, c);
      } else {
        var room := |k.channels[c].waiters| < MAX_WAITERS;
        var ch := if room then k.channels[c].(waiters := k.channels[c].waiters + [k.current]) else k.channels[c];
        ChannelCore(k, c, ch);
        var k1 := k.(channels := k.channels[c := ch]);
        var listed := room || k.current in k.channels[c].waiters;
        var t := k.threads[k.current].(enrolled := listed, state := Blocked, channel := c);
        BlockInv(k1, t, now);
        assert k.threads[k.current := k.threads[k.current].(enrolled := listed)][k.current := t] == k.threads[k.current := t];
        assert !room ==> k.channels[c := ch] == k.channels;
      }
    }
  }

  lemma {:induction false} FreeChannelIs(cs: seq<Channel>, i: nat)
    ensures var c := FreeChannel(cs, i); c < |cs| ==> !cs[c].active
    decreases |cs| - i
  {
    if i < |cs| { FreeChannelIs(cs, i + 1); }
  }

  lemma CreateInv(k: Kernel)
    requires Inv(k)
    ensures Inv(CreateChannel(k))
  {
    var c := FreeChannel(k.channels, 16);
    FreeChannelIs(k.channels, 16);
    if c < |k.channels| {
      NobodyWatches(k, c);
      ChannelCore(k, c, Channel(true, k.channels[c].ring.(head := 0, tail := 0), []));
    }
  }

  // ---- Runs ----------------------------------------------------------------------------------------

  datatype Step =
    | DoTick(now: nat)
    | DoSend(target: nat, data: seq<nat>)
    | DoReceive(now: nat)
    | DoWait(now: nat)
    | DoExit(code: int, now: nat)
    | DoKill(tid: nat, now: nat)
    | DoSleep(until: nat, now: nat)
    | DoCreate(priority: nat)
    | DoFork
    | DoFailedFork
    | DoPush(channel: nat, event: nat)
    | DoPop(channel: nat)
    | DoAwait(channel: nat, now: nat)
    | DoCreateChannel
    | DoDestroyChannel(channel: nat)

  /** The boot thread, which only halts, makes no call that blocks or exits; only live threads other
      than it are killed. */
  ghost predicate Allowed(k: Kernel, step: Step) {
    match step
    case DoReceive(_) => k.current != 0
    case DoWait(_) => k.current != 0
    case DoExit(_, _) => k.current != 0
    case DoSleep(_, _) => k.current != 0
    case DoAwait(_, _) => k.current != 0
    case DoKill(tid, _) => 1 <= tid < |k.threads| && k.threads[tid].state != Unused
    case _ => true
  }

  function Next(k: Kernel, step: Step): Kernel
    requires k.current < |k.threads|
  {
    match step
    case DoTick(now) => Tick(k, now)
    case DoSend(target, data) => Send(k, target, data)
    case DoReceive(now) => Receive(k, now)
    case DoWait(now) => Wait(k, now)
    case DoExit(code, now) => Exit(k, code, now)
    case DoKill(tid, now) => Kill(k, tid, now)
    case DoSleep(until, now) => Sleep(k, until, now)
    case DoCreate(priority) => Spawn(k, priority, -1)
    case DoFork => Spawn(k, k.threads[k.current].priority, k.current)
    case DoFailedFork => FailedFork(k)
    case DoPush(c, x) => PushEvent(k, c, x)
    case DoPop(c) => PopEvent(k, c)
    case DoAwait(c, now) => AwaitEvent(k, c, now)
    case DoCreateChannel => CreateChannel(k)
    case DoDestroyChannel(c) => DestroyChannel(k, c)
  }

  lemma StepInv(k: Kernel, step: Step)
    requires Inv(k) && Allowed(k, step)
    ensures Inv(Next(k, step))
  {
    match step
    case DoTick(now) => TickInv(k, now);
    case DoSend(target, data) => SendInv(k, target, data);
    case DoReceive(now) => ReceiveInv(k, now);
    case DoWait(now) => WaitInv(k, now);
    case DoExit(code, now) => ExitInv(k, code, now);
    case DoKill(tid, now) => KillInv(k, tid, now);
    case DoSleep(until, now) => SleepInv(k, until, now);
    case DoCreate(priority) => SpawnInv(k, priority, -1);
    case DoFork => SpawnInv(k, k.threads[k.current].priority, k.current);
    case DoFailedFork => FailedForkInv(k);
    case DoPush(c, x) => PushInv(k, c, x);
    case DoPop(c) => PopInv(k, c);
    case DoAwait(c, now) => AwaitInv(k, c, now);
    case DoCreateChannel => CreateInv(k);
    case DoDestroyChannel(c) => DestroyInv(k, c);
  }

  /** ks is a run of the machine: each state follows from the one before by an allowed step. */
  ghost predicate IsRun(ks: seq<Kernel>, steps: seq<Step>) {
    && |ks| == |steps| + 1
    && forall i :: 0 <= i < |steps| ==> IsStep(ks[i], steps[i], ks[i + 1])
  }

  ghost predicate IsStep(k: Kernel, step: Step, k': Kernel) {
    k.current < |k.threads| && Allowed(k, step) && k' == Next(k, step)
  }

  /** thread_init and EventSystem::init: the boot thread runs, all other slots are unused. */
  ghost predicate Booted(k: Kernel) {
    && |k.threads| == MAX_THREADS && |k.channels| == MAX_CHANNELS && k.current == 0 && k.count == 1
    && k.threads[0].state == Running && k.threads[0].priority == 128 && k.threads[0].quantum == DEFAULT_QUANTUM
    && (forall i :: 1 <= i < |k.threads| ==> k.threads[i].state == Unused)
    && (forall i :: 0 <= i < |k.threads| ==> MailboxOk(k.threads[i].mail))
    && (forall c :: 0 <= c < |k.channels| ==> RingOk(k.channels[c].ring))
  }

  lemma {:induction false} AllUnused(ts: seq<Thread>)
    requires forall i :: 0 <= i < |ts| ==> ts[i].state == Unused
    ensures UsedCount(ts) == 0
    decreases |ts|
  {
    if ts != [] { AllUnused(ts[..|ts| - 1]); }
  }

  lemma BootInv(k: Kernel)
    requires Booted(k)
    ensures Inv(k)
  {
    var ts := k.threads[0 := k.threads[0].(state := Unused)];
    AllUnused(ts);
    UsedUpdate(ts, 0, k.threads[0]);
    assert ts[0 := k.threads[0]] == k.threads;
  }

  lemma StepKeeps(k: Kernel, step: Step, k': Kernel)
    requires Inv(k) && IsStep(k, step, k')
    ensures Inv(k')
  {
    hide Inv, Next;
    StepInv(k, step);
  }

  lemma {:induction false} RunInv(ks: seq<Kernel>, steps: seq<Step>, n: nat)
    requires IsRun(ks, steps) && Booted(ks[0]) && n < |ks|
    ensures Inv(ks[n])
    decreases n
  {
    hide Inv, Booted, IsStep;
    if n == 0 {
      BootInv(ks[0]);
    } else {
      RunInv(ks, steps, n - 1);
      var i := n - 1;
      assert IsStep(ks[i], steps[i], ks[i + 1]);
      StepKeeps(ks[i], steps[i], ks[i + 1]);
    }
  }

  /** In every state of every run from boot: a thread blocked in recv has an empty mailbox; a parent
      blocked in wait has no zombie child; a thread blocked on a channel whose waiter table had room
      faces an active channel with an empty ring; exactly one thread runs, the current one; and
      thread_count is the number of used slots. */
  lemma NoLostWakeups(ks: seq<Kernel>, steps: seq<Step>, n: nat, i: nat)
    requires IsRun(ks, steps) && Booted(ks[0]) && n < |ks| && i < MAX_THREADS
    ensures var k := ks[n];
            && |k.threads| == MAX_THREADS && |k.channels| == MAX_CHANNELS && MailboxOk(k.threads[i].mail)
            && var t := k.threads[i];
            && (t.state == Blocked && t.channel == NOT_WAITING ==> Queue(t.mail) == [])
            && (t.state == Blocked && t.channel == WAIT_CHILD ==>
                  forall c :: 1 <= c < MAX_THREADS && k.threads[c].state == Zombie ==> k.threads[c].parent != i)
            && (t.state == Blocked && t.channel >= 0 && t.enrolled ==>
                  t.channel < MAX_CHANNELS && k.channels[t.channel].active && RingOk(k.channels[t.channel].ring)
                  && Events(k.channels[t.channel].ring) == [])
            && (t.state == Running <==> i == k.current)
            && k.count == UsedCount(k.threads)
  {
    RunInv(ks, steps, n);
    var k := ks[n];
    assert StillWaits(k.threads, k.channels, i);
    var t := k.threads[i];
    if t.state == Blocked && t.channel >= 0 { EmptyRing(k.channels[t.channel].ring); }
  }

  lemma BlockedStays(k: Kernel, now: nat)
    requires Core(k) && NoneRunning(k.threads) && k.current != 0 && k.threads[k.current].state == Blocked
    ensures var k1 := Reschedule(k, now);
            |k1.threads| == |k.threads| && k1.threads[k.current] == k.threads[k.current] && k1.channels == k.channels
  {
    var k1 := SweepKernel(k, now);
    SweepCore(k, now);
    SweepRunning(k.threads, k.current, now);
    PicksOther(k1.threads, k1.current);
  }

  /** What a wait on an empty ring leaves: the caller blocked, and listed if it was or if there was
      room. */
  lemma AwaitBlocks(k: Kernel, c: nat, now: nat)
    requires Inv(k) && k.current != 0 && c < |k.channels| && k.channels[c].active
    requires k.channels[c].ring.head == k.channels[c].ring.tail
    ensures var k1 := AwaitEvent(k, c, now);
            && |k1.threads| == |k.threads| && |k1.channels| == |k.channels| && k1.channels[c].active
            && k1.threads[k.current].state == Blocked && k1.threads[k.current].channel == c
            && k1.channels[c].ring == k.channels[c].ring
            && (k.current in k1.channels[c].waiters <==> |k.channels[c].waiters| < MAX_WAITERS || k.current in k.channels[c].waiters)
  {
    var room := |k.channels[c].waiters| < MAX_WAITERS;
    var ch := if room then k.channels[c].(waiters := k.channels[c].waiters + [k.current]) else k.channels[c];
    var listed := room || k.current in k.channels[c].waiters;
    ChannelCore(k, c, ch);
    var kc := k.(channels := k.channels[c := ch]);
    var t := k.threads[k.current].(enrolled := listed, state := Blocked, channel := c);
    SetCore(kc, k.current, t, k.count);
    var kb := SetThread(kc, k.current, t);
    assert k.threads[k.current := k.threads[k.current].(enrolled := listed)][k.current := t] == kb.threads;
    assert !room ==> k.channels[c := ch] == k.channels;
    BlockedStays(kb, now);
    assert AwaitEvent(k, c, now) == Reschedule(kb, now);
  }

  /** After a wait on an empty ring the next push wakes the thread if and only if the waiter table
      had room or listed it already. Otherwise it sleeps on while the event it waits for lies in
      the ring. */
  lemma PushWakesIff(k: Kernel, c: nat, now: nat, x: nat)
    requires Inv(k) && k.current != 0 && c < |k.channels| && k.channels[c].active
    requires k.channels[c].ring.head == k.channels[c].ring.tail
    ensures var k2 := PushEvent(AwaitEvent(k, c, now), c, x);
            && k.current < |k2.threads| && c < |k2.channels| && RingOk(k2.channels[c].ring)
            && Events(k2.channels[c].ring) == [x]
            && k2.threads[k.current].state ==
               (if |k.channels[c].waiters| < MAX_WAITERS || k.current in k.channels[c].waiters then Ready else Blocked)
            && (k2.threads[k.current].state == Blocked ==> k2.threads[k.current].channel == c)
            && |k2.threads| == |k.threads| && |k2.channels| == |k.channels|
  {
    AwaitBlocks(k, c, now);
    hide AwaitEvent, NoLostWakeup, UsedCount;
    var k1 := AwaitEvent(k, c, now);
    EmptyRing(k1.channels[c].ring);
    PushKeepsNewest(k1.channels[c].ring, x);
    UnblockAllIs(k1.threads, k1.channels[c].waiters);
  }
}
