/** The thread table, the task scheduler, the mailboxes and the event channels as mutable state.
    Each method computes the step of the same name in Threads and keeps the invariant of Wakeups. */
module ThreadKernel {
  import opened Collections
  import opened Rings
  import opened Threads
  import opened Wakeups
  import opened LostWaits
  import opened ThreadLaws

  class Machine {
    const threads: array<Thread>
    const channels: array<Channel>
    var current: nat
    var count: int
    var aging: nat

    ghost function K(): Kernel
      reads this, threads, channels
    {
      Kernel(threads[..], current, count, channels[..], aging)
    }

    ghost predicate Valid()
      reads this, threads, channels
    {
      Inv(K())
    }

    /** thread_init and EventSystem::init over zeroed memory: the boot thread runs, the other slots are
        unused, and the first sixteen channels are active; nobody waits. */
    constructor ()
      ensures Valid() && Booted(K()) && fresh(threads) && fresh(channels)
      ensures forall c :: 0 <= c < channels.Length ==> channels[c].waiters == [] && (c < 16 ==> FreshChannel(channels[c]))
      ensures forall i :: 0 <= i < threads.Length ==> threads[i].parent == 0 && !threads[i].waiting
    {
      var idle := Thread(Unused, 255, 0, NOT_WAITING, DEFAULT_QUANTUM, Mailbox(seq(MAILBOX_SIZE, _ => Message(0, [])), 0, 0, 0), false, 0, 0, false);
      var ts := new Thread[MAX_THREADS](_ => idle);
      ts[0] := idle.(state := Running, priority := 128);
      var cs := new Channel[MAX_CHANNELS](i => Channel(i < 16, Ring(seq(RING_SIZE, _ => 0), 0, 0), []));
      threads, channels := ts, cs;
      current, count, aging := 0, 1, 0;
      new;
      hide UsedCount, Inv;
      BootInv(K());
    }

    // ---- The task scheduler -----------------------------------------------------------------------

    /** The first loop of pick_next_thread. */
    method SweepThreads(now: nat)
      requires current < threads.Length
      modifies this`count, threads
      ensures K() == SweepKernel(old(K()), now)
    {
      ghost var was := threads[..];
      var i := 0;
      while i < threads.Length
        invariant 0 <= i <= threads.Length && channels[..] == old(channels[..])
        invariant forall j :: 0 <= j < threads.Length ==> threads[j] == if j < i then Sweep(was[j], j == current, now) else was[j]
        invariant count == old(count) - Released(was[..i], current)
      {
        assert was[..i + 1][..i] == was[..i];
        if threads[i].state == Terminated && i != current {
          threads[i] := threads[i].(state := Unused);
          count := count - 1;
        } else if threads[i].state == Sleeping && now >= threads[i].sleepUntil {
          threads[i] := threads[i].(state := Ready, channel := NOT_WAITING);
        }
        i := i + 1;
      }
      assert was[..i] == was;
      assert threads[..] == Swept(was, current, now);
    }

    /** pick_next_thread: slots of killed threads are given back and sleepers whose time has come are
        ready; the choice is the ready thread with the least priority number, the first of several. If
        there is none, or it is thread 0, a running thread goes on. */
    method PickNextThread(now: nat) returns (n: nat)
      requires current < threads.Length
      modifies this`count, threads
      ensures K() == SweepKernel(old(K()), now) && n == PickFrom(threads[..], current)
      ensures forall i :: 0 <= i < threads.Length ==> Settled(old(threads[..])[i], threads[i], i == current, now)
      ensures forall i :: 0 <= i < threads.Length ==>
                (threads[i].state == Sleeping <==> old(threads[..])[i].state == Sleeping && now < old(threads[..])[i].sleepUntil)
      ensures forall b :: IsBest(threads[..], current, b) ==> n == if b == 0 && threads[current].state == Running then current else b
      ensures (forall j :: 0 <= j < threads.Length ==> !Candidate(threads[..], current, j)) ==>
                n == if threads[current].state == Running then current else 0
    {
      SweepThreads(now);
      var best, bestPriority, i := 0, 255, 0;
      while i < threads.Length
        invariant 0 <= i <= threads.Length && K() == SweepKernel(old(K()), now)
        invariant Choose(threads[..], current, 0, 0, 255) == Choose(threads[..], current, i, best, bestPriority)
      {
        if i != current && threads[i].state == Ready && threads[i].priority < bestPriority {
          bestPriority, best := threads[i].priority, i;
        }
        i := i + 1;
      }
      n := if best == 0 && threads[current].state == Running then current else best;
      PickIsBest(threads[..], current);
    }

    /** Picks the next thread and switches to it. */
    method SwitchAway(now: nat)
      requires Core(K())
      modifies this`count, this`current, threads
      ensures K() == Reschedule(old(K()), now)
    {
      var n := PickNextThread(now);
      ChooseBound(threads[..], current, 0, 0, 255);
      if n != current {
        threads[n] := threads[n].(state := Running, quantum := DEFAULT_QUANTUM);
        current := n;
      }
    }

    method BoostReady()
      modifies threads
      ensures threads[..] == AgeAll(old(threads[..]))
    {
      var i := 1;
      while i < threads.Length
        invariant 1 <= i && (threads.Length > 0 ==> i <= threads.Length)
        invariant forall j :: 0 <= j < threads.Length ==> threads[j] == if j < i then Aged(old(threads[j]), j) else old(threads[j])
      {
        if threads[i].state == Ready && threads[i].priority > 1 { threads[i] := threads[i].(priority := threads[i].priority - 1); }
        i := i + 1;
      }
    }

    /** schedule, from the timer or from a thread that gives up the CPU. */
    method Schedule(now: nat)
      requires current < threads.Length
      modifies this`count, this`current, this`aging, threads
      ensures K() == Tick(old(K()), now)
      ensures old(Core(K()) && (Inv(K()) || NoneRunning(threads[..]))) ==> Valid()
      ensures old(Valid()) ==> Ticked(old(K()), now, K())
      ensures old(Valid()) && old(threads[current].quantum) == 1 ==> Foremost(threads[..], old(current), current)
    {
      hide Inv, Core, NoneRunning, Ticked, Foremost, AgeStep, Charge;
      TickLaws(K(), now);
      AgeThreads();
      ChargeCurrent(now);
    }

    method AgeThreads()
      requires current < threads.Length
      modifies this`aging, threads
      ensures K() == AgeStep(old(K())) && threads.Length == |old(threads[..])|
    {
      aging := aging + 1;
      if aging >= AGING_INTERVAL {
        aging := 0;
        BoostReady();
      }
    }

    method ChargeCurrent(now: nat)
      requires current < threads.Length
      modifies this`count, this`current, threads
      ensures K() == Charge(old(K()), now)
    {
      hide Requeue;
      var t := threads[current];
      if t.state == Running {
        var q := if t.quantum == 0 then 0xFFFF_FFFF else t.quantum - 1;
        if q > 0 {
          threads[current] := t.(quantum := q);
          return;
        }
        threads[current] := t.(state := Ready, quantum := DEFAULT_QUANTUM);
      }
      PickAgain(now);
    }

    method PickAgain(now: nat)
      requires current < threads.Length
      modifies this`count, this`current, threads
      ensures K() == Requeue(old(K()), now)
    {
      var n := PickNextThread(now);
      ChooseBound(threads[..], current, 0, 0, 255);
      if n == current {
        if threads[n].state == Ready { threads[n] := threads[n].(state := Running, quantum := DEFAULT_QUANTUM); }
      } else {
        threads[n] := threads[n].(state := Running, quantum := DEFAULT_QUANTUM);
        current := n;
      }
    }

    method Unblock(i: nat)
      modifies threads
      ensures threads[..] == UnblockOne(old(threads[..]), i)
    {
      if i < threads.Length && threads[i].state == Blocked {
        threads[i] := threads[i].(state := Ready, channel := NOT_WAITING);
      }
    }

    // ---- Mailboxes --------------------------------------------------------------------------------

    /** sys_send_msg: refused exactly when the target is gone, its mailbox is full or the message too
        long; otherwise the message is last in the target's queue and a waiting target wakes. */
    method SendMsg(target: nat, data: seq<nat>) returns (ok: bool)
      requires Valid()
      modifies threads
      ensures K() == Send(old(K()), target, data) && Valid()
      ensures ok <==> target < threads.Length && |data| <= IPC_MAX_MSG_SIZE
                      && old(threads[..])[target].state != Unused && old(threads[..])[target].state != Terminated
                      && |old(Queue(threads[target].mail))| < MAILBOX_SIZE
      ensures ok ==> MailboxOk(threads[target].mail) && Queue(threads[target].mail) == old(Queue(threads[target].mail)) + [Message(current, data)]
      ensures ok ==> forall i :: 0 <= i < threads.Length && i != target ==> threads[i] == old(threads[..])[i]
      ensures ok ==> var t := old(threads[..])[target];
                     threads[target] == (if t.waiting && t.state == Blocked then t.(state := Ready, channel := NOT_WAITING) else t)
                                        .(waiting := false, mail := threads[target].mail)
      ensures !ok ==> threads[..] == old(threads[..])
    {
      SendInv(K(), target, data);
      if target >= threads.Length || |data| > IPC_MAX_MSG_SIZE { return false; }
      var t := threads[target];
      assert MailboxOk(t.mail);
      if t.state == Unused || t.state == Terminated || t.mail.count >= MAILBOX_SIZE { return false; }
      PutQueues(t.mail, Message(current, data));
      var t1 := t.(mail := Put(t.mail, Message(current, data)));
      if t.waiting {
        threads[target] := t1.(waiting := false);
        Unblock(target);
      } else {
        threads[target] := t1;
      }
      return true;
    }

    /** One round of sys_recv_msg: the oldest message, or the thread blocks. */
    method RecvRound(now: nat) returns (m: Option<Message>)
      requires Valid() && current != 0
      modifies this`count, this`current, threads
      ensures K() == Receive(old(K()), now) && Valid()
      ensures m.Some? <==> old(Queue(threads[current].mail)) != []
      ensures m.Some? ==> current == old(current) && MailboxOk(threads[current].mail)
                          && [m.value] + Queue(threads[current].mail) == old(Queue(threads[current].mail))
                          && threads[..] == old(threads[..])[current := old(threads[current]).(mail := threads[current].mail)]
      ensures m.None? ==> SwitchedAway(SetThread(old(K()), old(current), old(threads[current]).(waiting := true, state := Blocked, channel := NOT_WAITING)), now, K())
    {
      hide Inv, Harmless, Reschedule;
      ReceiveInv(K(), now);
      MailKnown(K());
      var t := threads[current];
      if t.mail.count > 0 {
        TakeDequeues(t.mail);
        threads[current] := t.(mail := Take(t.mail));
        return Some(t.mail.buf[t.mail.head]);
      }
      ReceiveBlocks(K(), now);
      BlockCurrent(t.(waiting := true, state := Blocked, channel := NOT_WAITING), now);
      return None;
    }

    /** block_current and its kin: the current thread gives up the CPU in a new state. */
    method BlockCurrent(t: Thread, now: nat)
      requires Inv(K()) && current != 0 && t.state != Running && t.state != Unused && Harmless(K(), current, t)
      modifies this`count, this`current, threads
      ensures K() == Reschedule(SetThread(old(K()), old(current), t), now) && Valid()
      ensures SwitchedAway(SetThread(old(K()), old(current), t), now, K())
    {
      hide Core, Inv, Harmless, NoneRunning, Reschedule, SwitchedAway;
      MailKnown(K());
      BlockInv(K(), t, now);
      BlockCore(K(), t);
      RescheduleLaw(SetThread(K(), current, t), now);
      threads[current] := t;
      SwitchAway(now);
    }

    /** sleep_current: the thread sleeps until a tick, at which it is ready again. */
    method SleepCurrent(until: nat, now: nat)
      requires Valid() && current != 0
      modifies this`count, this`current, threads
      ensures K() == Sleep(old(K()), until, now) && Valid()
      ensures SwitchedAway(SetThread(old(K()), old(current), old(threads[current]).(state := Sleeping, sleepUntil := until)), now, K())
    {
      hide Inv, Harmless, Reschedule, SwitchedAway;
      MailKnown(K());
      SleepReady(K(), until);
      BlockCurrent(threads[current].(state := Sleeping, sleepUntil := until), now);
    }

    // ---- Exit and wait ----------------------------------------------------------------------------

    /** One round of sys_wait: reaps the first zombie child; fails if no slot, used or not, names the
        caller as its parent; blocks otherwise, even if all such slots are unused. */
    method WaitRound(now: nat) returns (child: int, status: int)
      requires Valid() && current != 0
      modifies this`count, this`current, threads
      ensures K() == Wait(old(K()), now) && Valid()
      ensures child > 0 <==> HasZombie(old(threads[..]), old(current))
      ensures child > 0 ==> 0 < child < threads.Length && old(threads[..])[child].state == Zombie
                            && old(threads[..])[child].parent == old(current) && threads[child].state == Unused
      ensures child > 0 ==> status == old(threads[..])[child].exitCode && current == old(current) && count == old(count) - 1
                            && threads[..] == old(threads[..])[child := old(threads[..])[child].(state := Unused)]
      ensures child == -1 ==> K() == old(K())
      ensures child == 0 ==> SwitchedAway(SetThread(old(K()), old(current), old(threads[current]).(state := Blocked, channel := WAIT_CHILD)), now, K())
      ensures child == -1 <==> !Named(old(threads[..]), old(current))
      ensures child == 0 <==> Named(old(threads[..]), old(current)) && !HasZombie(old(threads[..]), old(current))
    {
      hide Inv, Harmless, Reschedule, SwitchedAway;
      status := 0;
      WaitInv(K(), now);
      MailKnown(K());
      ZombieChildIs(threads[..], current, 1);
      var children, i := false, 1;
      while i < threads.Length
        invariant 1 <= i <= threads.Length && K() == old(K())
        invariant children <==> exists j :: 1 <= j < i && threads[j].parent == current
        invariant ZombieChild(threads[..], current, 1) == ZombieChild(threads[..], current, i)
      {
        if threads[i].parent == current {
          children := true;
          if threads[i].state == Zombie {
            status := threads[i].exitCode;
            threads[i] := threads[i].(state := Unused);
            count := count - 1;
            return i, status;
          }
        }
        i := i + 1;
      }
      if !children { return -1, 0; }
      assert !HasZombie(threads[..], current);
      WaitBlocks(K());
      BlockCurrent(threads[current].(state := Blocked, channel := WAIT_CHILD), now);
      return 0, 0;
    }

    /** sys_exit: a zombie that wakes a waiting parent, or terminated when there is no parent. */
    method ExitThread(code: int, now: nat)
      requires Valid() && current != 0
      modifies this`count, this`current, threads
      ensures K() == Exit(old(K()), code, now) && Valid()
      ensures Exited(old(K()), code, now, K())
    {
      hide Inv, Reschedule, Core, NoneRunning, Exited;
      ExitInv(K(), code, now);
      ExitLaw(K(), code, now);
      ExitReady(K(), code);
      var t := threads[current].(exitCode := code);
      if 0 <= t.parent < threads.Length && threads[t.parent].state != Unused {
        threads[current] := t.(state := Zombie);
        if threads[t.parent].state == Blocked && threads[t.parent].channel == WAIT_CHILD { Unblock(t.parent); }
      } else {
        threads[current] := t.(state := Terminated);
      }
      SwitchAway(now);
    }

    /** thread_terminate: takes any slot, and leaves a good state exactly for a live thread that is
        not the boot thread. */
    method Terminate(i: nat, now: nat)
      requires Valid()
      modifies this`count, this`current, this`aging, threads
      ensures K() == Kill(old(K()), i, now)
      ensures Valid() <==> i >= threads.Length || (1 <= i && old(threads[..])[i].state != Unused)
      ensures i >= threads.Length ==> threads[..] == old(threads[..])
      ensures i < threads.Length && i != old(current) ==> threads[..] == old(threads[..])[i := old(threads[..])[i].(state := Terminated)]
      ensures i < threads.Length ==> threads[i].state == Terminated
    {
      KilledState(K(), i, now);
      KillInv(K(), i, now);
      hide Inv, Tick;
      if i >= threads.Length { return; }
      threads[i] := threads[i].(state := Terminated);
      if i == current { Schedule(now); }
    }

    /** sys_fork when the clone fails: the slot is filled in and given back. */
    method ForkFails()
      requires Valid()
      modifies threads
      ensures K() == FailedFork(old(K())) && Valid()
    {
      FailedForkInv(K());
      var i := 1;
      while i < threads.Length
        invariant 1 <= i <= threads.Length && K() == old(K())
        invariant FreeSlot(threads[..], 1) == FreeSlot(threads[..], i)
      {
        if threads[i].state == Unused {
          threads[i] := NewThread(threads[i], threads[current].priority, current);
          threads[i] := threads[i].(state := Unused);
          return;
        }
        i := i + 1;
      }
    }

    /** thread_create and the slot part of sys_fork. */
    method SpawnThread(priority: nat, parent: int) returns (tid: int)
      requires Valid()
      modifies this`count, threads
      ensures K() == Spawn(old(K()), priority, parent) && Valid()
      ensures tid == -1 <==> forall i :: 1 <= i < threads.Length ==> old(threads[..])[i].state != Unused
      ensures tid == -1 ==> K() == old(K())
      ensures tid != -1 ==> 1 <= tid < threads.Length && old(threads[..])[tid].state == Unused
                            && forall i :: 1 <= i < tid ==> old(threads[..])[i].state != Unused
      ensures tid != -1 ==> var t := threads[tid];
                && t.state == Ready && t.priority == priority && t.parent == parent && t.quantum == DEFAULT_QUANTUM && !t.waiting
                && t.exitCode == 0 && t.channel == NOT_WAITING && t.mail.count == 0
                && threads[..] == old(threads[..])[tid := t] && count == old(count) + 1
    {
      SpawnInv(K(), priority, parent);
      var i := 1;
      while i < threads.Length
        invariant 1 <= i <= threads.Length && K() == old(K())
        invariant forall j :: 1 <= j < i ==> threads[j].state != Unused
        invariant FreeSlot(threads[..], 1) == FreeSlot(threads[..], i)
      {
        if threads[i].state == Unused {
          threads[i] := NewThread(threads[i], priority, parent);
          count := count + 1;
          return i;
        }
        i := i + 1;
      }
      return -1;
    }

    // ---- Channels ---------------------------------------------------------------------------------

    method UnblockEach(tids: seq<nat>)
      modifies threads
      ensures threads[..] == UnblockAll(old(threads[..]), tids)
    {
      var i := 0;
      while i < |tids|
        invariant 0 <= i <= |tids|
        invariant UnblockAll(old(threads[..]), tids) == UnblockAll(threads[..], tids[i..])
      {
        assert tids[i..][1..] == tids[i + 1..];
        Unblock(tids[i]);
        i := i + 1;
      }
    }

    /** push: the newest 63 events stay, and every thread in the waiter table wakes. */
    method PushToChannel(c: nat, x: nat) returns (ok: bool)
      requires Valid()
      modifies threads, channels
      ensures K() == PushEvent(old(K()), c, x) && Valid()
      ensures ok <==> c < channels.Length && old(channels[..])[c].active
      ensures ok ==> RingOk(channels[c].ring) && Events(channels[c].ring) == Newest(old(Events(channels[c].ring)) + [x], RING_SIZE - 1)
      ensures ok ==> channels[c].waiters == [] && channels[..] == old(channels[..])[c := channels[c]]
      ensures ok ==> forall i :: 0 <= i < threads.Length ==>
                threads[i] == if i in old(channels[..])[c].waiters && old(threads[..])[i].state == Blocked
                              then old(threads[..])[i].(state := Ready, channel := NOT_WAITING) else old(threads[..])[i]
      ensures !ok ==> K() == old(K())
    {
      if c < channels.Length { UnblockAllIs(threads[..], channels[c].waiters); }
      PushInv(K(), c, x);
      if c >= channels.Length || !channels[c].active { return false; }
      var ch := channels[c];
      assert RingOk(ch.ring);
      PushKeepsNewest(ch.ring, x);
      channels[c] := ch.(ring := Push(ch.ring, x));
      UnblockEach(ch.waiters);
      channels[c] := channels[c].(waiters := []);
      return true;
    }

    /** One round of wait: 0 from a channel that is not active, the oldest event, or the thread
        blocks, with an entry if there is room. */
    method AwaitRound(c: nat, now: nat) returns (x: Option<nat>)
      requires Valid() && current != 0
      modifies this`count, this`current, threads, channels
      ensures K() == AwaitEvent(old(K()), c, now) && Valid()
      ensures x.None? <==> c < channels.Length && old(channels[..])[c].active && old(Events(channels[c].ring)) == []
      ensures c >= channels.Length || !old(channels[..])[c].active ==> x == Some(0) && K() == old(K())
      ensures x.Some? && c < channels.Length && old(channels[..])[c].active ==>
                RingOk(channels[c].ring) && [x.value] + Events(channels[c].ring) == old(Events(channels[c].ring))
      ensures x.Some? ==> threads[..] == old(threads[..]) && forall d :: 0 <= d < channels.Length && d != c ==> channels[d] == old(channels[..])[d]
      ensures x.None? ==>
                var ws := old(channels[..])[c].waiters;
                && channels[..] == old(channels[..])[c := old(channels[..])[c].(waiters := if |ws| < MAX_WAITERS then ws + [old(current)] else ws)]
                && threads[old(current)].state == Blocked && threads[old(current)].channel == c && current != old(current)
    {
      hide Inv, Harmless, Reschedule, After, Length, SwitchedAway;
      AwaitInv(K(), c, now);
      MailKnown(K());
      if c >= channels.Length || !channels[c].active { return Some(0); }
      var ch := channels[c];
      RingKnown(K(), c);
      EmptyRing(ch.ring);
      if ch.ring.head != ch.ring.tail {
        PopDequeues(ch.ring);
        channels[c] := ch.(ring := Pop(ch.ring));
        return Some(ch.ring.buf[ch.ring.tail]);
      }
      var room := |ch.waiters| < MAX_WAITERS;
      ghost var k := K();
      AwaitReady(k, c, now);
      if room { channels[c] := ch.(waiters := ch.waiters + [current]); }
      ghost var blocked := threads[current].(enrolled := room || current in ch.waiters, state := Blocked, channel := c);
      ghost var k1 := SetThread(K(), current, blocked);
      BlockCurrent(threads[current].(enrolled := room || current in ch.waiters, state := Blocked, channel := c), now);
      BlockedKept(k1, now, K());
      return None;
    }
  }

  /** The state in which a thread with or without an entry may block on an empty channel. */
  lemma AwaitReady(k: Kernel, c: nat, now: nat)
    requires Inv(k) && k.current != 0 && c < |k.channels| && k.channels[c].active
    requires k.channels[c].ring.head == k.channels[c].ring.tail
    ensures var room := |k.channels[c].waiters| < MAX_WAITERS;
            var ch := if room then k.channels[c].(waiters := k.channels[c].waiters + [k.current]) else k.channels[c];
            var k1 := k.(channels := k.channels[c := ch]);
            var t := k.threads[k.current].(enrolled := room || k.current in k.channels[c].waiters, state := Blocked, channel := c);
            && Inv(k1) && Harmless(k1, k.current, t) && (!room ==> k1 == k)
            && AwaitEvent(k, c, now) == Reschedule(SetThread(k1, k.current, t), now)
  {
    var room := |k.channels[c].waiters| < MAX_WAITERS;
    var ch := if room then k.channels[c].(waiters := k.channels[c].waiters + [k.current]) else k.channels[c];
    var e := k.threads[k.current].(enrolled := room || k.current in k.channels[c].waiters);
    var t := e.(state := Blocked, channel := c);
    ChannelCore(k, c, ch);
    assert !room ==> k.channels[c := ch] == k.channels;
    assert k.threads[k.current := e][k.current := t] == k.threads[k.current := t];
  }

  lemma TickLaws(k: Kernel, now: nat)
    requires k.current < |k.threads|
    ensures Tick(k, now) == Charge(AgeStep(k), now)
    ensures Core(k) && (Inv(k) || NoneRunning(k.threads)) ==> Inv(Tick(k, now))
    ensures Inv(k) ==> Ticked(k, now, Tick(k, now))
    ensures Inv(k) && k.threads[k.current].quantum == 1 ==> Foremost(Tick(k, now).threads, k.current, Tick(k, now).current)
  {
    hide Inv, Core, NoneRunning, Ticked, Foremost, Charge, AgeStep;
    if Core(k) && (Inv(k) || NoneRunning(k.threads)) { TickInv(k, now); }
    if Inv(k) {
      TickLaw(k, now);
      if k.threads[k.current].quantum == 1 { TickForemost(k, now); }
    }
  }

  lemma BlockedKept(k: Kernel, now: nat, k': Kernel)
    requires SwitchedAway(k, now, k') && k.current < |k.threads| && k.threads[k.current].state == Blocked
    ensures k'.threads[k.current] == k.threads[k.current] && k'.channels == k.channels && k'.current != k.current
  {
  }

  lemma BlockCore(k: Kernel, t: Thread)
    requires Inv(k) && k.current != 0 && t.state != Running && t.state != Unused && Harmless(k, k.current, t)
    ensures Core(SetThread(k, k.current, t)) && NoneRunning(SetThread(k, k.current, t).threads)
  {
    SetCore(k, k.current, t, k.count);
  }

  lemma SleepReady(k: Kernel, until: nat)
    requires Inv(k) && k.current != 0
    ensures Harmless(k, k.current, k.threads[k.current].(state := Sleeping, sleepUntil := until))
  {
  }

  /** A killed thread is terminated, also the current one, until the next choice. */
  lemma KilledState(k: Kernel, i: nat, now: nat)
    requires Inv(k)
    ensures i < |k.threads| ==> i < |Kill(k, i, now).threads| && Kill(k, i, now).threads[i].state == Terminated
  {
    hide NoLostWakeup, UsedCount, Released;
    if i == k.current {
      var k1 := SetThread(k, i, k.threads[i].(state := Terminated));
      var k2 := SweepKernel(AgeStep(k1), now);
      ChooseBound(k2.threads, k2.current, 0, 0, 255);
      if i != 0 { PickElse(k2); }
    }
  }

  lemma PickElse(k: Kernel)
    requires 0 < k.current < |k.threads| && k.threads[k.current].state == Terminated
    ensures PickFrom(k.threads, k.current) != k.current
  {
    ChooseBound(k.threads, k.current, 0, 0, 255);
  }

  /** The state sys_exit leaves to the task switch. */
  lemma ExitReady(k: Kernel, code: int)
    requires Inv(k) && k.current != 0
    ensures k.current < |k.threads|
    ensures var t := k.threads[k.current].(exitCode := code);
            if 0 <= t.parent < |k.threads| && k.threads[t.parent].state != Unused then
              var ts := k.threads[k.current := t.(state := Zombie)];
              Core(k.(threads := if ts[t.parent].state == Blocked && ts[t.parent].channel == WAIT_CHILD then UnblockOne(ts, t.parent) else ts))
            else Core(SetThread(k, k.current, t.(state := Terminated)))
  {
    var t := k.threads[k.current].(exitCode := code);
    if 0 <= t.parent < |k.threads| && k.threads[t.parent].state != Unused {
      var z := t.(state := Zombie);
      var ts := k.threads[k.current := z];
      if ts[t.parent].state == Blocked && ts[t.parent].channel == WAIT_CHILD {
        var p := k.threads[t.parent].(state := Ready, channel := NOT_WAITING);
        var k1 := SetThread(k, t.parent, p);
        SetCore(k, t.parent, p, k.count);
        SetCore(k1, k.current, z, k.count);
        assert ts[t.parent := p] == k1.threads[k.current := z];
      } else {
        SetCore(k, k.current, z, k.count);
      }
    } else {
      SetCore(k, k.current, t.(state := Terminated), k.count);
    }
  }

  lemma MailKnown(k: Kernel)
    requires Inv(k)
    ensures k.current < |k.threads| == MAX_THREADS && MailboxOk(k.threads[k.current].mail)
  {
    hide NoLostWakeup, UsedCount;
  }

  lemma RingKnown(k: Kernel, c: nat)
    requires Inv(k) && c < |k.channels|
    ensures RingOk(k.channels[c].ring)
  {
    hide NoLostWakeup, UsedCount;
  }

  lemma WaitBlocks(k: Kernel)
    requires Inv(k) && k.current != 0 && k.current < |k.threads| && ZombieChild(k.threads, k.current, 1) == 0
    ensures Harmless(k, k.current, k.threads[k.current].(state := Blocked, channel := WAIT_CHILD))
  {
    ZombieChildIs(k.threads, k.current, 1);
  }

  lemma ReceiveBlocks(k: Kernel, now: nat)
    requires Inv(k) && k.current < |k.threads| && k.threads[k.current].mail.count == 0
    ensures var t := k.threads[k.current].(waiting := true, state := Blocked, channel := NOT_WAITING);
            && (k.current != 0 ==> Harmless(k, k.current, t))
            && Receive(k, now) == Reschedule(SetThread(k, k.current, t), now)
  {
    var t := k.threads[k.current];
    var t1 := t.(waiting := true, state := Blocked, channel := NOT_WAITING);
    assert k.threads[k.current := t.(waiting := true)][k.current := t1] == k.threads[k.current := t1];
  }
}
