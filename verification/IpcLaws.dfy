/** What the processes that use the semaphores and mutexes of kernel/src/ipc.cpp can rely on, over
    every run: units are conserved, nobody overtakes in a queue, and a mutex has one holder. */
module IpcLaws {
  import opened Collections
  import opened Ipc

  ghost predicate Waits(s: State, p: Pid, r: Resource) { p in s.waits && s.waits[p] == r }

  // ---- Units of a semaphore are conserved ----------------------------------------------------------

  /** The processes that waited for r before a step and do not wait after it. */
  ghost function Released(s: State, s': State, r: Resource): set<Pid> {
    set p | p in s.waits && s.waits[p] == r && p !in s'.waits
  }

  /** The units of a semaphore taken in one step, as the processes see it: the caller of a wait
      goes on without an edge, or a signal takes the edges of waiters away. */
  ghost function TakenBy(s: State, op: Op, id: nat): nat {
    var s' := Apply(s, op);
    match op
    case SemaphoreWait(k, pid) => if k == id && id in s.sems && pid !in s'.waits then 1 else 0
    case SemaphoreSignal(k) => if k == id then |Released(s, s', SemaphoreRes(id))| else 0
    case _ => 0
  }

  ghost function Taken(s: State, ops: seq<Op>, id: nat): nat
    decreases |ops|
  {
    if ops == [] then 0 else TakenBy(s, ops[0], id) + Taken(Apply(s, ops[0]), ops[1..], id)
  }

  /** The signals a semaphore received. */
  ghost function Signals(s: State, ops: seq<Op>, id: nat): nat
    decreases |ops|
  {
    if ops == [] then 0
    else (if ops[0] == SemaphoreSignal(id) && id in s.sems then 1 else 0) + Signals(Apply(s, ops[0]), ops[1..], id)
  }

  /** The units a semaphore was created with, if it was created in the run. */
  ghost function Initial(s: State, ops: seq<Op>, id: nat): int
    decreases |ops|
  {
    if ops == [] then 0
    else (if ops[0].CreateSemaphore? && s.nextSem == id then ops[0].initial else 0) + Initial(Apply(s, ops[0]), ops[1..], id)
  }

  ghost function Value(s: State, id: nat): int { if id in s.sems then s.sems[id].value else 0 }

  /** A signal that finds waiters releases the first and nobody else. */
  lemma SignalReleases(s: State, id: nat)
    requires Inv(s) && id in s.sems
    ensures var q := s.sems[id].waiting;
            Released(s, Apply(s, SemaphoreSignal(id)), SemaphoreRes(id)) == if q == [] then {} else {q[0]}
  {
    var q := s.sems[id].waiting;
    assert SemOk(id, s.sems[id], s.waits);
    if q != [] { assert q[0] in q; }
  }

  lemma StepCounts(s: State, op: Op, id: nat)
    requires Inv(s) && Enabled(s, op) && id in Apply(s, op).sems
    ensures Value(Apply(s, op), id) + TakenBy(s, op, id) == Value(s, id) + Initial(s, [op], id) + Signals(s, [op], id)
    ensures Value(Apply(s, op), id) < 0 ==> Value(Apply(s, op), id) >= Value(s, id) + Initial(s, [op], id)
  {
    if op == SemaphoreSignal(id) { SignalReleases(s, id); }
  }

  /** Identifiers are not used twice. */
  lemma {:induction false} GoneForGood(s: State, ops: seq<Op>, id: nat)
    requires Inv(s) && RunEnabled(s, ops) && id !in s.sems && id < s.nextSem
    ensures id !in Run(s, ops).sems
    decreases |ops|
  {
    if ops != [] {
      StepKeepsInv(s, ops[0]);
      GoneForGood(Apply(s, ops[0]), ops[1..], id);
    }
  }

  lemma {:induction false} CreatedOnce(s: State, ops: seq<Op>, id: nat)
    requires id < s.nextSem
    ensures Initial(s, ops, id) == 0
    decreases |ops|
  {
    if ops != [] { CreatedOnce(Apply(s, ops[0]), ops[1..], id); }
  }

  /** A step that leaves the semaphore absent does not count. */
  lemma AbsentStep(s: State, op: Op, id: nat)
    requires id !in s.sems && id !in Apply(s, op).sems
    ensures TakenBy(s, op, id) == 0 && Initial(s, [op], id) == 0 && Signals(s, [op], id) == 0
  {
    assert op == SemaphoreSignal(id) ==> Released(s, s, SemaphoreRes(id)) == {};
  }

  lemma FirstStep(s: State, ops: seq<Op>, id: nat)
    requires ops != []
    ensures var s1, rest := Apply(s, ops[0]), ops[1..];
            && Initial(s, ops, id) == Initial(s, [ops[0]], id) + Initial(s1, rest, id)
            && Signals(s, ops, id) == Signals(s, [ops[0]], id) + Signals(s1, rest, id)
  {
    assert [ops[0]][1..] == [];
  }

  /** Over every run a live semaphore has the units it began with and those signalled, less those
      taken; it never falls below zero on its own. */
  lemma {:induction false} UnitsConserved(s: State, ops: seq<Op>, id: nat)
    requires Inv(s) && RunEnabled(s, ops) && id in Run(s, ops).sems
    ensures Value(Run(s, ops), id) + Taken(s, ops, id) == Value(s, id) + Initial(s, ops, id) + Signals(s, ops, id)
    ensures Value(Run(s, ops), id) < 0 ==> Value(Run(s, ops), id) >= Value(s, id) + Initial(s, ops, id)
    decreases |ops|
  {
    hide Inv, Apply, TakenBy, Enabled;
    if ops != [] {
      var s1 := Apply(s, ops[0]);
      StepKeepsInv(s, ops[0]);
      UnitsConserved(s1, ops[1..], id);
      FirstStep(s, ops, id);
      if id in s1.sems {
        StepCounts(s, ops[0], id);
        KnownId(s1, id);
        CreatedOnce(s1, ops[1..], id);
      } else if id in s.sems {
        KnownId(s, id);
        NextGrows(s, ops[0]);
        GoneForGood(s1, ops[1..], id);
        assert false;
      } else {
        AbsentStep(s, ops[0], id);
      }
    }
  }

  lemma KnownId(s: State, id: nat)
    requires Inv(s) && id in s.sems
    ensures id < s.nextSem
  {
  }

  lemma NextGrows(s: State, op: Op)
    ensures s.nextSem <= Apply(s, op).nextSem
  {
  }

  ghost const Boot := State(map[], map[], map[], 1, 1)

  /** From the start: never more units are taken than there were and were signalled, so a semaphore
      created with one unit is held once; while a process waits, every unit is taken. */
  lemma SemaphoreGuards(ops: seq<Op>, id: nat)
    requires RunEnabled(Boot, ops) && id in Run(Boot, ops).sems
    ensures var sem := Run(Boot, ops).sems[id]; var given := Initial(Boot, ops, id) + Signals(Boot, ops, id);
            && sem.value == given - Taken(Boot, ops, id)
            && (sem.waiting != [] ==> Taken(Boot, ops, id) >= given)
            && (Initial(Boot, ops, id) >= 0 ==>
                  && Taken(Boot, ops, id) <= given
                  && (sem.waiting != [] ==> Taken(Boot, ops, id) == given))
  {
    UnitsConserved(Boot, ops, id);
    DeadlockIsStable(Boot, ops, []);
    assert SemOk(id, Run(Boot, ops).sems[id], Run(Boot, ops).waits);
  }

  // ---- Nobody overtakes ----------------------------------------------------------------------------

  ghost function Queue(s: State, r: Resource): seq<Pid> {
    match r
    case SemaphoreRes(id) => if id in s.sems then s.sems[id].waiting else []
    case MutexRes(id) => if id in s.mutexes then s.mutexes[id].waiting else []
  }

  lemma {:induction false} AheadWithout(q: seq<Pid>, p: Pid, p': Pid, x: Pid)
    requires Ahead(q, p, p') && x != p && x != p'
    ensures Ahead(Without(q, x), p, p')
  {
    var i, j :| 0 <= i < j < |q| && q[i] == p && q[j] == p';
    var rest := Without(q[1..], x);
    if i > 0 {
      assert q[1..][i - 1] == p && q[1..][j - 1] == p';
      AheadWithout(q[1..], p, p', x);
      var a, b :| 0 <= a < b < |rest| && rest[a] == p && rest[b] == p';
      var n := |Without(q, x)| - |rest|;
      assert Without(q, x)[a + n] == p && Without(q, x)[b + n] == p';
    } else {
      assert q[1..][j - 1] == p';
      WithoutElems(q[1..], x);
      assert p' in q[1..];
      var b :| 0 <= b < |rest| && rest[b] == p';
      assert Without(q, x)[0] == p && Without(q, x)[b + 1] == p';
    }
  }

  /** Who waits is in the queue. */
  lemma QueueIs(s: State, r: Resource, p: Pid)
    requires Inv(s)
    ensures p in Queue(s, r) <==> Waits(s, p, r)
    ensures NoDup(Queue(s, r))
  {
    match r
    case SemaphoreRes(id) => if id in s.sems { assert SemOk(id, s.sems[id], s.waits); }
    case MutexRes(id) => if id in s.mutexes { assert MutexOk(id, s.mutexes[id], s.waits); }
  }

  /** What a step does to a queue. */
  datatype Change = Same | Front | Back(x: Pid) | Drop(x: Pid) | FrontDrop(x: Pid) | Gone

  ghost predicate Changed(q: seq<Pid>, q': seq<Pid>, c: Change) {
    match c
    case Same => q' == q
    case Front => q != [] && q' == q[1..]
    case Back(x) => q' == q + [x]
    case Drop(x) => q' == Without(q, x)
    case FrontDrop(x) => q != [] && q' == Without(q[1..], x)
    case Gone => q' == []
  }

  ghost function ChangeOf(s: State, op: Op, r: Resource): Change {
    var q' := Queue(Apply(s, op), r);
    match op
    case SemaphoreWait(_, pid) => if q' == Queue(s, r) then Same else Back(pid)
    case MutexLock(_, pid) => if q' == Queue(s, r) then Same else Back(pid)
    case SemaphoreSignal(_) => if q' == Queue(s, r) then Same else Front
    case MutexUnlock(_, _) => if q' == Queue(s, r) then Same else Front
    case CleanupProcess(pid) => if r.MutexRes? && r.id in s.mutexes && s.mutexes[r.id].owner == pid && s.mutexes[r.id].waiting != [] then FrontDrop(pid) else Drop(pid)
    case _ => if q' == Queue(s, r) then Same else Gone
  }

  lemma StepChanges(s: State, op: Op, r: Resource)
    requires Inv(s)
    ensures Changed(Queue(s, r), Queue(Apply(s, op), r), ChangeOf(s, op, r))
  {
    hide SemOk, MutexOk;
  }

  lemma StepOrder(s: State, op: Op, r: Resource, p: Pid, q: Pid)
    requires Inv(s) && Enabled(s, op) && Ahead(Queue(s, r), p, q)
    requires Waits(Apply(s, op), p, r) && op != CleanupProcess(q)
    ensures Ahead(Queue(Apply(s, op), r), p, q)
  {
    hide Inv, Apply, Queue, ChangeOf, Ahead, Waits;
    var c, was, now := ChangeOf(s, op, r), Queue(s, r), Queue(Apply(s, op), r);
    StepKeepsInv(s, op);
    StepChanges(s, op, r);
    QueueIs(s, r, p);
    QueueIs(Apply(s, op), r, p);
    match c
    case Same =>
    case Back(x) => AheadBack(was, p, q, x);
    case Front => AheadTail(was, p, q);
    case Drop(x) => DropOrder(s, op, r, p, q);
    case FrontDrop(x) => DropOrder(s, op, r, p, q);
    case Gone =>
  }

  lemma DropOrder(s: State, op: Op, r: Resource, p: Pid, q: Pid)
    requires Ahead(Queue(s, r), p, q) && (ChangeOf(s, op, r).Drop? || ChangeOf(s, op, r).FrontDrop?)
    requires Changed(Queue(s, r), Queue(Apply(s, op), r), ChangeOf(s, op, r)) && NoDup(Queue(s, r))
    requires p in Queue(Apply(s, op), r) && op != CleanupProcess(q)
    ensures Ahead(Queue(Apply(s, op), r), p, q)
  {
    hide Apply, Queue, Ahead;
    var was := Queue(s, r);
    assert op == CleanupProcess(op.pid);
    if ChangeOf(s, op, r).Drop? {
      WithoutElems(was, op.pid);
      AheadWithout(was, p, q, op.pid);
    } else {
      WithoutElems(was[1..], op.pid);
      FrontNoDup(was);
      AheadTail(was, p, q);
      AheadWithout(was[1..], p, q, op.pid);
    }
  }

  /** p waits for r at every point of the run. */
  ghost predicate KeepsWaiting(s: State, ops: seq<Op>, p: Pid, r: Resource)
    decreases |ops|
  {
    Waits(s, p, r) && (ops == [] || KeepsWaiting(Apply(s, ops[0]), ops[1..], p, r))
  }

  /** First come, first served: while p waits, whoever queued behind it waits too, unless it is
      cleaned up itself. */
  lemma {:induction false} NoOvertaking(s: State, ops: seq<Op>, r: Resource, p: Pid, q: Pid)
    requires Inv(s) && RunEnabled(s, ops) && Ahead(Queue(s, r), p, q)
    requires KeepsWaiting(s, ops, p, r) && CleanupProcess(q) !in ops
    ensures Ahead(Queue(Run(s, ops), r), p, q) && Waits(Run(s, ops), q, r)
    decreases |ops|
  {
    hide Inv, Apply, Queue, Waits, Enabled;
    if ops == [] {
      QueueIs(s, r, q);
    } else {
      StepKeepsInv(s, ops[0]);
      assert KeepsWaiting(Apply(s, ops[0]), ops[1..], p, r);
      StepOrder(s, ops[0], r, p, q);
      NoOvertaking(Apply(s, ops[0]), ops[1..], r, p, q);
    }
  }

  /** Who has to wait queues behind everybody who waits already. */
  lemma LastInQueue(s: State, op: Op, r: Resource, p: Pid)
    requires Inv(s) && Enabled(s, op) && Waits(s, p, r)
    requires match op case SemaphoreWait(id, _) => r == SemaphoreRes(id) case MutexLock(id, pid) => r == MutexRes(id) && !Owns(s, id, pid) case _ => false
    ensures Waits(Apply(s, op), op.pid, r) && Ahead(Queue(Apply(s, op), r), p, op.pid)
  {
    QueueIs(s, r, p);
    AheadBack(Queue(s, r), p, p, op.pid);
    match r
    case SemaphoreRes(id) => assert SemOk(id, s.sems[id], s.waits);
    case MutexRes(id) => assert MutexOk(id, s.mutexes[id], s.waits);
  }

  // ---- A mutex has one holder ----------------------------------------------------------------------

  ghost predicate Owns(s: State, id: nat, p: Pid) { id in s.mutexes && s.mutexes[id].locked && s.mutexes[id].owner == p }

  ghost predicate Releases(op: Op, id: nat, p: Pid) {
    op == MutexUnlock(id, p) || op == CleanupProcess(p) || op == DestroyMutex(id)
  }

  /** A lock makes the caller the holder or lets it wait. */
  lemma LockVerdict(s: State, id: nat, p: Pid)
    requires Inv(s) && Enabled(s, MutexLock(id, p)) && id in s.mutexes
    ensures var s' := Apply(s, MutexLock(id, p));
            && (Owns(s', id, p) <==> Owns(s, id, p) || forall q :: !Owns(s, id, q))
            && (Waits(s', p, MutexRes(id)) <==> exists q :: q != p && Owns(s, id, q))
  {
    var m := s.mutexes[id];
    assert MutexOk(id, m, s.waits);
    assert m.locked ==> Owns(s, id, m.owner);
  }

  /** Until the holder unlocks or is cleaned up, or the mutex is destroyed, it stays the holder
      at every point of the run. */
  lemma {:induction false} HolderStays(s: State, ops: seq<Op>, id: nat, p: Pid)
    requires Inv(s) && RunEnabled(s, ops) && Owns(s, id, p) && forall op :: op in ops ==> !Releases(op, id, p)
    ensures Owns(Run(s, ops), id, p)
    decreases |ops|
  {
    if ops != [] {
      StepKeepsInv(s, ops[0]);
      assert ops[0] in ops;
      assert Owns(Apply(s, ops[0]), id, p) by { OwnerStep(s, ops[0], id, p); }
      HolderStays(Apply(s, ops[0]), ops[1..], id, p);
    }
  }

  lemma OwnerStep(s: State, op: Op, id: nat, p: Pid)
    requires Inv(s) && Enabled(s, op) && Owns(s, id, p) && !Releases(op, id, p)
    ensures Owns(Apply(s, op), id, p)
  {
    assert id < s.nextMutex;
  }

  /** The holder that unlocks hands over to the first waiter, which waits no more. */
  lemma HandedOver(s: State, id: nat, p: Pid)
    requires Inv(s) && Enabled(s, MutexUnlock(id, p)) && Owns(s, id, p)
    ensures var s', q := Apply(s, MutexUnlock(id, p)), Queue(s, MutexRes(id));
            && (q == [] ==> forall x :: !Owns(s', id, x))
            && (q != [] ==> Owns(s', id, q[0]) && Queue(s', MutexRes(id)) == q[1..])
            && Released(s, s', MutexRes(id)) == if q == [] then {} else {q[0]}
  {
    var q := s.mutexes[id].waiting;
    assert MutexOk(id, s.mutexes[id], s.waits);
    if q != [] { assert q[0] in q; }
  }

  // ---- A process is cleaned up ---------------------------------------------------------------------

  /** Nothing of pid is left: it sits in no queue and owns no mutex; the first waiter of each mutex
      it owned is the new owner and waits no more, and nobody else is concerned. */
  ghost predicate Cleaned(s: State, s': State, pid: Pid) {
    && s'.sems.Keys == s.sems.Keys && s'.mutexes.Keys == s.mutexes.Keys && s'.nextSem == s.nextSem && s'.nextMutex == s.nextMutex
    && (forall id :: id in s.sems ==> s'.sems[id].value == s.sems[id].value && OneOut(s.sems[id].waiting, s'.sems[id].waiting, pid))
    && (forall id :: id in s.mutexes ==> MutexCleaned(s.mutexes[id], s'.mutexes[id], pid))
    && (forall p :: p in s'.waits <==> p in s.waits && p != pid && !Inherits(s, pid, p))
    && (forall p :: p in s'.waits ==> s'.waits[p] == s.waits[p])
  }

  ghost predicate MutexCleaned(m: Mutex, m': Mutex, pid: Pid) {
    if m.owner != pid then m'.locked == m.locked && m'.owner == m.owner && OneOut(m.waiting, m'.waiting, pid)
    else if m.waiting == [] then m' == Mutex(false, INVALID_PID, [])
    else m'.locked && m.waiting == [m'.owner] + m'.waiting
  }

  ghost predicate Inherits(s: State, pid: Pid, p: Pid) {
    exists id :: id in s.mutexes && s.mutexes[id].owner == pid && s.mutexes[id].waiting != [] && s.mutexes[id].waiting[0] == p
  }

  lemma {:induction false} WithoutAbsent(q: seq<Pid>, pid: Pid)
    requires pid !in q
    ensures Without(q, pid) == q
  {
    if q != [] {
      WithoutAbsent(q[1..], pid);
      assert q == [q[0]] + q[1..];
    }
  }

  lemma {:induction false} WithoutAt(q: seq<Pid>, pid: Pid, i: nat)
    requires NoDup(q) && i < |q| && q[i] == pid
    ensures Without(q, pid) == q[..i] + q[i + 1..]
  {
    FrontNoDup(q);
    if i == 0 {
      WithoutAbsent(q[1..], pid);
    } else {
      assert q[0] != pid && q[1..][i - 1] == pid;
      WithoutAt(q[1..], pid, i - 1);
      assert q[..i] + q[i + 1..] == [q[0]] + (q[1..][..i - 1] + q[1..][i..]);
    }
  }

  lemma WithoutDrops(q: seq<Pid>, pid: Pid)
    requires NoDup(q)
    ensures OneOut(q, Without(q, pid), pid)
  {
    if pid !in q { WithoutAbsent(q, pid); }
    forall i | 0 <= i < |q| && q[i] == pid ensures Without(q, pid) == q[..i] + q[i + 1..] { WithoutAt(q, pid, i); }
  }

  lemma CleanMutexLaw(id: nat, m: Mutex, waits: map<Pid, Resource>, pid: Pid)
    requires MutexOk(id, m, waits) && pid != INVALID_PID
    ensures MutexCleaned(m, CleanMutex(m, pid), pid)
  {
    WithoutDrops(m.waiting, pid);
    if m.owner == pid && m.waiting != [] { WithoutAbsent(m.waiting[1..], pid); }
  }

  lemma CleanupLaw(s: State, pid: Pid)
    requires Inv(s) && pid != INVALID_PID
    ensures Cleaned(s, Apply(s, CleanupProcess(pid)), pid)
  {
    hide MutexCleaned, OneOut, CleanMutex, MutexOk;
    var s' := Apply(s, CleanupProcess(pid));
    forall id | id in s.sems ensures OneOut(s.sems[id].waiting, s'.sems[id].waiting, pid) {
      assert SemOk(id, s.sems[id], s.waits);
      WithoutDrops(s.sems[id].waiting, pid);
    }
    forall id | id in s.mutexes ensures MutexCleaned(s.mutexes[id], s'.mutexes[id], pid) {
      CleanMutexLaw(id, s.mutexes[id], s.waits, pid);
    }
    forall p ensures p in Heirs(s.mutexes, pid) <==> Inherits(s, pid, p) { }
  }
}
