/** Semaphores, mutexes and the wait graph of kernel/src/ipc.cpp as values: what each
    operation does to the tables, the invariant that ties wait edges to queues, and the
    stability of a deadlock. */
module Ipc {
  import opened Collections

  type Pid = nat
  const INVALID_PID: Pid := 0

  datatype Resource = SemaphoreRes(id: nat) | MutexRes(id: nat)
  datatype Semaphore = Semaphore(value: int, waiting: seq<Pid>)
  datatype Mutex = Mutex(locked: bool, owner: Pid, waiting: seq<Pid>)

  datatype State = State(
    sems: map<nat, Semaphore>,
    mutexes: map<nat, Mutex>,
    waits: map<Pid, Resource>,
    nextSem: nat,
    nextMutex: nat)

  // ---- The operations -----------------------------------------------------------------------

  datatype Op =
    | CreateSemaphore(initial: int)
    | SemaphoreWait(id: nat, pid: Pid)
    | SemaphoreSignal(id: nat)
    | DestroySemaphore(id: nat)
    | CreateMutex
    | MutexLock(id: nat, pid: Pid)
    | MutexUnlock(id: nat, pid: Pid)
    | DestroyMutex(id: nat)
    | CleanupProcess(pid: Pid)

  /** std::remove: every occurrence of pid leaves the queue. */
  function Without(q: seq<Pid>, pid: Pid): seq<Pid> {
    if q == [] then [] else (if q[0] == pid then [] else [q[0]]) + Without(q[1..], pid)
  }

  function Elems(q: seq<Pid>): set<Pid> {
    set p | p in q
  }

  /** The mutex after its owner gives it up: to the first waiter, or to nobody. */
  function Passed(m: Mutex): Mutex {
    if m.waiting != [] then Mutex(m.locked, m.waiting[0], m.waiting[1..]) else Mutex(false, INVALID_PID, [])
  }

  function CleanMutex(m: Mutex, pid: Pid): Mutex {
    var m1 := if m.owner == pid then Passed(m) else m;
    m1.(waiting := Without(m1.waiting, pid))
  }

  /** The processes that receive a mutex when pid is cleaned up. */
  function Heirs(mutexes: map<nat, Mutex>, pid: Pid): set<Pid> {
    set id | id in mutexes && mutexes[id].owner == pid && mutexes[id].waiting != [] :: mutexes[id].waiting[0]
  }

  function Apply(s: State, op: Op): State {
    match op
    case CreateSemaphore(initial) =>
      s.(sems := s.sems[s.nextSem := Semaphore(initial, [])], nextSem := s.nextSem + 1)
    case SemaphoreWait(id, pid) =>
      if id !in s.sems then s
      else if s.sems[id].value > 0 then
        s.(sems := s.sems[id := Semaphore(s.sems[id].value - 1, s.sems[id].waiting)])
      else
        s.(sems := s.sems[id := Semaphore(s.sems[id].value, s.sems[id].waiting + [pid])],
           waits := s.waits[pid := SemaphoreRes(id)])
    case SemaphoreSignal(id) =>
      if id !in s.sems then s
      else if s.sems[id].waiting != [] then
        s.(sems := s.sems[id := Semaphore(s.sems[id].value, s.sems[id].waiting[1..])],
           waits := s.waits - {s.sems[id].waiting[0]})
      else
        s.(sems := s.sems[id := Semaphore(s.sems[id].value + 1, [])])
    case DestroySemaphore(id) =>
      if id !in s.sems then s
      else s.(sems := s.sems - {id}, waits := s.waits - Elems(s.sems[id].waiting))
    case CreateMutex =>
      s.(mutexes := s.mutexes[s.nextMutex := Mutex(false, INVALID_PID, [])], nextMutex := s.nextMutex + 1)
    case MutexLock(id, pid) =>
      if id !in s.mutexes then s
      else if !s.mutexes[id].locked then
        s.(mutexes := s.mutexes[id := Mutex(true, pid, s.mutexes[id].waiting)])
      else if s.mutexes[id].owner == pid then s
      else
        s.(mutexes := s.mutexes[id := s.mutexes[id].(waiting := s.mutexes[id].waiting + [pid])],
           waits := s.waits[pid := MutexRes(id)])
    case MutexUnlock(id, pid) =>
      if id !in s.mutexes || s.mutexes[id].owner != pid then s
      else
        s.(mutexes := s.mutexes[id := Passed(s.mutexes[id])],
           waits := if s.mutexes[id].waiting == [] then s.waits else s.waits - {s.mutexes[id].waiting[0]})
    case DestroyMutex(id) =>
      if id !in s.mutexes then s
      else s.(mutexes := s.mutexes - {id}, waits := s.waits - Elems(s.mutexes[id].waiting))
    case CleanupProcess(pid) =>
      s.(sems := map id | id in s.sems :: s.sems[id].(waiting := Without(s.sems[id].waiting, pid)),
         mutexes := map id | id in s.mutexes :: CleanMutex(s.mutexes[id], pid),
         waits := s.waits - Heirs(s.mutexes, pid) - {pid})
  }

  /** Only unblocked processes call in, and INVALID_PID is not a process. */
  predicate Enabled(s: State, op: Op) {
    match op
    case SemaphoreWait(_, pid) => pid != INVALID_PID && pid !in s.waits
    case MutexLock(_, pid) => pid != INVALID_PID && pid !in s.waits
    case MutexUnlock(_, pid) => pid != INVALID_PID && pid !in s.waits
    case CleanupProcess(pid) => pid != INVALID_PID
    case _ => true
  }

  // ---- The invariant: wait edges are honest --------------------------------------------------

  /** A process has an edge to a semaphore exactly when it sits, once, in its queue; nobody queues
      while there is a unit. */
  ghost predicate SemOk(id: nat, sem: Semaphore, waits: map<Pid, Resource>) {
    && NoDup(sem.waiting) && (sem.waiting != [] ==> sem.value <= 0)
    && forall p :: p in sem.waiting <==> p in waits && waits[p] == SemaphoreRes(id)
  }

  /** The same for a mutex; with waiters it is locked, by a process that is not among them. */
  ghost predicate MutexOk(id: nat, m: Mutex, waits: map<Pid, Resource>) {
    && NoDup(m.waiting)
    && (forall p :: p in m.waiting <==> p in waits && waits[p] == MutexRes(id))
    && (m.waiting != [] ==> m.locked && m.owner !in m.waiting)
    && (m.locked <==> m.owner != INVALID_PID)
  }

  ghost predicate Inv(s: State) {
    && (forall id :: id in s.sems ==> id < s.nextSem && SemOk(id, s.sems[id], s.waits))
    && (forall id :: id in s.mutexes ==> id < s.nextMutex && MutexOk(id, s.mutexes[id], s.waits))
    && (forall p :: p in s.waits ==>
          && p != INVALID_PID
          && match s.waits[p] case SemaphoreRes(id) => id in s.sems case MutexRes(id) => id in s.mutexes)
  }

  lemma {:induction false} WithoutElems(q: seq<Pid>, pid: Pid)
    ensures forall p :: p in Without(q, pid) <==> p in q && p != pid
  {
    if q != [] {
      WithoutElems(q[1..], pid);
      assert q == [q[0]] + q[1..];
    }
  }

  lemma {:induction false} WithoutNoDup(q: seq<Pid>, pid: Pid)
    requires NoDup(q)
    ensures NoDup(Without(q, pid))
  {
    if q != [] {
      WithoutNoDup(q[1..], pid);
      WithoutElems(q[1..], pid);
      var rest := Without(q[1..], pid);
      assert forall i :: 0 <= i < |rest| ==> rest[i] in rest;
      assert forall i :: 0 <= i < |q[1..]| ==> q[1..][i] == q[i + 1];
    }
  }

  lemma FrontNoDup(q: seq<Pid>)
    requires NoDup(q) && q != []
    ensures NoDup(q[1..]) && q[0] !in q[1..]
    ensures forall p :: p in q <==> p == q[0] || p in q[1..]
  {
  }

  lemma BackNoDup(q: seq<Pid>, p: Pid)
    requires NoDup(q) && p !in q
    ensures NoDup(q + [p])
  {
  }

  /** A new edge to another resource does not concern a semaphore or a mutex. */
  lemma NewEdgeElsewhere(s: State, pid: Pid, r: Resource)
    requires Inv(s) && pid !in s.waits
    ensures forall k :: k in s.sems && r != SemaphoreRes(k) ==> SemOk(k, s.sems[k], s.waits[pid := r])
    ensures forall k :: k in s.mutexes && r != MutexRes(k) ==> MutexOk(k, s.mutexes[k], s.waits[pid := r])
  {
    forall k | k in s.sems && r != SemaphoreRes(k) ensures SemOk(k, s.sems[k], s.waits[pid := r]) {
      assert SemOk(k, s.sems[k], s.waits);
    }
    forall k | k in s.mutexes && r != MutexRes(k) ensures MutexOk(k, s.mutexes[k], s.waits[pid := r]) {
      assert MutexOk(k, s.mutexes[k], s.waits);
    }
  }

  lemma Grabbed(id: nat, m: Mutex, waits: map<Pid, Resource>, pid: Pid)
    requires MutexOk(id, m, waits) && !m.locked && pid != INVALID_PID
    ensures MutexOk(id, Mutex(true, pid, m.waiting), waits)
  {
  }

  lemma Enqueued(id: nat, m: Mutex, waits: map<Pid, Resource>, pid: Pid)
    requires MutexOk(id, m, waits) && m.locked && m.owner != pid && pid !in waits
    ensures MutexOk(id, m.(waiting := m.waiting + [pid]), waits[pid := MutexRes(id)])
  {
    BackNoDup(m.waiting, pid);
  }

  lemma SemaphoreWaitStep(s: State, id: nat, pid: Pid)
    requires Inv(s) && Enabled(s, SemaphoreWait(id, pid))
    ensures Inv(Apply(s, SemaphoreWait(id, pid)))
  {
    hide MutexOk;
    if id in s.sems && s.sems[id].value <= 0 {
      assert SemOk(id, s.sems[id], s.waits);
      BackNoDup(s.sems[id].waiting, pid);
      NewEdgeElsewhere(s, pid, SemaphoreRes(id));
    }
  }

  lemma SemaphoreSignalStep(s: State, id: nat)
    requires Inv(s)
    ensures Inv(Apply(s, SemaphoreSignal(id)))
  {
    if id in s.sems && s.sems[id].waiting != [] {
      var s' := Apply(s, SemaphoreSignal(id));
      assert SemOk(id, s.sems[id], s.waits);
      FrontNoDup(s.sems[id].waiting);
      forall k | k in s.sems ensures SemOk(k, s'.sems[k], s'.waits) { assert SemOk(k, s.sems[k], s.waits); }
      forall k | k in s.mutexes ensures MutexOk(k, s.mutexes[k], s'.waits) { assert MutexOk(k, s.mutexes[k], s.waits); }
    }
  }

  lemma DestroySemaphoreStep(s: State, id: nat)
    requires Inv(s)
    ensures Inv(Apply(s, DestroySemaphore(id)))
  {
    if id in s.sems {
      var s' := Apply(s, DestroySemaphore(id));
      assert SemOk(id, s.sems[id], s.waits);
      forall k | k in s'.sems ensures SemOk(k, s'.sems[k], s'.waits) { assert SemOk(k, s.sems[k], s.waits); }
      forall k | k in s.mutexes ensures MutexOk(k, s.mutexes[k], s'.waits) { assert MutexOk(k, s.mutexes[k], s.waits); }
    }
  }

  lemma MutexLockStep(s: State, id: nat, pid: Pid)
    requires Inv(s) && Enabled(s, MutexLock(id, pid))
    ensures Inv(Apply(s, MutexLock(id, pid)))
  {
    hide SemOk, MutexOk;
    if id in s.mutexes {
      if !s.mutexes[id].locked {
        Grabbed(id, s.mutexes[id], s.waits, pid);
      } else if s.mutexes[id].owner != pid {
        NewEdgeElsewhere(s, pid, MutexRes(id));
        Enqueued(id, s.mutexes[id], s.waits, pid);
      }
    }
  }

  lemma MutexUnlockStep(s: State, id: nat, pid: Pid)
    requires Inv(s) && Enabled(s, MutexUnlock(id, pid))
    ensures Inv(Apply(s, MutexUnlock(id, pid)))
  {
    if id in s.mutexes && s.mutexes[id].owner == pid {
      var s' := Apply(s, MutexUnlock(id, pid));
      assert MutexOk(id, s.mutexes[id], s.waits);
      if s.mutexes[id].waiting != [] { FrontNoDup(s.mutexes[id].waiting); }
      forall k | k in s.sems ensures SemOk(k, s.sems[k], s'.waits) { assert SemOk(k, s.sems[k], s.waits); }
      forall k | k in s.mutexes ensures MutexOk(k, s'.mutexes[k], s'.waits) { assert MutexOk(k, s.mutexes[k], s.waits); }
    }
  }

  lemma DestroyMutexStep(s: State, id: nat)
    requires Inv(s)
    ensures Inv(Apply(s, DestroyMutex(id)))
  {
    if id in s.mutexes {
      var s' := Apply(s, DestroyMutex(id));
      assert MutexOk(id, s.mutexes[id], s.waits);
      forall k | k in s.sems ensures SemOk(k, s.sems[k], s'.waits) { assert SemOk(k, s.sems[k], s.waits); }
      forall k | k in s'.mutexes ensures MutexOk(k, s'.mutexes[k], s'.waits) { assert MutexOk(k, s.mutexes[k], s.waits); }
    }
  }

  lemma CleanMutexOk(s: State, pid: Pid, id: nat)
    requires Inv(s) && id in s.mutexes && pid != INVALID_PID
    ensures MutexOk(id, CleanMutex(s.mutexes[id], pid), s.waits - Heirs(s.mutexes, pid) - {pid})
  {
    var m := s.mutexes[id];
    var waits' := s.waits - Heirs(s.mutexes, pid) - {pid};
    assert MutexOk(id, m, s.waits);
    var m1 := if m.owner == pid then Passed(m) else m;
    if m.owner == pid && m.waiting != [] { FrontNoDup(m.waiting); }
    WithoutElems(m1.waiting, pid);
    WithoutNoDup(m1.waiting, pid);
    forall p ensures p in Without(m1.waiting, pid) <==> p in waits' && waits'[p] == MutexRes(id) {
      HeirWaits(s, pid, p, id);
    }
  }

  /** An heir waits for a mutex that pid owns. */
  lemma HeirWaits(s: State, pid: Pid, p: Pid, id: nat)
    requires Inv(s) && id in s.mutexes
    ensures p in Heirs(s.mutexes, pid) && p in s.waits && s.waits[p] == MutexRes(id) ==>
              s.mutexes[id].owner == pid && s.mutexes[id].waiting != [] && p == s.mutexes[id].waiting[0]
    ensures p in Heirs(s.mutexes, pid) ==> p in s.waits && s.waits[p].MutexRes?
  {
    if p in Heirs(s.mutexes, pid) {
      var k :| k in s.mutexes && s.mutexes[k].owner == pid && s.mutexes[k].waiting != [] && p == s.mutexes[k].waiting[0];
      assert MutexOk(k, s.mutexes[k], s.waits);
      assert p in s.mutexes[k].waiting;
    }
  }

  lemma CleanSemOk(s: State, pid: Pid, id: nat)
    requires Inv(s) && id in s.sems
    ensures SemOk(id, s.sems[id].(waiting := Without(s.sems[id].waiting, pid)), s.waits - Heirs(s.mutexes, pid) - {pid})
  {
    var sem, waits' := s.sems[id], s.waits - Heirs(s.mutexes, pid) - {pid};
    assert SemOk(id, sem, s.waits);
    WithoutElems(sem.waiting, pid);
    WithoutNoDup(sem.waiting, pid);
    forall p ensures p in Without(sem.waiting, pid) <==> p in waits' && waits'[p] == SemaphoreRes(id) {
      if p in Heirs(s.mutexes, pid) {
        var k :| k in s.mutexes && s.mutexes[k].owner == pid && s.mutexes[k].waiting != [] && p == s.mutexes[k].waiting[0];
        HeirWaits(s, pid, p, k);
      }
    }
  }

  /** Every operation called by unblocked processes keeps the edges honest. */
  lemma StepKeepsInv(s: State, op: Op)
    requires Inv(s) && Enabled(s, op)
    ensures Inv(Apply(s, op))
  {
    match op
    case CleanupProcess(pid) =>
      forall id | id in s.sems ensures SemOk(id, s.sems[id].(waiting := Without(s.sems[id].waiting, pid)), s.waits - Heirs(s.mutexes, pid) - {pid}) {
        CleanSemOk(s, pid, id);
      }
      forall id | id in s.mutexes ensures MutexOk(id, CleanMutex(s.mutexes[id], pid), s.waits - Heirs(s.mutexes, pid) - {pid}) {
        CleanMutexOk(s, pid, id);
      }
    case SemaphoreWait(id, pid) => SemaphoreWaitStep(s, id, pid);
    case SemaphoreSignal(id) => SemaphoreSignalStep(s, id);
    case DestroySemaphore(id) => DestroySemaphoreStep(s, id);
    case MutexLock(id, pid) => MutexLockStep(s, id, pid);
    case MutexUnlock(id, pid) => MutexUnlockStep(s, id, pid);
    case DestroyMutex(id) => DestroyMutexStep(s, id);
    case _ =>
  }

  // ---- The wait-for relation -----------------------------------------------------------------

  /** The process that p waits for, through a locked mutex; INVALID_PID if none. */
  function Blocker(s: State, p: Pid): Pid {
    if p in s.waits && s.waits[p].MutexRes? && s.waits[p].id in s.mutexes && s.mutexes[s.waits[p].id].locked
    then s.mutexes[s.waits[p].id].owner
    else INVALID_PID
  }

  predicate WaitsFor(s: State, p: Pid, q: Pid) {
    Blocker(s, p) == q && q != INVALID_PID
  }

  /** Each process in w waits for the next. */
  ghost predicate IsWalk(s: State, w: seq<Pid>) {
    forall i, j :: 0 <= i < |w| && j == i + 1 < |w| ==> WaitsFor(s, w[i], w[j])
  }

  /** A walk whose last process occurs earlier in it. */
  ghost predicate IsLasso(s: State, w: seq<Pid>) {
    |w| >= 2 && IsWalk(s, w) && w[|w| - 1] in w[..|w| - 1]
  }

  ghost predicate IsCycle(s: State, w: seq<Pid>) {
    |w| >= 2 && IsWalk(s, w) && w[0] == w[|w| - 1]
  }

  ghost predicate Deadlocked(s: State) {
    exists w :: IsCycle(s, w)
  }

  lemma LassoHasCycle(s: State, w: seq<Pid>)
    requires IsLasso(s, w)
    ensures Deadlocked(s)
  {
    var n := |w| - 1;
    var i :| 0 <= i < n && w[i] == w[n];
    var c := w[i..];
    assert forall k :: 0 <= k < |c| ==> c[k] == w[i + k];
    assert IsCycle(s, c);
  }

  // ---- A deadlock is stable ------------------------------------------------------------------

  /** The operation neither cleans up a process of w nor destroys a mutex one of them waits for. */
  predicate Spares(s: State, op: Op, w: seq<Pid>) {
    match op
    case CleanupProcess(pid) => pid !in w
    case DestroyMutex(id) => forall i :: 0 <= i < |w| && w[i] in s.waits ==> s.waits[w[i]] != MutexRes(id)
    case _ => true
  }

  lemma CycleWaits(s: State, w: seq<Pid>, i: nat)
    requires Inv(s) && IsCycle(s, w) && i < |w|
    ensures w[i] in s.waits && s.waits[w[i]].MutexRes? && s.waits[w[i]].id in s.mutexes
    ensures Blocker(s, w[i]) in w
  {
    if i == |w| - 1 { CycleWaits(s, w, 0); } else { assert WaitsFor(s, w[i], w[i + 1]); }
  }

  /** A process that waits for a mutex whose owner waits too. */
  ghost predicate Held(s: State, p: Pid) {
    && p in s.waits && s.waits[p].MutexRes? && s.waits[p].id in s.mutexes
    && var m := s.mutexes[s.waits[p].id]; p in m.waiting && m.locked && m.owner in s.waits && m.owner != INVALID_PID
  }

  lemma CycleHeld(s: State, w: seq<Pid>, i: nat)
    requires Inv(s) && IsCycle(s, w) && i < |w|
    ensures Held(s, w[i]) && s.mutexes[s.waits[w[i]].id].owner in w
  {
    CycleWaits(s, w, i);
    var id := s.waits[w[i]].id;
    assert MutexOk(id, s.mutexes[id], s.waits);
    var k :| 0 <= k < |w| && w[k] == s.mutexes[id].owner;
    CycleWaits(s, w, k);
  }

  /** A signal or the end of a semaphore takes no mutex edge. */
  lemma SemaphoresKeep(s: State, op: Op, p: Pid)
    requires Inv(s) && Held(s, p) && (op.SemaphoreSignal? || op.DestroySemaphore?)
    ensures Blocker(Apply(s, op), p) == Blocker(s, p)
  {
    hide NoDup, MutexOk;
    if op.id in s.sems {
      assert SemOk(op.id, s.sems[op.id], s.waits);
      if s.sems[op.id].waiting != [] { assert s.sems[op.id].waiting[0] in s.sems[op.id].waiting; }
    }
  }

  /** An unlock by a process that does not wait, or the end of another mutex, keeps the edge. */
  lemma MutexesKeep(s: State, op: Op, p: Pid)
    requires Inv(s) && Enabled(s, op) && Held(s, p) && (op.MutexUnlock? || op.DestroyMutex?)
    requires op.DestroyMutex? ==> s.waits[p] != MutexRes(op.id)
    ensures Blocker(Apply(s, op), p) == Blocker(s, p)
  {
    hide NoDup, SemOk;
    if op.id in s.mutexes {
      assert MutexOk(op.id, s.mutexes[op.id], s.waits);
      if s.mutexes[op.id].waiting != [] { assert s.mutexes[op.id].waiting[0] in s.mutexes[op.id].waiting; }
    }
  }

  lemma CleanupKeeps(s: State, pid: Pid, p: Pid)
    requires Inv(s) && Held(s, p) && pid != p && pid != s.mutexes[s.waits[p].id].owner
    ensures Blocker(Apply(s, CleanupProcess(pid)), p) == Blocker(s, p)
  {
    hide NoDup, SemOk, MutexOk;
    HeirWaits(s, pid, p, s.waits[p].id);
    assert p !in Heirs(s.mutexes, pid);
  }

  /** A process of the cycle keeps its edge, and its mutex keeps its owner. */
  lemma CycleEdgeKept(s: State, op: Op, w: seq<Pid>, i: nat)
    requires Inv(s) && Enabled(s, op) && IsCycle(s, w) && Spares(s, op, w) && i < |w|
    ensures Blocker(Apply(s, op), w[i]) == Blocker(s, w[i])
  {
    hide NoDup, SemOk, MutexOk, IsCycle;
    CycleHeld(s, w, i);
    match op
    case SemaphoreSignal(_) => SemaphoresKeep(s, op, w[i]);
    case DestroySemaphore(_) => SemaphoresKeep(s, op, w[i]);
    case MutexUnlock(_, _) => MutexesKeep(s, op, w[i]);
    case DestroyMutex(_) => MutexesKeep(s, op, w[i]);
    case CleanupProcess(pid) => CleanupKeeps(s, pid, w[i]);
    case _ =>
  }

  /** A mutex wait cycle survives every operation that spares it. */
  lemma CycleSurvives(s: State, op: Op, w: seq<Pid>)
    requires Inv(s) && Enabled(s, op) && IsCycle(s, w) && Spares(s, op, w)
    ensures IsCycle(Apply(s, op), w)
  {
    forall i, j | 0 <= i < |w| && j == i + 1 < |w| ensures WaitsFor(Apply(s, op), w[i], w[j]) {
      assert WaitsFor(s, w[i], w[j]);
      CycleEdgeKept(s, op, w, i);
    }
  }

  function Run(s: State, ops: seq<Op>): State
    decreases |ops|
  {
    if ops == [] then s else Run(Apply(s, ops[0]), ops[1..])
  }

  ghost predicate RunEnabled(s: State, ops: seq<Op>)
    decreases |ops|
  {
    ops == [] || (Enabled(s, ops[0]) && RunEnabled(Apply(s, ops[0]), ops[1..]))
  }

  ghost predicate RunSpares(s: State, ops: seq<Op>, w: seq<Pid>)
    decreases |ops|
  {
    ops == [] || (Spares(s, ops[0], w) && RunSpares(Apply(s, ops[0]), ops[1..], w))
  }

  /** Over every run: edges stay honest, and a deadlock stays a deadlock, with the same cycle,
      until a participant is cleaned up or one of its mutexes destroyed. */
  lemma {:induction false} DeadlockIsStable(s: State, ops: seq<Op>, w: seq<Pid>)
    requires Inv(s) && RunEnabled(s, ops)
    ensures Inv(Run(s, ops))
    ensures IsCycle(s, w) && RunSpares(s, ops, w) ==> IsCycle(Run(s, ops), w) && Deadlocked(Run(s, ops))
    decreases |ops|
  {
    if ops != [] {
      StepKeepsInv(s, ops[0]);
      if IsCycle(s, w) && RunSpares(s, ops, w) { CycleSurvives(s, ops[0], w); }
      DeadlockIsStable(Apply(s, ops[0]), ops[1..], w);
    }
  }
}
