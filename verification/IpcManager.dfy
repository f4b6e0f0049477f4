/** The IPC manager of kernel/src/ipc.cpp as it runs: operations that update its tables and
    queues in place, and the two depth-first searches for a deadlock. */
module IpcManager {
  import opened Collections
  import opened Ipc
  import opened IpcLaws

  // ---- Walks that end ---------------------------------------------------------------------------

  /** Following Blocker from p makes at least n steps. */
  ghost predicate Walks(s: State, p: Pid, n: nat)
    decreases n
  {
    n == 0 || (Blocker(s, p) != INVALID_PID && Walks(s, Blocker(s, p), n - 1))
  }

  /** Following Blocker from p comes to a process that waits for nobody. */
  ghost predicate Ends(s: State, p: Pid) {
    exists n: nat :: !Walks(s, p, n)
  }

  lemma EndsBefore(s: State, p: Pid)
    requires Blocker(s, p) == INVALID_PID || Ends(s, Blocker(s, p))
    ensures Ends(s, p)
  {
    if Blocker(s, p) == INVALID_PID {
      assert !Walks(s, p, 1);
    } else {
      var n: nat :| !Walks(s, Blocker(s, p), n);
      assert !Walks(s, p, n + 1);
    }
  }

  /** From a process on a cycle the walk never ends. */
  lemma {:induction false} CycleWalks(s: State, w: seq<Pid>, i: nat, n: nat)
    requires IsCycle(s, w) && i < |w| - 1
    ensures Walks(s, w[i], n)
    decreases n
  {
    if n > 0 {
      assert WaitsFor(s, w[i], w[i + 1]);
      if i + 1 == |w| - 1 { CycleWalks(s, w, 0, n - 1); } else { CycleWalks(s, w, i + 1, n - 1); }
    }
  }

  lemma NoCycleIfAllEnd(s: State)
    requires forall p :: p in s.waits ==> Ends(s, p)
    ensures !Deadlocked(s)
  {
    forall w ensures !IsCycle(s, w) {
      if IsCycle(s, w) {
        assert WaitsFor(s, w[0], w[1]);
        var n: nat :| !Walks(s, w[0], n);
        CycleWalks(s, w, 0, n);
        assert false;
      }
    }
  }

  /** Every process the search can reach. */
  ghost function Universe(s: State): set<Pid> {
    s.waits.Keys + set id | id in s.mutexes :: s.mutexes[id].owner
  }

  lemma BlockerInUniverse(s: State, p: Pid)
    requires Blocker(s, p) != INVALID_PID
    ensures Blocker(s, p) in Universe(s)
  {
  }

  lemma {:induction false} Smaller<T>(a: set<T>, b: set<T>)
    requires a < b
    ensures |a| < |b|
  {
    assert !(b <= a);
    var x :| x in b && x !in a;
    Subset(a, b - {x});
  }

  /** The search's stack is the walk by which it came, and what it has left behind ends. */
  ghost predicate Searching(s: State, visited: set<Pid>, inStack: set<Pid>, stack: seq<Pid>) {
    && inStack == Elems(stack) && inStack <= visited
    && forall p :: p in visited && p !in inStack ==> Ends(s, p)
  }

  /** Entering a process and leaving it again, when its walk ends. */
  lemma Enters(s: State, visited: set<Pid>, inStack: set<Pid>, stack: seq<Pid>, p: Pid)
    requires Searching(s, visited, inStack, stack) && p !in visited
    ensures Searching(s, visited + {p}, inStack + {p}, stack + [p]) && p !in inStack
  {
    assert Elems(stack + [p]) == inStack + {p};
  }

  lemma Leaves(s: State, visited: set<Pid>, inStack: set<Pid>, stack: seq<Pid>, p: Pid)
    requires Searching(s, visited, inStack + {p}, stack + [p]) && p !in inStack && inStack == Elems(stack) && Ends(s, p)
    ensures Searching(s, visited, inStack, stack)
  {
  }

  /** What was left behind ends. */
  lemma BehindEnds(s: State, visited: set<Pid>, inStack: set<Pid>, stack: seq<Pid>, p: Pid)
    requires Searching(s, visited, inStack, stack) && p in visited && p !in inStack
    ensures Ends(s, p)
  {
  }

  lemma StackIs(s: State, visited: set<Pid>, inStack: set<Pid>, stack: seq<Pid>)
    requires Searching(s, visited, inStack, stack)
    ensures inStack == Elems(stack) && inStack <= visited
  {
  }

  lemma PushWalk(s: State, stack: seq<Pid>, p: Pid, q: Pid)
    requires IsWalk(s, stack + [p]) && WaitsFor(s, p, q)
    ensures IsWalk(s, stack + [p] + [q])
  {
    var w, w' := stack + [p], stack + [p] + [q];
    forall i, j | 0 <= i < |w'| && j == i + 1 < |w'| ensures WaitsFor(s, w'[i], w'[j]) {
      if j < |w| { assert w'[i] == w[i] && w'[j] == w[j]; }
    }
  }

  lemma ClosesLasso(s: State, stack: seq<Pid>, owner: Pid)
    requires stack != [] && IsWalk(s, stack + [owner]) && owner in Elems(stack)
    ensures IsLasso(s, stack + [owner])
  {
    assert (stack + [owner])[..|stack|] == stack;
  }

  class Manager {
    var sems: map<nat, Semaphore>
    var mutexes: map<nat, Mutex>
    var waits: map<Pid, Resource>
    var nextSem: nat
    var nextMutex: nat

    function View(): State
      reads this
    {
      State(sems, mutexes, waits, nextSem, nextMutex)
    }

    constructor ()
      ensures View() == State(map[], map[], map[], 1, 1) && Inv(View())
    {
      sems, mutexes, waits, nextSem, nextMutex := map[], map[], map[], 1, 1;
    }

    // ---- Semaphores -------------------------------------------------------------------------------

    method CreateSemaphore(initial: int) returns (id: nat)
      modifies this
      ensures View() == Apply(old(View()), Op.CreateSemaphore(initial)) && id == old(nextSem)
      ensures View() == old(View()).(sems := old(sems)[id := Semaphore(initial, [])], nextSem := id + 1)
    {
      id := nextSem;
      nextSem := nextSem + 1;
      sems := sems[id := Semaphore(initial, [])];
    }

    /** Takes a unit, or queues the process at the end with an edge. */
    method SemaphoreWait(id: nat, pid: Pid) returns (acquired: bool)
      modifies this`sems, this`waits
      ensures View() == Apply(old(View()), Op.SemaphoreWait(id, pid))
      ensures acquired <==> id in old(sems) && old(sems)[id].value > 0
      ensures id !in old(sems) ==> View() == old(View())
      ensures id in old(sems) ==> id in sems && sems == old(sems)[id := sems[id]]
      ensures acquired ==> sems[id].value == old(sems)[id].value - 1 && sems[id].waiting == old(sems)[id].waiting && waits == old(waits)
      ensures id in old(sems) && !acquired ==>
                && sems[id].value == old(sems)[id].value && sems[id].waiting == old(sems)[id].waiting + [pid]
                && waits == old(waits)[pid := SemaphoreRes(id)]
    {
      if id !in sems { return false; }
      var sem := sems[id];
      if sem.value > 0 {
        sems := sems[id := sem.(value := sem.value - 1)];
        return true;
      }
      sems := sems[id := sem.(waiting := sem.waiting + [pid])];
      waits := waits[pid := SemaphoreRes(id)];
      return false;
    }

    /** Hands a unit to the process that queued first, or keeps it. */
    method SemaphoreSignal(id: nat) returns (ok: bool)
      modifies this`sems, this`waits
      ensures View() == Apply(old(View()), Op.SemaphoreSignal(id)) && ok == (id in old(sems))
      ensures !ok ==> View() == old(View())
      ensures ok ==> id in sems && sems == old(sems)[id := sems[id]]
      ensures ok && old(sems)[id].waiting == [] ==>
                sems[id].value == old(sems)[id].value + 1 && sems[id].waiting == [] && waits == old(waits)
      ensures ok && old(sems)[id].waiting != [] ==>
                && sems[id].value == old(sems)[id].value && old(sems)[id].waiting == [old(sems)[id].waiting[0]] + sems[id].waiting
                && waits == old(waits) - {old(sems)[id].waiting[0]}
    {
      if id !in sems { return false; }
      var sem := sems[id];
      if sem.waiting != [] {
        var woken := sem.waiting[0];
        sems := sems[id := sem.(waiting := sem.waiting[1..])];
        waits := waits - {woken};
        return true;
      }
      sems := sems[id := sem.(value := sem.value + 1)];
      return true;
    }

    /** The loop that drops the edge of every process in a queue. */
    method RemoveWaitEdges(q: seq<Pid>)
      modifies this`waits
      ensures waits == old(waits) - Elems(q)
    {
      for i := 0 to |q|
        invariant waits == old(waits) - Elems(q[..i])
      {
        assert q[..i + 1] == q[..i] + [q[i]];
        assert Elems(q[..i + 1]) == Elems(q[..i]) + {q[i]};
        waits := waits - {q[i]};
      }
      assert q[..|q|] == q;
    }

    method DestroySemaphore(id: nat)
      modifies this`sems, this`waits
      ensures View() == Apply(old(View()), Op.DestroySemaphore(id)) && sems == old(sems) - {id}
      ensures waits == old(waits) - set p | id in old(sems) && p in old(sems)[id].waiting
    {
      if id in sems {
        RemoveWaitEdges(sems[id].waiting);
        sems := sems - {id};
      }
    }

    // ---- Mutexes -----------------------------------------------------------------------------------

    method CreateMutex() returns (id: nat)
      modifies this
      ensures View() == Apply(old(View()), Op.CreateMutex) && id == old(nextMutex)
      ensures View() == old(View()).(mutexes := old(mutexes)[id := Mutex(false, INVALID_PID, [])], nextMutex := id + 1)
    {
      id := nextMutex;
      nextMutex := nextMutex + 1;
      mutexes := mutexes[id := Mutex(false, INVALID_PID, [])];
    }

    /** Makes the process the holder, lets the holder in again, or queues the process at the end. */
    method MutexLock(id: nat, pid: Pid) returns (acquired: bool)
      modifies this`mutexes, this`waits
      ensures View() == Apply(old(View()), Op.MutexLock(id, pid))
      ensures acquired <==> id in mutexes && mutexes[id].locked && mutexes[id].owner == pid
      ensures acquired <==> id in old(mutexes) && (!old(mutexes)[id].locked || old(mutexes)[id].owner == pid)
      ensures id !in old(mutexes) ==> View() == old(View())
      ensures id in old(mutexes) ==> id in mutexes && mutexes == old(mutexes)[id := mutexes[id]]
      ensures acquired ==> mutexes[id].waiting == old(mutexes)[id].waiting && waits == old(waits)
      ensures id in old(mutexes) && !acquired ==>
                && mutexes[id] == Mutex(true, old(mutexes)[id].owner, old(mutexes)[id].waiting + [pid])
                && waits == old(waits)[pid := MutexRes(id)]
    {
      if id !in mutexes { return false; }
      var m := mutexes[id];
      if !m.locked {
        mutexes := mutexes[id := m.(locked := true, owner := pid)];
        return true;
      }
      if m.owner == pid {
        assert mutexes[id := m] == mutexes;
        return true;
      }
      mutexes := mutexes[id := m.(waiting := m.waiting + [pid])];
      waits := waits[pid := MutexRes(id)];
      return false;
    }

    /** Hands the mutex to the process that queued first, or unlocks it. */
    method MutexUnlock(id: nat, pid: Pid) returns (ok: bool)
      modifies this`mutexes, this`waits
      ensures View() == Apply(old(View()), Op.MutexUnlock(id, pid))
      ensures ok <==> id in old(mutexes) && old(mutexes)[id].owner == pid
      ensures !ok ==> View() == old(View())
      ensures ok ==> id in mutexes && mutexes == old(mutexes)[id := mutexes[id]]
      ensures ok && old(mutexes)[id].waiting == [] ==>
                !mutexes[id].locked && mutexes[id].owner == INVALID_PID && mutexes[id].waiting == [] && waits == old(waits)
      ensures ok && old(mutexes)[id].waiting != [] ==>
                && mutexes[id].locked == old(mutexes)[id].locked
                && old(mutexes)[id].waiting == [mutexes[id].owner] + mutexes[id].waiting && waits == old(waits) - {mutexes[id].owner}
    {
      if id !in mutexes { return false; }
      var m := mutexes[id];
      if m.owner != pid { return false; }
      if m.waiting != [] {
        var next := m.waiting[0];
        waits := waits - {next};
        mutexes := mutexes[id := m.(waiting := m.waiting[1..], owner := next)];
      } else {
        mutexes := mutexes[id := m.(locked := false, owner := INVALID_PID)];
      }
      return true;
    }

    method DestroyMutex(id: nat)
      modifies this`mutexes, this`waits
      ensures View() == Apply(old(View()), Op.DestroyMutex(id)) && mutexes == old(mutexes) - {id}
      ensures waits == old(waits) - set p | id in old(mutexes) && p in old(mutexes)[id].waiting
    {
      if id in mutexes {
        RemoveWaitEdges(mutexes[id].waiting);
        mutexes := mutexes - {id};
      }
    }

    // ---- cleanupProcess ------------------------------------------------------------------------------

    method CleanupSemaphores(pid: Pid)
      modifies this`sems
      ensures sems == map id | id in old(sems) :: old(sems)[id].(waiting := Without(old(sems)[id].waiting, pid))
    {
      var todo := sems.Keys;
      while todo != {}
        invariant sems.Keys == old(sems).Keys && todo <= sems.Keys
        invariant forall id :: id in todo ==> sems[id] == old(sems)[id]
        invariant forall id :: id in sems && id !in todo ==> sems[id] == old(sems)[id].(waiting := Without(old(sems)[id].waiting, pid))
        decreases todo
      {
        var id :| id in todo;
        sems := sems[id := sems[id].(waiting := Without(sems[id].waiting, pid))];
        todo := todo - {id};
      }
    }

    /** The iteration order over the mutexes is any order. */
    method CleanupMutexes(pid: Pid)
      modifies this`mutexes, this`waits
      ensures mutexes == map id | id in old(mutexes) :: CleanMutex(old(mutexes)[id], pid)
      ensures waits == old(waits) - Heirs(old(mutexes), pid)
    {
      hide HeirsOf, HeirOf, CleanMutex;
      var todo := mutexes.Keys;
      ghost var done: set<nat> := {};
      HeirsOfEnds(mutexes, pid);
      while todo != {}
        invariant mutexes.Keys == old(mutexes).Keys == done + todo && done !! todo
        invariant forall id :: id in todo ==> mutexes[id] == old(mutexes)[id]
        invariant forall id :: id in done ==> mutexes[id] == CleanMutex(old(mutexes)[id], pid)
        invariant waits == old(waits) - HeirsOf(old(mutexes), pid, done)
        decreases todo
      {
        var id :| id in todo;
        HeirsOfStep(old(mutexes), pid, done, id);
        CleanOne(id, pid);
        todo, done := todo - {id}, done + {id};
      }
    }

    /** One mutex: released if the process owns it, and the process leaves its queue. */
    method CleanOne(id: nat, pid: Pid)
      requires id in mutexes
      modifies this`mutexes, this`waits
      ensures mutexes == old(mutexes)[id := CleanMutex(old(mutexes)[id], pid)]
      ensures waits == old(waits) - HeirOf(old(mutexes)[id], pid)
    {
      if mutexes[id].owner == pid {
        var ok := MutexUnlock(id, pid);
      }
      mutexes := mutexes[id := mutexes[id].(waiting := Without(mutexes[id].waiting, pid))];
    }

    /** The process leaves every queue and hands on every mutex it owns. */
    method CleanupProcess(pid: Pid)
      modifies this`sems, this`mutexes, this`waits
      ensures View() == Apply(old(View()), Op.CleanupProcess(pid))
      ensures old(Inv(View())) && pid != INVALID_PID ==> Cleaned(old(View()), View(), pid)
    {
      hide Heirs, CleanMutex, Without, Inv, Cleaned;
      if Inv(View()) && pid != INVALID_PID { CleanupLaw(View(), pid); }
      CleanupSemaphores(pid);
      CleanupMutexes(pid);
      waits := waits - {pid};
    }

    // ---- Deadlock detection --------------------------------------------------------------------------

    /** dfsDeadlockPath; dfsDeadlock is the same search without the path. `stack` is the walk by
        which the search came to pid. Found, the path is a lasso; not found, pid's walk ends. */
    method DfsDeadlockPath(pid: Pid, visited0: set<Pid>, inStack0: set<Pid>, path0: seq<Pid>)
      returns (found: bool, visited: set<Pid>, inStack: set<Pid>, path: seq<Pid>)
      requires pid in Universe(View()) && pid !in visited0 && visited0 <= Universe(View())
      requires Searching(View(), visited0, inStack0, path0) && IsWalk(View(), path0 + [pid])
      ensures found ==> IsLasso(View(), path)
      ensures !found ==>
                && Searching(View(), visited, inStack, path)
                && path == path0 && inStack == inStack0
                && visited0 + {pid} <= visited <= Universe(View())
      decreases |Universe(View()) - visited0|
    {
      hide Ends, IsLasso, IsWalk, Searching, Elems, Universe;
      ghost var s := View();
      visited, inStack, path := visited0 + {pid}, inStack0 + {pid}, path0 + [pid];
      StackIs(s, visited0, inStack0, path0);
      Enters(s, visited0, inStack0, path0, pid);
      StackIs(s, visited, inStack, path);
      if pid in waits {
        var owner := Blocker(View(), pid);
        if owner != INVALID_PID {
          BlockerInUniverse(s, pid);
          PushWalk(s, path0, pid, owner);
          if owner in inStack {
            path := path + [owner];
            ClosesLasso(s, path0 + [pid], owner);
            return true, visited, inStack, path;
          }
          if owner !in visited {
            Smaller(Universe(s) - visited, Universe(s) - visited0);
            found, visited, inStack, path := DfsDeadlockPath(owner, visited, inStack, path);
            if found { return; }
          }
          BehindEnds(s, visited, inStack, path, owner);
        }
      }
      EndsBefore(s, pid);
      Leaves(s, visited, inStack0, path0, pid);
      inStack := inStack - {pid};
      path := path[..|path| - 1];
      assert path == path0 && inStack == inStack0;
      return false, visited, inStack, path;
    }

    /** getDeadlockedProcesses, for every order of the wait graph: empty exactly when no process
        waits in a cycle, else a walk whose last process occurs earlier in it. */
    method GetDeadlockedProcesses() returns (result: seq<Pid>)
      ensures result == [] <==> !Deadlocked(View())
      ensures result != [] ==> IsLasso(View(), result)
    {
      ghost var s := View();
      var visited: set<Pid> := {};
      var inStack: set<Pid> := {};
      var todo := waits.Keys;
      while todo != {}
        invariant todo <= waits.Keys && visited <= Universe(s)
        invariant Searching(s, visited, inStack, [])
        invariant forall p :: p in waits && p !in todo ==> p in visited
        decreases todo
      {
        var pid :| pid in todo;
        todo := todo - {pid};
        if pid !in visited {
          var found, visited', inStack', path := DfsDeadlockPath(pid, visited, inStack, []);
          if found {
            LassoHasCycle(s, path);
            return path;
          }
          visited, inStack := visited', inStack';
        }
      }
      NoCycleIfAllEnd(s);
      return [];
    }

    /** dfsDeadlock: the search without the path. */
    method DfsDeadlock(pid: Pid, visited0: set<Pid>, inStack0: set<Pid>, ghost stack: seq<Pid>)
      returns (found: bool, visited: set<Pid>, inStack: set<Pid>)
      requires pid in Universe(View()) && pid !in visited0 && visited0 <= Universe(View())
      requires Searching(View(), visited0, inStack0, stack) && IsWalk(View(), stack + [pid])
      ensures found ==> Deadlocked(View())
      ensures !found ==>
                && Searching(View(), visited, inStack, stack) && inStack == inStack0
                && visited0 + {pid} <= visited <= Universe(View())
      decreases |Universe(View()) - visited0|
    {
      hide Ends, IsLasso, IsWalk, Searching, Elems, Universe, Deadlocked;
      ghost var s := View();
      visited, inStack := visited0 + {pid}, inStack0 + {pid};
      StackIs(s, visited0, inStack0, stack);
      Enters(s, visited0, inStack0, stack, pid);
      StackIs(s, visited, inStack, stack + [pid]);
      if pid in waits {
        var owner := Blocker(View(), pid);
        if owner != INVALID_PID {
          BlockerInUniverse(s, pid);
          PushWalk(s, stack, pid, owner);
          if owner in inStack {
            ClosesLasso(s, stack + [pid], owner);
            LassoHasCycle(s, stack + [pid] + [owner]);
            return true, visited, inStack;
          }
          if owner !in visited {
            Smaller(Universe(s) - visited, Universe(s) - visited0);
            found, visited, inStack := DfsDeadlock(owner, visited, inStack, stack + [pid]);
            if found { return; }
          }
          BehindEnds(s, visited, inStack, stack + [pid], owner);
        }
      }
      EndsBefore(s, pid);
      Leaves(s, visited, inStack0, stack, pid);
      inStack := inStack - {pid};
      assert inStack == inStack0;
      return false, visited, inStack;
    }

    /** detectDeadlock is exact, for every order of the wait graph. */
    method DetectDeadlock() returns (found: bool)
      ensures found <==> Deadlocked(View())
    {
      ghost var s := View();
      var visited: set<Pid> := {};
      var inStack: set<Pid> := {};
      var todo := waits.Keys;
      while todo != {}
        invariant todo <= waits.Keys && visited <= Universe(s)
        invariant Searching(s, visited, inStack, [])
        invariant forall p :: p in waits && p !in todo ==> p in visited
        decreases todo
      {
        var pid :| pid in todo;
        todo := todo - {pid};
        if pid !in visited {
          var cycle, visited', inStack' := DfsDeadlock(pid, visited, inStack, []);
          if cycle { return true; }
          visited, inStack := visited', inStack';
        }
      }
      NoCycleIfAllEnd(s);
      return false;
    }
  }

  function HeirsOf(mutexes: map<nat, Mutex>, pid: Pid, ids: set<nat>): set<Pid> {
    set id | id in ids && id in mutexes && mutexes[id].owner == pid && mutexes[id].waiting != [] :: mutexes[id].waiting[0]
  }

  /** The process that receives one mutex, if any. */
  function HeirOf(m: Mutex, pid: Pid): set<Pid> { if m.owner == pid && m.waiting != [] then {m.waiting[0]} else {} }

  lemma HeirsOfEnds(mutexes: map<nat, Mutex>, pid: Pid)
    ensures HeirsOf(mutexes, pid, {}) == {} && HeirsOf(mutexes, pid, mutexes.Keys) == Heirs(mutexes, pid)
  {
  }

  lemma HeirsOfStep(mutexes: map<nat, Mutex>, pid: Pid, ids: set<nat>, id: nat)
    requires id in mutexes
    ensures HeirsOf(mutexes, pid, ids + {id}) == HeirsOf(mutexes, pid, ids) + HeirOf(mutexes[id], pid)
  {
  }
}
