/** cow_clone_directory, cow_handle_fault, map_page, destroy_address_space and the heap and
    private demand-paging branches of handle_page_fault, as the code runs them: loops over
    directory and table slots that update entries, counts and frames in place. Each is proved
    to leave exactly the state that CowSteps describes. */
module CowKernel {
  import opened Collections
  import opened PhysicalMemory
  import opened CowSpec
  import opened CowSteps
  import opened CowRuns

  // ---- Partial progress of the loops ---------------------------------------------------------

  /** The parent's entries when the pages below b have been shared. */
  function CowBelow(ptes: Pages, b: nat): Pages {
    map p | p in ptes :: if p < b then CowOf(ptes[p]) else ptes[p]
  }

  /** The child's entries at that point. */
  function ChildBelow(ptes: Pages, b: nat): Pages {
    map p | p in ptes && p < b :: CowOf(ptes[p])
  }

  /** The frames named by pages in [lo, hi). */
  function FramesIn(ptes: Pages, lo: nat, hi: nat): set<nat> {
    set p | p in ptes && lo <= p < hi :: ptes[p].frame
  }

  /** The parent's entries when the rollback has undone the pages below b. */
  function UndoneBelow(ptes: Pages, b: nat, top: nat): Pages {
    map p | p in ptes :: if p < b then UndoOf(ptes[p]) else if p < top then CowOf(ptes[p]) else ptes[p]
  }

  lemma CowBelowStep(ptes: Pages, b: nat)
    ensures CowBelow(ptes, b + 1) == if b in ptes then CowBelow(ptes, b)[b := CowOf(ptes[b])] else CowBelow(ptes, b)
    ensures ChildBelow(ptes, b + 1) == if b in ptes then ChildBelow(ptes, b)[b := CowOf(ptes[b])] else ChildBelow(ptes, b)
    ensures b in ptes ==> b in CowBelow(ptes, b) && CowBelow(ptes, b)[b] == ptes[b]
    ensures b in ptes && !ptes[b].writable ==> CowBelow(ptes, b + 1) == CowBelow(ptes, b)
    ensures b !in ptes ==> b !in CowBelow(ptes, b)
  {
  }

  lemma SetPagesTwice(dirs: Dirs, d: nat, x: Pages, y: Pages)
    requires d in dirs
    ensures d in SetPages(dirs, d, x) && d in SetPages(dirs, d, y)
    ensures SetPages(SetPages(dirs, d, x), d, y) == SetPages(dirs, d, y)
    ensures SetPages(dirs, d, dirs[d].ptes) == dirs
    ensures SetPages(dirs, d, x)[d].ptes == x
  {
  }

  lemma UndoneBelowStep(ptes: Pages, b: nat, top: nat)
    requires b < top
    ensures b in ptes <==> b in ChildBelow(ptes, top)
    ensures b in ptes ==> ChildBelow(ptes, top)[b] == CowOf(ptes[b])
    ensures UndoneBelow(ptes, b + 1, top) ==
            if b in ptes then UndoneBelow(ptes, b, top)[b := UndoOf(ptes[b])] else UndoneBelow(ptes, b, top)
    ensures b in ptes && !ptes[b].writable && !ptes[b].cow ==> UndoneBelow(ptes, b + 1, top) == UndoneBelow(ptes, b, top)
  {
  }

  lemma FramesInStep(ptes: Pages, lo: nat, b: nat)
    requires Injective(ptes) && lo <= b
    ensures FramesIn(ptes, lo, b + 1) == FramesIn(ptes, lo, b) + if b in ptes then {ptes[b].frame} else {}
    ensures b in ptes ==> ptes[b].frame !in FramesIn(ptes, lo, b)
  {
  }

  lemma FramesInFront(ptes: Pages, b: nat, hi: nat)
    requires Injective(ptes) && b < hi
    ensures FramesIn(ptes, b, hi) == FramesIn(ptes, b + 1, hi) + if b in ptes then {ptes[b].frame} else {}
    ensures b in ptes ==> ptes[b].frame !in FramesIn(ptes, b + 1, hi)
  {
  }

  lemma GrowStep(ptes: Pages, fs: set<nat>, p: nat)
    requires Injective(ptes) && (p in ptes ==> ptes[p].frame !in fs)
    ensures p in ptes ==> ptes[p].frame !in fs + FramesIn(ptes, 0, p)
    ensures p in ptes ==> fs + FramesIn(ptes, 0, p) + {ptes[p].frame} == fs + FramesIn(ptes, 0, p + 1)
    ensures p !in ptes ==> fs + FramesIn(ptes, 0, p) == fs + FramesIn(ptes, 0, p + 1)
  {
    FramesInStep(ptes, 0, p);
  }

  lemma FramesInAll(ptes: Pages, hi: nat)
    requires forall p :: p in ptes ==> p < hi
    ensures FramesIn(ptes, 0, hi) == Frames(ptes)
  {
  }

  lemma FramesInSubset(ptes: Pages, lo: nat, hi: nat)
    ensures FramesIn(ptes, lo, hi) <= Frames(ptes)
  {
    forall f | f in FramesIn(ptes, lo, hi) ensures f in Frames(ptes) {
      var p :| p in ptes && lo <= p < hi && ptes[p].frame == f;
    }
  }

  /** Slots that hold no user table have no pages. */
  lemma EmptySlot(dir: Dir, i: nat)
    requires DirOk(dir) && i !in dir.tables
    ensures CowBelow(dir.ptes, 1024 * i) == CowBelow(dir.ptes, 1024 * (i + 1))
    ensures ChildBelow(dir.ptes, 1024 * i) == ChildBelow(dir.ptes, 1024 * (i + 1))
    ensures FramesIn(dir.ptes, 0, 1024 * i) == FramesIn(dir.ptes, 0, 1024 * (i + 1))
  {
    NoPagesInSlot(dir, i);
  }

  lemma EmptySlotUndone(dir: Dir, i: nat, top: nat)
    requires DirOk(dir) && i !in dir.tables && 1024 * (i + 1) <= top
    ensures UndoneBelow(dir.ptes, 1024 * i, top) == UndoneBelow(dir.ptes, 1024 * (i + 1), top)
    ensures FramesIn(dir.ptes, 1024 * i, top) == FramesIn(dir.ptes, 1024 * (i + 1), top)
  {
    NoPagesInSlot(dir, i);
  }

  lemma NoPagesInSlot(dir: Dir, i: nat)
    requires DirOk(dir) && i !in dir.tables
    ensures forall p :: p in dir.ptes ==> !(1024 * i <= p < 1024 * (i + 1))
  {
    forall p | p in dir.ptes ensures !(1024 * i <= p < 1024 * (i + 1)) {
      assert p / 1024 in dir.tables;
    }
  }

  // ---- Allocator effects one frame at a time -----------------------------------------------

  lemma TakeStep(used: seq<bool>, refs: seq<nat>, fs: set<nat>, f: nat)
    requires |used| == |refs| && f < |used|
    ensures TakeUsed(used, fs)[f := true] == TakeUsed(used, fs + {f})
    ensures TakeRefs(refs, fs)[f := 1] == TakeRefs(refs, fs + {f})
  {
  }

  lemma RetainStep(refs: seq<nat>, fs: set<nat>, f: nat)
    requires f < |refs| && f !in fs
    ensures RetainRefs(refs, fs)[f] == refs[f]
    ensures RetainRefs(refs, fs)[f := refs[f] + 1] == RetainRefs(refs, fs + {f})
    ensures RetainRefs(refs, fs + {f})[f] == refs[f] + 1
    ensures RetainRefs(refs, fs + {f})[f := refs[f]] == RetainRefs(refs, fs)
  {
  }

  lemma ReleaseStep(used: seq<bool>, refs: seq<nat>, fs: set<nat>, f: nat)
    requires |used| == |refs| && f < |used| && f !in fs && used[f]
    ensures ReleaseRefs(refs, fs)[f] == refs[f] && ReleaseUsed(used, refs, fs)[f]
    ensures ReleaseRefs(refs, fs + {f}) == ReleaseRefs(refs, fs)[f := if refs[f] > 1 then refs[f] - 1 else 0]
    ensures ReleaseUsed(used, refs, fs + {f}) ==
            if refs[f] > 1 then ReleaseUsed(used, refs, fs) else ReleaseUsed(used, refs, fs)[f := false]
  {
  }

  /** The frames of the tables in slots k and up, and the slots below k that have one. */
  function TablesFrom(tables: map<nat, nat>, k: nat): set<nat> {
    set i | i in tables && k <= i :: tables[i]
  }

  function SlotsBelow(tables: map<nat, nat>, k: nat): set<nat> {
    set i | i in tables && i < k
  }

  lemma TablesFromStep(tables: map<nat, nat>, k: nat)
    requires forall i, j :: i in tables && j in tables && tables[i] == tables[j] ==> i == j
    ensures TablesFrom(tables, k) == TablesFrom(tables, k + 1) + if k in tables then {tables[k]} else {}
    ensures k in tables ==> tables[k] !in TablesFrom(tables, k + 1)
  {
  }

  lemma TablesFromEnds(tables: map<nat, nat>, top: nat)
    requires forall i :: i in tables ==> i < top
    ensures TablesFrom(tables, 0) == tables.Values && TablesFrom(tables, top) == {}
  {
  }

  /** Freeing a frame that was taken from the free ones puts its bit and its count back. */
  lemma UntakeStep(used: seq<bool>, refs: seq<nat>, fs: set<nat>, f: nat)
    requires |used| == |refs| && f < |used| && f !in fs && !used[f] && refs[f] == 0
    ensures TakeUsed(used, fs + {f})[f := false] == TakeUsed(used, fs)
    ensures TakeRefs(refs, fs + {f})[f := 0] == TakeRefs(refs, fs)
  {
  }

  /** Retaining other frames does not disturb f. */
  lemma RetainApart(refs: seq<nat>, fs: set<nat>, f: nat, v: nat)
    requires f < |refs| && f !in fs
    ensures RetainRefs(refs, fs)[f] == refs[f]
    ensures RetainRefs(refs, fs)[f := v] == RetainRefs(refs[f := v], fs)
  {
  }

  lemma TakeNone(used: seq<bool>, refs: seq<nat>)
    ensures TakeUsed(used, {}) == used && TakeRefs(refs, {}) == refs && RetainRefs(refs, {}) == refs
  {
  }

  lemma FramesInNone(ptes: Pages, b: nat)
    ensures FramesIn(ptes, b, b) == {}
  {
  }

  lemma CowBelowEnds(ptes: Pages, top: nat)
    ensures CowBelow(ptes, 0) == ptes && ChildBelow(ptes, 0) == map[]
    ensures (forall p :: p in ptes ==> p < top) ==> CowBelow(ptes, top) == CowAll(ptes) == ChildBelow(ptes, top)
  {
  }

  lemma UndoneEnds(ptes: Pages, stop: nat)
    ensures UndoneBelow(ptes, 0, 1024 * stop) == CowBelow(ptes, 1024 * stop)
    ensures UndoneBelow(ptes, 1024 * stop, 1024 * stop) == UndoBefore(ptes, stop)
  {
  }

  /** What the clone needs to know of the parent's pages before it starts: each is in use,
      counted, and not near saturation. */
  ghost predicate Shareable(used: seq<bool>, refs: seq<nat>, dir: Dir) {
    && DirOk(dir) && |used| == |refs|
    && forall p :: p in dir.ptes ==> var f := dir.ptes[p].frame; f < |refs| && used[f] && 0 < refs[f] < MAX_REFCOUNT
  }

  lemma InvShareable(s: State, roles: Roles, d: nat)
    requires Inv(s, roles) && d in s.dirs && |s.dirs| < MAX_REFCOUNT
    ensures Shareable(s.used, s.refs, s.dirs[d])
  {
    hide OwnRoles;
    hide Exclusive;
    hide Count;
    hide CountsOk;
    hide DataRoles;
    hide DirsOk;
    DirsOkAt(s.dirs, d);
    forall p | p in s.dirs[d].ptes
      ensures var f := s.dirs[d].ptes[p].frame; f < |s.refs| && s.used[f] && 0 < s.refs[f] < MAX_REFCOUNT
    {
      NamedIsData(s.refs, s.dirs, roles, d, p);
      CountBound(Held(s.dirs), s.dirs[d].ptes[p].frame);
      assert Held(s.dirs).Keys == s.dirs.Keys;
      assert |Held(s.dirs)| == |Held(s.dirs).Keys| == |s.dirs.Keys| == |s.dirs|;
    }
  }

  lemma FramesUsed(used: seq<bool>, refs: seq<nat>, dir: Dir, t: nat)
    requires Shareable(used, refs, dir) && t < |used| && !used[t]
    ensures t !in Frames(dir.ptes)
  {
  }

  /** The frames of the new directory and tables: distinct, and free before the call. */
  ghost predicate NewFrames(used: seq<bool>, refs: seq<nat>, child: nat, tables: map<nat, nat>) {
    && |used| == |refs| && child < |used| && !used[child] && refs[child] == 0
    && (forall i :: i in tables ==> tables[i] < |used| && !used[tables[i]] && refs[tables[i]] == 0 && tables[i] != child)
    && (forall i, j :: i in tables && j in tables && tables[i] == tables[j] ==> i == j)
  }

  /** When all slots are shared the clone can be made, and its frames were free. */
  lemma AllSlotsShared(s: State, cur: nat, child: nat, tables: map<nat, nat>)
    requires cur in s.dirs && DirOk(s.dirs[cur]) && NewFrames(s.used, s.refs, child, tables) && |s.dirs| < MAX_REFCOUNT
    requires {child} + tables.Values <= FreeSet(s.used) && tables.Keys == SlotsBelow(s.dirs[cur].tables, 1024)
    ensures CanFork(s, cur, child, tables) && |s.dirs[cur].tables| < |FreeSet(s.used)|
  {
    hide SlotsBelow, DirOk, FreeSet;
    OkParts(s.dirs[cur]);
    SlotsBelowStep(s.dirs[cur].tables, 1024);
    FramesSuffice(s, cur, child, tables);
  }

  lemma FramesSuffice(s: State, cur: nat, child: nat, tables: map<nat, nat>)
    requires cur in s.dirs && NewFrames(s.used, s.refs, child, tables)
    requires {child} + tables.Values <= FreeSet(s.used) && tables.Keys == s.dirs[cur].tables.Keys
    ensures |s.dirs[cur].tables| < |FreeSet(s.used)|
  {
    hide FreeSet, NewFrames;
    assert |tables| == |tables.Keys| && |s.dirs[cur].tables| == |s.dirs[cur].tables.Keys|;
    NewFrameCount(s.used, s.refs, child, tables);
    Subset({child} + tables.Values, FreeSet(s.used));
  }

  lemma NewFramesFree(used: seq<bool>, refs: seq<nat>, child: nat, tables: map<nat, nat>, k: nat)
    requires NewFrames(used, refs, child, tables)
    ensures forall f :: f in {child} + TablesFrom(tables, k) ==> f < |used| && !used[f]
  {
  }

  /** Each new frame leaves the free set and nothing else does. */
  lemma FreeSetTake(used: seq<bool>, fs: set<nat>)
    ensures FreeSet(TakeUsed(used, fs)) == FreeSet(used) - fs
  {
  }

  lemma NewFrame(used: seq<bool>, refs: seq<nat>, child: nat, tables: map<nat, nat>, i: nat, t: nat)
    requires NewFrames(used, refs, child, tables) && i !in tables
    requires t < |used| && !used[t] && refs[t] == 0 && t != child && t !in tables.Values
    ensures NewFrames(used, refs, child, AddTable(tables, i, t))
    ensures {child} + AddTable(tables, i, t).Values == {child} + tables.Values + {t}
  {
    var tables' := AddTable(tables, i, t);
    assert forall j :: j in tables ==> tables'[j] == tables[j] && tables[j] in tables.Values;
    assert tables'.Values == tables.Values + {t} by {
      assert tables'[i] == t;
      forall f | f in tables.Values ensures f in tables'.Values {
        var j :| j in tables && tables[j] == f;
        assert tables'[j] == f;
      }
    }
  }

  lemma NewFrameCount(used: seq<bool>, refs: seq<nat>, child: nat, tables: map<nat, nat>)
    requires NewFrames(used, refs, child, tables)
    ensures |{child} + tables.Values| == 1 + |tables|
  {
    assert child !in tables.Values;
    InjectiveCount(tables);
  }

  lemma {:induction false} InjectiveCount(tables: map<nat, nat>)
    requires forall i, j :: i in tables && j in tables && tables[i] == tables[j] ==> i == j
    ensures |tables.Values| == |tables|
    decreases |tables|
  {
    if tables == map[] {
      assert tables.Values == {};
    } else {
      var i :| i in tables;
      var rest := tables - {i};
      assert rest.Keys == tables.Keys - {i};
      InjectiveCount(rest);
      forall f | f in tables.Values ensures f in rest.Values + {tables[i]} {
        var j :| j in tables && tables[j] == f;
        if j != i { assert rest[j] == f; }
      }
      assert tables.Values == rest.Values + {tables[i]};
    }
  }

  lemma SlotsBelowStep(tables: map<nat, nat>, k: nat)
    ensures SlotsBelow(tables, k + 1) == SlotsBelow(tables, k) + if k in tables then {k} else {}
    ensures |SlotsBelow(tables, k)| + (if k in tables then 1 else 0) <= |tables|
    ensures (forall i :: i in tables ==> i < k) ==> SlotsBelow(tables, k) == tables.Keys
  {
    Subset(SlotsBelow(tables, k + 1), tables.Keys);
  }

  /** One more frame taken while the frames named by the parent's pages stay retained. */
  lemma TakeRetained(used: seq<bool>, refs: seq<nat>, fs: set<nat>, t: nat, shared: set<nat>)
    requires |used| == |refs| && t < |used| && t !in shared
    ensures TakeUsed(used, fs)[t := true] == TakeUsed(used, fs + {t})
    ensures RetainRefs(TakeRefs(refs, fs), shared)[t := 1] == RetainRefs(TakeRefs(refs, fs + {t}), shared)
  {
    TakeStep(used, refs, fs, t);
    RetainApart(TakeRefs(refs, fs), shared, t, 1);
  }

  lemma NoFreeZero(s: State, cur: nat)
    requires CloneReady(s, cur)
    ensures 0 !in FreeSet(s.used)
  {
  }

  lemma TakeFacts(s: State, cur: nat, i: nat, child: nat, tables: map<nat, nat>, t: nat)
    requires CloneReady(s, cur) && NewFrames(s.used, s.refs, child, tables) && i !in tables
    requires t in FreeSet(s.used) && t !in {child} + tables.Values
    ensures NewFrames(s.used, s.refs, child, AddTable(tables, i, t))
    ensures {child} + AddTable(tables, i, t).Values == {child} + tables.Values + {t}
    ensures TakeUsed(s.used, {child} + tables.Values)[t := true] == TakeUsed(s.used, {child} + tables.Values + {t})
    ensures var shared := FramesIn(s.dirs[cur].ptes, 0, 1024 * i);
            RetainRefs(TakeRefs(s.refs, {child} + tables.Values), shared)[t := 1]
            == RetainRefs(TakeRefs(s.refs, {child} + tables.Values + {t}), shared)
  {
    hide FramesIn, Frames, DirOk;
    NewFrame(s.used, s.refs, child, tables, i, t);
    FramesInSubset(s.dirs[cur].ptes, 0, 1024 * i);
    FramesUsed(s.used, s.refs, s.dirs[cur], t);
    TakeRetained(s.used, s.refs, {child} + tables.Values, t, FramesIn(s.dirs[cur].ptes, 0, 1024 * i));
  }

  lemma FaultFacts(s: State, roles: Roles, d: nat, p: nat)
    requires Inv(s, roles) && d in s.dirs && p in s.dirs[d].ptes
    ensures Shape(s) && s.dirs[d].ptes[p].frame < |s.refs| && s.used[s.dirs[d].ptes[p].frame]
    ensures s.refs[s.dirs[d].ptes[p].frame] > 0 && 0 !in FreeSet(s.used)
    ensures !(s.dirs[d].ptes[p].writable && s.dirs[d].ptes[p].cow)
  {
    hide OwnRoles;
    hide Exclusive;
    hide CountsOk;
    hide DataRoles;
    hide Count;
    assert DirOk(s.dirs[d]);
    NamedIsData(s.refs, s.dirs, roles, d, p);
  }

  lemma SpaceFacts(s: State, roles: Roles)
    requires Inv(s, roles)
    ensures Shape(s) && 0 !in FreeSet(s.used)
    ensures |FreeSet(s.used)| == 0 <==> FreeSet(s.used) == {}
  {
    hide OwnRoles;
    hide Exclusive;
    hide CountsOk;
    hide DataRoles;
  }

  lemma FreeSetIs(used: seq<bool>, f: nat)
    requires f in FreeSet(used)
    ensures f < |used| && !used[f]
  {
  }

  lemma FreeSetLess(used: seq<bool>, f: nat)
    requires f in FreeSet(used)
    ensures f < |used| && FreeSet(used[f := true]) == FreeSet(used) - {f}
    ensures |FreeSet(used)| == 1 <==> FreeSet(used[f := true]) == {}
  {
    FreeSetUpdate(used, f, true);
    assert |FreeSet(used) - {f}| == |FreeSet(used)| - 1;
  }

  /** The page's frame has no other reference. */
  ghost predicate LastReference(s: State, d: nat, p: nat) {
    d in s.dirs && p in s.dirs[d].ptes && s.dirs[d].ptes[p].frame < |s.refs| && s.refs[s.dirs[d].ptes[p].frame] == 1
  }

  /** Taking the page's frame, then the table's, then mapping: the frames are interchangeable
      with a table step followed by a map step. */
  lemma TableThenPage(s: State, roles: Roles, d: nat, p: nat, f: nat, t: nat, bytes: Bytes, w: bool, s': State) returns (r: Roles)
    requires Inv(s, roles) && d in s.dirs && p !in s.dirs[d].ptes && p < 1024 * RECURSIVE_PD_INDEX
    requires p / 1024 !in s.dirs[d].kernel && p / 1024 !in s.dirs[d].tables && |bytes| == PAGE_SIZE
    requires |s.used| == |s.refs| == |s.ram| && Fresh(s.used, f) && Fresh(s.used, t) && f != t
    requires s'.used == s.used[f := true][t := true] && s'.refs == s.refs[f := 1][t := 1] && s'.ram == s.ram[f := bytes]
    requires s'.dirs == SetPages(PutDir(s.dirs, d, s.dirs[d].(tables := AddTable(s.dirs[d].tables, p / 1024, t))), d,
                                 s.dirs[d].ptes[p := Pte(f, w, false)])
    requires AllInRam(|s.ram|, s.dirs)
    ensures Inv(s', r) && AllInRam(|s'.ram|, s'.dirs)
    ensures Abs(s'.ram, s'.dirs) == EagerStep(Abs(s.ram, s.dirs), MapPage(d, p, 0, bytes, w))
  {
    hide Inv;
    hide Abs;
    hide EagerStep;
    var step1, step2 := NewTable(d, p / 1024, t), MapPage(d, p, f, bytes, w);
    var s1 := Tabled(s, d, p / 1024, t);
    assert Next(s, step1, s1);
    StepAbs(s, roles, step1, s1);
    var r1 := StepInv(s, roles, step1, s1);
    assert s'.used == TakeUsed(s1.used, {f}) && s'.refs == TakeRefs(s1.refs, {f});
    assert Next(s1, step2, s');
    StepAbs(s1, r1, step2, s');
    r := StepInv(s1, r1, step2, s');
    MapPageFrame(Abs(s.ram, s.dirs), d, p / 1024, p, f, t, bytes, w);
  }

  // ---- What is seen after an operation --------------------------------------------------------------

  lemma ForkSeen(s: State, roles: Roles, cur: nat, child: nat, tables: map<nat, nat>)
    requires Inv(s, roles) && CanFork(s, cur, child, tables)
    ensures child !in Seen(s) && cur in Seen(s) && Seen(Forked(s, cur, child, tables)) == Seen(s)[child := Seen(s)[cur]]
  {
    hide Inv, Seen, CanFork, Forked;
    ForkParts(s, cur, child, tables);
    StepSeen(s, roles, Fork(cur, child, tables), Forked(s, cur, child, tables));
    NewIsApart(s, roles, child);
  }

  lemma ForkParts(s: State, cur: nat, child: nat, tables: map<nat, nat>)
    requires CanFork(s, cur, child, tables)
    ensures cur in s.dirs && Fresh(s.used, child)
  {
  }

  lemma DestroySeen(s: State, roles: Roles, d: nat)
    requires Inv(s, roles) && d in s.dirs && |s.used| == |s.refs|
    ensures Seen(Destroyed(s, d)) == Seen(s) - {d}
  {
    hide Inv, Seen, Destroyed;
    StepSeen(s, roles, Destroy(d), Destroyed(s, d));
  }

  lemma SpawnSeen(s: State, roles: Roles, child: nat, kernel: set<nat>)
    requires Inv(s, roles) && CanSpawn(s, child, kernel)
    ensures child !in Seen(s) && Seen(Spawned(s, child, kernel)) == Seen(s)[child := Space(kernel, map[])]
  {
    hide Inv, Seen, Spawned;
    StepSeen(s, roles, Spawn(child, kernel), Spawned(s, child, kernel));
    NewIsApart(s, roles, child);
  }

  lemma UnmapSeen(s: State, roles: Roles, d: nat, p: nat)
    requires Inv(s, roles) && d in s.dirs
    ensures d in Seen(s) && |s.used| == |s.refs|
    ensures p in s.dirs[d].ptes ==> Seen(Dropped(s, d, p)) == Seen(s)[d := Without(Seen(s)[d], p)]
    ensures p !in s.dirs[d].ptes ==> Seen(s) == Seen(s)[d := Without(Seen(s)[d], p)]
  {
    hide Inv, Dropped;
    InvInRam(s, roles);
    InvShape(s, roles);
    if p in s.dirs[d].ptes {
      StepSeen(s, roles, Drop(d, p), Dropped(s, d, p));
    } else {
      assert Seen(s)[d].pages - {p} == Seen(s)[d].pages;
    }
  }

  /** A fault that is handled changes nothing that is seen. */
  lemma FaultSeen(s: State, roles: Roles, step: Step, s': State)
    requires Inv(s, roles) && Next(s, step, s') && (step.Reuse? || step.Copy?)
    ensures Seen(s') == Seen(s)
  {
    hide Inv, Next, Seen;
    StepSeen(s, roles, step, s');
  }

  lemma PageAlone(s: State, roles: Roles, d: nat, p: nat, f: nat, bytes: Bytes, w: bool, s': State) returns (r: Roles)
    requires Inv(s, roles) && d in s.dirs && p !in s.dirs[d].ptes && p < 1024 * RECURSIVE_PD_INDEX
    requires p / 1024 in s.dirs[d].tables && |bytes| == PAGE_SIZE
    requires |s.used| == |s.refs| == |s.ram| && Fresh(s.used, f)
    requires s'.used == s.used[f := true] && s'.refs == s.refs[f := 1] && s'.ram == s.ram[f := bytes]
    requires s'.dirs == SetPages(s.dirs, d, s.dirs[d].ptes[p := Pte(f, w, false)])
    requires AllInRam(|s.ram|, s.dirs)
    ensures Inv(s', r) && AllInRam(|s'.ram|, s'.dirs)
    ensures Abs(s'.ram, s'.dirs) == EagerStep(Abs(s.ram, s.dirs), MapPage(d, p, 0, bytes, w))
  {
    hide Inv, Abs, EagerStep;
    var step := MapPage(d, p, f, bytes, w);
    assert s'.used == TakeUsed(s.used, {f}) && s'.refs == TakeRefs(s.refs, {f});
    assert Next(s, step, s');
    StepAbs(s, roles, step, s');
    r := StepInv(s, roles, step, s');
    MapPageFrame(Abs(s.ram, s.dirs), d, p / 1024, p, f, f, bytes, w);
  }

  /** The frame of the page is taken and no table could be had. */
  lemma FrameLost(s: State, roles: Roles, f: nat, s': State) returns (r: Roles)
    requires Inv(s, roles) && |s.used| == |s.refs| == |s.ram| && Fresh(s.used, f) && AllInRam(|s.ram|, s.dirs)
    requires s' == s.(used := s.used[f := true], refs := s.refs[f := 1])
    ensures Inv(s', r) && AllInRam(|s'.ram|, s'.dirs) && Abs(s'.ram, s'.dirs) == Abs(s.ram, s.dirs)
  {
    hide Inv;
    assert s'.used == TakeUsed(s.used, {f}) && s'.refs == TakeRefs(s.refs, {f});
    assert Next(s, Leak(f), s');
    r := StepInv(s, roles, Leak(f), s');
  }

  lemma MapPageFrame(e: Eager, d: nat, i: nat, p: nat, f: nat, t: nat, bytes: Bytes, w: bool)
    ensures EagerStep(e, NewTable(d, i, t)) == e
    ensures EagerStep(e, MapPage(d, p, f, bytes, w)) == EagerStep(e, MapPage(d, p, 0, bytes, w))
  {
  }

  /** Every page's frame is in use and counted. */
  ghost predicate Counted(ptes: Pages, refs: seq<nat>, used: seq<bool>) {
    forall p :: p in ptes ==> ptes[p].frame < |refs| && 0 < refs[ptes[p].frame] && ptes[p].frame < |used| && used[ptes[p].frame]
  }

  /** What destroying d relies on: its frames are in use and pairwise distinct. */
  ghost predicate CanRelease(s: State, d: nat) {
    && d in s.dirs && DirOk(s.dirs[d]) && |s.used| == |s.refs|
    && d < |s.used| && s.used[d]
    && (forall p :: p in s.dirs[d].ptes ==> s.dirs[d].ptes[p].frame < |s.used| && s.used[s.dirs[d].ptes[p].frame])
    && (forall i :: i in s.dirs[d].tables ==> s.dirs[d].tables[i] < |s.used| && s.used[s.dirs[d].tables[i]])
  }

  /** The directory, its tables and its pages are distinct frames. */
  ghost predicate OwnsApart(dir: Dir, d: nat) {
    && (forall i, j :: i in dir.tables && j in dir.tables && dir.tables[i] == dir.tables[j] ==> i == j)
    && d !in dir.tables.Values + Frames(dir.ptes)
    && Frames(dir.ptes) !! dir.tables.Values
  }

  lemma TablesToSkip(dir: Dir, d: nat, i: nat)
    requires DirOk(dir) && OwnsApart(dir, d) && (i !in dir.tables || i == RECURSIVE_PD_INDEX)
    ensures TablesTo(dir.tables, i + 1) + FramesIn(dir.ptes, 0, 1024 * (i + 1))
         == TablesTo(dir.tables, i) + FramesIn(dir.ptes, 0, 1024 * i)
  {
    hide FramesIn;
    EmptySlot(dir, i);
    TablesToStep(dir.tables, i);
  }

  lemma ReleaseRest(s: State, d: nat)
    requires CanRelease(s, d) && OwnsApart(s.dirs[d], d)
    ensures var dir := s.dirs[d];
            && TablesTo(dir.tables, 1024) + FramesIn(dir.ptes, 0, 1024 * 1024) == dir.tables.Values + Frames(dir.ptes)
            && d < |s.used| && s.used[d] && d !in dir.tables.Values + Frames(dir.ptes)
  {
    hide FramesIn;
    OkParts(s.dirs[d]);
    FramesInAll(s.dirs[d].ptes, 1024 * 1024);
    TablesToAll(s.dirs[d].tables, 1024);
  }

  lemma PageReleasable(s: State, d: nat, p: nat)
    requires CanRelease(s, d)
    ensures Injective(s.dirs[d].ptes)
    ensures p in s.dirs[d].ptes ==>
              var f := s.dirs[d].ptes[p].frame; f < |s.used| && s.used[f] && f in Frames(s.dirs[d].ptes)
  {
  }

  function TablesTo(tables: map<nat, nat>, k: nat): set<nat> {
    set i | i in tables && i < k :: tables[i]
  }

  lemma TablesToStep(tables: map<nat, nat>, k: nat)
    requires forall i, j :: i in tables && j in tables && tables[i] == tables[j] ==> i == j
    ensures TablesTo(tables, 0) == {}
    ensures TablesTo(tables, k + 1) == TablesTo(tables, k) + if k in tables then {tables[k]} else {}
    ensures k !in tables ==> TablesTo(tables, k + 1) == TablesTo(tables, k)
    ensures k in tables ==> tables[k] !in TablesTo(tables, k)
    ensures TablesTo(tables, k) <= tables.Values
  {
  }

  lemma TablesToAll(tables: map<nat, nat>, top: nat)
    requires forall i :: i in tables ==> i < top
    ensures TablesTo(tables, top) == tables.Values
  {
  }

  lemma ReleaseNone(used: seq<bool>, refs: seq<nat>)
    requires |used| == |refs|
    ensures ReleaseUsed(used, refs, {}) == used && ReleaseRefs(refs, {}) == refs
  {
  }

  lemma ReleaseFacts(s: State, roles: Roles, d: nat)
    requires Inv(s, roles) && d in s.dirs
    ensures CanRelease(s, d) && Shape(s) && DirOk(s.dirs[d])
    ensures OwnsApart(s.dirs[d], d)
  {
    hide CountsOk;
    hide Exclusive;
    hide Frames;
    hide DirOk;
    DirsOkAt(s.dirs, d);
    OkParts(s.dirs[d]);
    assert Tables(s.dirs)[d] == s.dirs[d].tables;
    assert Held(s.dirs)[d] == Frames(s.dirs[d].ptes);
    forall p | p in s.dirs[d].ptes ensures s.dirs[d].ptes[p].frame in Frames(s.dirs[d].ptes) { OkInjective(s.dirs[d], p); }
    forall i | i in s.dirs[d].tables ensures s.dirs[d].tables[i] in roles && roles[s.dirs[d].tables[i]] == Table(d, i) {
      assert Tables(s.dirs)[d][i] in roles;
    }
  }

  /** What a clone relies on at entry. */
  ghost predicate CloneReady(s: State, cur: nat) {
    && cur in s.dirs && Shareable(s.used, s.refs, s.dirs[cur])
    && 0 < |s.used| && s.used[0]
    && (forall f :: 0 <= f < |s.used| && !s.used[f] ==> s.refs[f] == 0)
  }

  function Below(s: set<nat>, b: nat): set<nat> {
    set k | k in s && k < b
  }

  lemma BelowStep(s: set<nat>, b: nat)
    ensures Below(s, b + 1) == Below(s, b) + if b in s then {b} else {}
  {
  }

  lemma BelowAll(s: set<nat>, b: nat)
    ensures Below(s, 0) == {}
    ensures (forall k :: k in s ==> k < b) ==> Below(s, b) == s
  {
  }

  lemma SlotsBelowNot(tables: map<nat, nat>, k: nat)
    ensures k !in SlotsBelow(tables, k)
  {
  }

  lemma CloneFacts(s: State, roles: Roles, cur: nat)
    requires Inv(s, roles) && cur in s.dirs && |s.dirs| < MAX_REFCOUNT
    requires forall f :: 0 <= f < |s.used| && f < |s.refs| && !s.used[f] ==> s.refs[f] == 0
    ensures CloneReady(s, cur) && 0 !in FreeSet(s.used)
    ensures forall i :: i in s.dirs[cur].tables ==> i < RECURSIVE_PD_INDEX && i !in s.dirs[cur].kernel
    ensures forall i :: i in s.dirs[cur].kernel ==> i < RECURSIVE_PD_INDEX
    ensures Shape(s)
  {
    hide OwnRoles;
    hide DataRoles;
    hide CountsOk;
    hide Exclusive;
    InvShareable(s, roles, cur);
    assert DirOk(s.dirs[cur]);
  }

  lemma UndoNothing(s: State, cur: nat)
    requires cur in s.dirs
    ensures RolledBack(s, cur, 0) == s
  {
    assert UndoBefore(s.dirs[cur].ptes, 0) == s.dirs[cur].ptes;
    assert SetPages(s.dirs, cur, s.dirs[cur].ptes) == s.dirs;
  }

  lemma SetPagesTables(dirs: Dirs, d: nat, x: Pages)
    requires d in dirs
    ensures var dirs' := SetPages(dirs, d, x);
            d in dirs' && dirs'[d].tables == dirs[d].tables && dirs'[d].kernel == dirs[d].kernel && dirs'[d].ptes == x
  {
  }

  class Kernel {
    const pmm: Pmm
    const ram: array<Bytes>
    var dirs: Dirs

    ghost predicate Valid()
      reads this, pmm, pmm.bitmap, pmm.refcounts, ram
    {
      pmm.Valid() && ram.Length == pmm.maxFrames
    }

    ghost function St(): State
      reads this, pmm, pmm.bitmap, pmm.refcounts, ram
    {
      State(pmm.bitmap[..], pmm.refcounts[..], ram[..], dirs)
    }

    /** The kernel over a machine whose frames hold the given contents, with no user space yet. */
    constructor (memory: Pmm, contents: array<Bytes>)
      requires memory.Valid() && contents.Length == memory.maxFrames
      ensures Valid() && pmm == memory && ram == contents && dirs == map[]
      ensures Booted(St()) ==> Inv(St(), BootRoles(St()))
    {
      pmm := memory;
      ram := contents;
      dirs := map[];
      new;
      if Booted(St()) { BootInv(St()); }
    }

    // ---- cow_clone_directory -----------------------------------------------------------------

    /** The inner loop: share every present page of slot i with the child. refs0 are the counts
        before any page was shared. */
    method ShareTable(cur: nat, i: nat, childPtes: Pages, ghost ptes: Pages, ghost refs0: seq<nat>)
      returns (shared: Pages)
      requires Valid() && cur in dirs && Injective(ptes) && |refs0| == pmm.maxFrames
      requires dirs[cur].ptes == CowBelow(ptes, 1024 * i) && childPtes == ChildBelow(ptes, 1024 * i)
      requires forall p :: p in ptes ==> ptes[p].frame < |refs0| && refs0[ptes[p].frame] < MAX_REFCOUNT && pmm.bitmap[ptes[p].frame]
      requires pmm.refcounts[..] == RetainRefs(refs0, FramesIn(ptes, 0, 1024 * i))
      modifies this`dirs, pmm.refcounts
      ensures Valid() && cur in dirs
      ensures dirs == SetPages(old(dirs), cur, CowBelow(ptes, 1024 * (i + 1)))
      ensures shared == ChildBelow(ptes, 1024 * (i + 1))
      ensures pmm.refcounts[..] == RetainRefs(refs0, FramesIn(ptes, 0, 1024 * (i + 1)))
    {
      hide CowBelow;
      hide ChildBelow;
      hide FramesIn;
      hide SetPages;
      shared := childPtes;
      ghost var dirs0 := dirs;
      SetPagesTwice(dirs, cur, dirs[cur].ptes, dirs[cur].ptes);
      for j := 0 to 1024
        invariant Valid() && cur in dirs
        invariant dirs == SetPages(dirs0, cur, CowBelow(ptes, 1024 * i + j))
        invariant shared == ChildBelow(ptes, 1024 * i + j)
        invariant pmm.refcounts[..] == RetainRefs(refs0, FramesIn(ptes, 0, 1024 * i + j))
      {
        shared := SharePage(cur, 1024 * i + j, shared, ptes, refs0, dirs0);
      }
    }

    /** Shares one page: both entries read-only and copy-on-write, one more reference. */
    method SharePage(cur: nat, p: nat, childPtes: Pages, ghost ptes: Pages, ghost refs0: seq<nat>, ghost dirs0: Dirs)
      returns (shared: Pages)
      requires Valid() && cur in dirs && cur in dirs0 && Injective(ptes) && |refs0| == pmm.maxFrames
      requires dirs == SetPages(dirs0, cur, CowBelow(ptes, p)) && childPtes == ChildBelow(ptes, p)
      requires forall q :: q in ptes ==> ptes[q].frame < |refs0| && refs0[ptes[q].frame] < MAX_REFCOUNT && pmm.bitmap[ptes[q].frame]
      requires pmm.refcounts[..] == RetainRefs(refs0, FramesIn(ptes, 0, p))
      modifies this`dirs, pmm.refcounts
      ensures Valid() && cur in dirs
      ensures dirs == SetPages(dirs0, cur, CowBelow(ptes, p + 1)) && shared == ChildBelow(ptes, p + 1)
      ensures pmm.refcounts[..] == RetainRefs(refs0, FramesIn(ptes, 0, p + 1))
    {
      hide CowBelow, ChildBelow, FramesIn, SetPages;
      shared := childPtes;
      CowBelowStep(ptes, p);
      FramesInStep(ptes, 0, p);
      SetPagesTwice(dirs0, cur, CowBelow(ptes, p), CowBelow(ptes, p + 1));
      if p in dirs[cur].ptes {
        var pte := dirs[cur].ptes[p];
        RetainStep(refs0, FramesIn(ptes, 0, p), pte.frame);
        if pte.writable {
          shared := shared[p := Pte(pte.frame, false, true)];
          dirs := SetPages(dirs, cur, dirs[cur].ptes[p := Pte(pte.frame, false, true)]);
        } else {
          shared := shared[p := pte];
        }
        pmm.IncRef(pte.frame);
      }
    }

    /** The state when the rollback has undone the pages below b. refs0 are the counts before any
        page was shared. */
    ghost predicate Undone(cur: nat, dirs0: Dirs, used0: seq<bool>, ptes: Pages, refs0: seq<nat>, b: nat, top: nat)
      reads this, pmm, pmm.bitmap, pmm.refcounts, ram
    {
      && Valid() && cur in dirs0 && |refs0| == pmm.maxFrames && pmm.bitmap[..] == used0
      && dirs == SetPages(dirs0, cur, UndoneBelow(ptes, b, top))
      && pmm.refcounts[..] == RetainRefs(refs0, FramesIn(ptes, b, top))
    }

    /** One page of the rollback. */
    method UndoPage(cur: nat, p: nat, childPtes: Pages, ghost dirs0: Dirs, ghost used0: seq<bool>,
                    ghost ptes: Pages, ghost refs0: seq<nat>, ghost top: nat)
      requires Undone(cur, dirs0, used0, ptes, refs0, p, top) && p < top && Injective(ptes)
      requires childPtes == ChildBelow(ptes, top)
      requires Counted(ptes, refs0, used0)
      modifies this`dirs, pmm`usedFrames, pmm.bitmap, pmm.refcounts
      ensures Undone(cur, dirs0, used0, ptes, refs0, p + 1, top)
    {
      hide UndoneBelow;
      hide ChildBelow;
      hide FramesIn;
      hide SetPages;
      hide UsedSet;
      UndoneBelowStep(ptes, p, top);
      FramesInFront(ptes, p, top);
      SetPagesTwice(dirs0, cur, UndoneBelow(ptes, p, top), UndoneBelow(ptes, p + 1, top));
      if p in childPtes {
        var pte := childPtes[p];
        RetainStep(refs0, FramesIn(ptes, p + 1, top), pte.frame);
        assert pmm.bitmap[..][pte.frame];
        assert pmm.refcounts[..][pte.frame] == refs0[pte.frame] + 1;
        pmm.FreeFrame(pte.frame);
        if pte.cow {
          dirs := SetPages(dirs, cur, dirs[cur].ptes[p := Pte(pte.frame, true, false)]);
        }
      } else {
        assert FramesIn(ptes, p, top) == FramesIn(ptes, p + 1, top);
      }
    }

    /** The inner loop of the rollback: give back the references of slot k's pages and make the
        parent's copy-on-write entries writable. */
    method UndoTable(cur: nat, k: nat, childPtes: Pages, ghost dirs0: Dirs, ghost used0: seq<bool>,
                     ghost ptes: Pages, ghost refs0: seq<nat>, ghost top: nat)
      requires Undone(cur, dirs0, used0, ptes, refs0, 1024 * k, top) && Injective(ptes) && 1024 * (k + 1) <= top
      requires childPtes == ChildBelow(ptes, top) && Counted(ptes, refs0, used0)
      modifies this`dirs, pmm`usedFrames, pmm.bitmap, pmm.refcounts
      ensures Undone(cur, dirs0, used0, ptes, refs0, 1024 * (k + 1), top)
    {
      hide *;
      for j := 0 to 1024
        invariant Undone(cur, dirs0, used0, ptes, refs0, 1024 * k + j, top)
      {
        UndoPage(cur, 1024 * k + j, childPtes, dirs0, used0, ptes, refs0, top);
      }
    }

    /** The state when the pages of the slots below i have been shared with the clone under
        construction, which has the directory `child` and the tables `tables` so far. */
    ghost predicate Progress(s0: State, cur: nat, i: nat, child: nat, tables: map<nat, nat>, childPtes: Pages)
      reads this, pmm, pmm.bitmap, pmm.refcounts, ram
    {
      && Valid() && cur in s0.dirs && |s0.used| == pmm.maxFrames && ram[..] == s0.ram
      && CloneReady(s0, cur)
      && NewFrames(s0.used, s0.refs, child, tables) && {child} + tables.Values <= FreeSet(s0.used)
      && childPtes == ChildBelow(s0.dirs[cur].ptes, 1024 * i)
      && dirs == SetPages(s0.dirs, cur, CowBelow(s0.dirs[cur].ptes, 1024 * i))
      && pmm.bitmap[..] == TakeUsed(s0.used, {child} + tables.Values)
      && pmm.refcounts[..] == RetainRefs(TakeRefs(s0.refs, {child} + tables.Values), FramesIn(s0.dirs[cur].ptes, 0, 1024 * i))
    }

    ghost predicate Sharing(s0: State, cur: nat, i: nat, child: nat, tables: map<nat, nat>, childPtes: Pages)
      reads this, pmm, pmm.bitmap, pmm.refcounts, ram
    {
      Progress(s0, cur, i, child, tables, childPtes) && tables.Keys == SlotsBelow(s0.dirs[cur].tables, i)
    }

    /** The state when the rollback of a clone stopped at slot `stop` has undone the slots below k. */
    ghost predicate Undoing(s0: State, cur: nat, k: nat, stop: nat, child: nat, tables: map<nat, nat>)
      reads this, pmm, pmm.bitmap, pmm.refcounts, ram
    {
      && Valid() && cur in s0.dirs && |s0.used| == pmm.maxFrames && ram[..] == s0.ram
      && CloneReady(s0, cur) && NewFrames(s0.used, s0.refs, child, tables)
      && tables.Keys == SlotsBelow(s0.dirs[cur].tables, stop)
      && dirs == SetPages(s0.dirs, cur, UndoneBelow(s0.dirs[cur].ptes, 1024 * k, 1024 * stop))
      && pmm.bitmap[..] == TakeUsed(s0.used, {child} + TablesFrom(tables, k))
      && pmm.refcounts[..] == RetainRefs(TakeRefs(s0.refs, {child} + TablesFrom(tables, k)), FramesIn(s0.dirs[cur].ptes, 1024 * k, 1024 * stop))
    }

    lemma StartUndoing(s0: State, cur: nat, stop: nat, child: nat, tables: map<nat, nat>, childPtes: Pages)
      requires Sharing(s0, cur, stop, child, tables, childPtes)
      ensures Undoing(s0, cur, 0, stop, child, tables)
    {
      hide CloneReady;
      hide NewFrames;
      hide FramesIn;
      UndoneEnds(s0.dirs[cur].ptes, stop);
      TablesFromEnds(tables, stop);
    }

    lemma SkipUndoing(s0: State, cur: nat, k: nat, stop: nat, child: nat, tables: map<nat, nat>)
      requires Undoing(s0, cur, k, stop, child, tables) && k !in tables && k < stop
      ensures Undoing(s0, cur, k + 1, stop, child, tables)
    {
      hide UndoneBelow;
      hide FramesIn;
      hide TablesFrom;
      TablesFromStep(tables, k);
      EmptySlotUndone(s0.dirs[cur], k, 1024 * stop);
      assert TablesFrom(tables, k) == TablesFrom(tables, k + 1);
    }

    /** Undo slot k, whose new table is tables[k], and free the table. */
    method RollbackSlot(cur: nat, k: nat, childPtes: Pages, child: nat, tables: map<nat, nat>, ghost stop: nat, ghost s0: State)
      requires Undoing(s0, cur, k, stop, child, tables) && k in tables && k < stop
      requires childPtes == ChildBelow(s0.dirs[cur].ptes, 1024 * stop)
      modifies this`dirs, pmm`usedFrames, pmm.bitmap, pmm.refcounts
      ensures Undoing(s0, cur, k + 1, stop, child, tables)
    {
      hide ChildBelow;
      hide UndoneBelow;
      hide FramesIn;
      hide SetPages;
      hide UsedSet;
      hide TablesFrom;
      var t := tables[k];
      ghost var ptes, top, fs := s0.dirs[cur].ptes, 1024 * stop, {child} + TablesFrom(tables, k + 1);
      TablesFromStep(tables, k);
      NewFramesFree(s0.used, s0.refs, child, tables, k + 1);
      assert {child} + TablesFrom(tables, k) == fs + {t};
      ghost var refs1 := TakeRefs(s0.refs, fs + {t});
      SetPagesTwice(s0.dirs, cur, UndoneBelow(ptes, 1024 * k, top), UndoneBelow(ptes, 1024 * (k + 1), top));
      UndoTable(cur, k, childPtes, s0.dirs, pmm.bitmap[..], ptes, refs1, top);
      FramesInSubset(ptes, 1024 * (k + 1), top);
      FramesUsed(s0.used, s0.refs, s0.dirs[cur], t);
      RetainApart(refs1, FramesIn(ptes, 1024 * (k + 1), top), t, 0);
      UntakeStep(s0.used, s0.refs, fs, t);
      assert pmm.bitmap[..][t] && pmm.refcounts[..][t] == 1;
      pmm.FreeFrame(t);
    }

    /** The failure path of cow_clone_directory: undo the slots below `stop`. */
    method Rollback(cur: nat, stop: nat, child: nat, tables: map<nat, nat>, childPtes: Pages, ghost s0: State)
      requires Sharing(s0, cur, stop, child, tables, childPtes)
      modifies this`dirs, pmm`usedFrames, pmm.bitmap, pmm.refcounts
      ensures Valid() && St() == RolledBack(s0, cur, stop)
    {
      ghost var ptes := s0.dirs[cur].ptes;
      assert childPtes == ChildBelow(ptes, 1024 * stop);
      StartUndoing(s0, cur, stop, child, tables, childPtes);
      hide Undoing;
      hide Sharing;
      for k := 0 to stop
        invariant Undoing(s0, cur, k, stop, child, tables)
      {
        if k in tables {
          RollbackSlot(cur, k, childPtes, child, tables, stop, s0);
        } else {
          SkipUndoing(s0, cur, k, stop, child, tables);
        }
      }
      FreeDirectory(cur, stop, child, tables, s0);
    }

    /** With every slot undone, the frame of the new directory goes back. */
    method FreeDirectory(cur: nat, ghost stop: nat, child: nat, ghost tables: map<nat, nat>, ghost s0: State)
      requires Undoing(s0, cur, stop, stop, child, tables)
      modifies pmm`usedFrames, pmm.bitmap, pmm.refcounts
      ensures Valid() && St() == RolledBack(s0, cur, stop)
    {
      hide UsedSet;
      hide UndoneBelow;
      hide FramesIn;
      hide SetPages;
      UndoneEnds(s0.dirs[cur].ptes, stop);
      TablesFromEnds(tables, stop);
      FramesInNone(s0.dirs[cur].ptes, 1024 * stop);
      assert {child} + TablesFrom(tables, stop) == {} + {child};
      TakeNone(s0.used, TakeRefs(s0.refs, {} + {child}));
      TakeNone(s0.used, s0.refs);
      UntakeStep(s0.used, s0.refs, {}, child);
      assert pmm.bitmap[..][child] && pmm.refcounts[..][child] == 1;
      pmm.FreeFrame(child);
    }

    lemma StartSharing(s0: State, cur: nat, child: nat)
      requires Valid() && cur in s0.dirs && |s0.used| == pmm.maxFrames && ram[..] == s0.ram && CloneReady(s0, cur)
      requires child in FreeSet(s0.used) && dirs == s0.dirs
      requires pmm.bitmap[..] == s0.used[child := true] && pmm.refcounts[..] == s0.refs[child := 1]
      ensures Sharing(s0, cur, 0, child, map[], map[])
    {
      hide FramesIn;
      hide CowBelow;
      hide ChildBelow;
      hide SetPages;
      ghost var ptes := s0.dirs[cur].ptes;
      TakeNone(s0.used, s0.refs);
      TakeStep(s0.used, s0.refs, {}, child);
      var none: map<nat, nat> := map[];
      assert {child} + none.Values == {} + {child};
      FramesInNone(ptes, 0);
      TakeNone(s0.used, TakeRefs(s0.refs, {} + {child}));
      CowBelowEnds(ptes, 0);
      SetPagesTwice(s0.dirs, cur, ptes, ptes);
    }

    lemma SkipSharing(s0: State, cur: nat, i: nat, child: nat, tables: map<nat, nat>, childPtes: Pages)
      requires Sharing(s0, cur, i, child, tables, childPtes) && i !in s0.dirs[cur].tables
      ensures Sharing(s0, cur, i + 1, child, tables, childPtes)
    {
      hide FramesIn;
      hide CowBelow;
      hide ChildBelow;
      hide SetPages;
      hide SlotsBelow;
      SlotsBelowStep(s0.dirs[cur].tables, i);
      EmptySlot(s0.dirs[cur], i);
    }

    /** A frame for the child's next table, 0 if there is none. */
    method TakeTable(cur: nat, i: nat, child: nat, tables: map<nat, nat>, childPtes: Pages, ghost s0: State)
      returns (t: nat)
      requires Progress(s0, cur, i, child, tables, childPtes) && i !in tables
      modifies pmm`usedFrames, pmm.bitmap, pmm.refcounts
      ensures t == 0 ==> Progress(s0, cur, i, child, tables, childPtes) && FreeSet(s0.used) == {child} + tables.Values
      ensures t != 0 ==> Progress(s0, cur, i, child, AddTable(tables, i, t), childPtes)
    {
      hide CowBelow, ChildBelow, FramesIn, SetPages, UsedSet, DirOk, FreeSet, CloneReady, NewFrames, TakeUsed, TakeRefs, RetainRefs, AddTable;
      ghost var fs := {child} + tables.Values;
      FreeSetTake(s0.used, fs);
      NoFreeZero(s0, cur);
      t := pmm.AllocFrame();
      if t == 0 { return; }
      assert t in FreeSet(s0.used) && t !in fs;
      TakeFacts(s0, cur, i, child, tables, t);
    }

    method ShareSlot(cur: nat, i: nat, child: nat, ghost tables: map<nat, nat>, childPtes: Pages, ghost s0: State)
      returns (shared: Pages)
      requires Progress(s0, cur, i, child, tables, childPtes)
      modifies this`dirs, pmm.refcounts
      ensures Progress(s0, cur, i + 1, child, tables, shared)
    {
      hide CowBelow;
      hide ChildBelow;
      hide FramesIn;
      hide SetPages;
      hide UsedSet;
      hide DirOk;
      hide FreeSet;
      ghost var ptes, refs1 := s0.dirs[cur].ptes, TakeRefs(s0.refs, {child} + tables.Values);
      forall p | p in ptes ensures ptes[p].frame < |refs1| && refs1[ptes[p].frame] < MAX_REFCOUNT && pmm.bitmap[ptes[p].frame] {
        assert pmm.bitmap[..][ptes[p].frame];
      }
      OkParts(s0.dirs[cur]);
      SetPagesTwice(s0.dirs, cur, CowBelow(ptes, 1024 * i), CowBelow(ptes, 1024 * (i + 1)));
      shared := ShareTable(cur, i, childPtes, ptes, refs1);
    }

    /** One round of the outer loop for a slot that holds a user table: a frame for the child's
        table (0 if there is none), then the shared pages. */
    method CloneSlot(cur: nat, i: nat, child: nat, tables: map<nat, nat>, childPtes: Pages, ghost s0: State)
      returns (t: nat, shared: Pages)
      requires Sharing(s0, cur, i, child, tables, childPtes) && i in s0.dirs[cur].tables
      modifies this`dirs, pmm`usedFrames, pmm.bitmap, pmm.refcounts
      ensures t == 0 ==> Sharing(s0, cur, i, child, tables, childPtes) && FreeSet(s0.used) == {child} + tables.Values
      ensures t != 0 ==> Sharing(s0, cur, i + 1, child, AddTable(tables, i, t), shared)
    {
      hide SlotsBelow, Progress;
      SharingKnows(s0, cur, i, child, tables, childPtes);
      SlotsBelowStep(s0.dirs[cur].tables, i);
      SlotsBelowNot(s0.dirs[cur].tables, i);
      shared := childPtes;
      t := TakeTable(cur, i, child, tables, childPtes, s0);
      if t == 0 { return; }
      shared := ShareSlot(cur, i, child, AddTable(tables, i, t), childPtes, s0);
    }

    lemma SharingKnows(s0: State, cur: nat, i: nat, child: nat, tables: map<nat, nat>, childPtes: Pages)
      requires Sharing(s0, cur, i, child, tables, childPtes)
      ensures cur in s0.dirs
    {
      hide CloneReady, NewFrames;
    }

    /** What the loop sees of the parent, and how many frames it has left. */
    lemma SharingFacts(s0: State, cur: nat, i: nat, child: nat, tables: map<nat, nat>, childPtes: Pages)
      requires Sharing(s0, cur, i, child, tables, childPtes)
      ensures cur in dirs && dirs[cur].tables == s0.dirs[cur].tables && dirs[cur].kernel == s0.dirs[cur].kernel
      ensures |{child} + tables.Values| == 1 + |SlotsBelow(s0.dirs[cur].tables, i)|
      ensures |{child} + tables.Values| <= |FreeSet(s0.used)|
    {
      hide FramesIn;
      hide CowBelow;
      hide ChildBelow;
      SetPagesTables(s0.dirs, cur, CowBelow(s0.dirs[cur].ptes, 1024 * i));
      NewFrameCount(s0.used, s0.refs, child, tables);
      assert |tables| == |tables.Keys|;
      Subset({child} + tables.Values, FreeSet(s0.used));
    }

    lemma FinishSharing(s0: State, cur: nat, child: nat, tables: map<nat, nat>, childPtes: Pages)
      requires Sharing(s0, cur, 1024, child, tables, childPtes) && |s0.dirs| < MAX_REFCOUNT
      ensures Valid() && CanFork(s0, cur, child, tables) && ram[..] == s0.ram
      ensures childPtes == CowAll(s0.dirs[cur].ptes) && dirs == SetPages(s0.dirs, cur, CowAll(s0.dirs[cur].ptes))
      ensures pmm.bitmap[..] == TakeUsed(s0.used, {child} + tables.Values)
      ensures pmm.refcounts[..] == RetainRefs(TakeRefs(s0.refs, {child} + tables.Values), Frames(s0.dirs[cur].ptes))
      ensures |s0.dirs[cur].tables| < |FreeSet(s0.used)|
    {
      hide Sharing, CanFork, SetPages, TakeUsed, TakeRefs, RetainRefs, Frames, CowAll, FreeSet;
      FinishFrames(s0, cur, child, tables, childPtes);
      FinishPages(s0, cur, child, tables, childPtes);
    }

    lemma FinishFrames(s0: State, cur: nat, child: nat, tables: map<nat, nat>, childPtes: Pages)
      requires Sharing(s0, cur, 1024, child, tables, childPtes) && |s0.dirs| < MAX_REFCOUNT
      ensures CanFork(s0, cur, child, tables) && |s0.dirs[cur].tables| < |FreeSet(s0.used)|
    {
      hide Sharing, SlotsBelow, DirOk, NewFrames, CanFork, FreeSet;
      SharingFrames(s0, cur, 1024, child, tables, childPtes);
      AllSlotsShared(s0, cur, child, tables);
    }

    lemma SharingFrames(s0: State, cur: nat, i: nat, child: nat, tables: map<nat, nat>, childPtes: Pages)
      requires Sharing(s0, cur, i, child, tables, childPtes)
      ensures cur in s0.dirs && DirOk(s0.dirs[cur]) && NewFrames(s0.used, s0.refs, child, tables)
      ensures {child} + tables.Values <= FreeSet(s0.used) && tables.Keys == SlotsBelow(s0.dirs[cur].tables, i)
    {
      hide SetPages, FramesIn, CowBelow, ChildBelow, SlotsBelow, NewFrames, DirOk, FreeSet;
    }

    lemma FinishPages(s0: State, cur: nat, child: nat, tables: map<nat, nat>, childPtes: Pages)
      requires Sharing(s0, cur, 1024, child, tables, childPtes)
      ensures Valid() && cur in s0.dirs && ram[..] == s0.ram
      ensures childPtes == CowAll(s0.dirs[cur].ptes) && dirs == SetPages(s0.dirs, cur, CowAll(s0.dirs[cur].ptes))
      ensures pmm.bitmap[..] == TakeUsed(s0.used, {child} + tables.Values)
      ensures pmm.refcounts[..] == RetainRefs(TakeRefs(s0.refs, {child} + tables.Values), Frames(s0.dirs[cur].ptes))
    {
      hide SetPages, FramesIn, CowBelow, ChildBelow, CowAll, Frames, SlotsBelow, NewFrames, DirOk;
      OkParts(s0.dirs[cur]);
      CowBelowEnds(s0.dirs[cur].ptes, 1024 * 1024);
      FramesInAll(s0.dirs[cur].ptes, 1024 * 1024);
    }

    /** cow_clone_directory on the current directory. The clone exists exactly when there is a
        frame for the directory and one for each user table; then the state is Forked, and the new
        space, kernel slots and pages, is that of the caller. When the
        frames run out at slot `stop`, the state is RolledBack: no frame and no reference lost. */
    method CloneDirectory(cur: nat, ghost roles: Roles) returns (child: nat, ghost tables: map<nat, nat>, ghost stop: nat)
      requires Valid() && Inv(St(), roles) && cur in dirs && |dirs| < MAX_REFCOUNT
      modifies this`dirs, pmm`usedFrames, pmm.bitmap, pmm.refcounts
      ensures Valid()
      ensures child != 0 <==> |old(dirs)[cur].tables| < |FreeSet(old(St()).used)|
      ensures child != 0 ==> CanFork(old(St()), cur, child, tables) && St() == Forked(old(St()), cur, child, tables)
      ensures child != 0 ==> child !in old(Seen(St())) && cur in old(Seen(St()))
                             && Seen(St()) == old(Seen(St()))[child := old(Seen(St()))[cur]]
      ensures child == 0 ==> Seen(St()) == old(Seen(St()))
      ensures child == 0 ==> St() == RolledBack(old(St()), cur, stop)
      ensures child == 0 && FreeSet(old(St()).used) == {} ==> stop == 0
      ensures child == 0 && FreeSet(old(St()).used) != {} ==>
                stop in old(dirs)[cur].tables && |SlotsBelow(old(dirs)[cur].tables, stop)| + 1 == |FreeSet(old(St()).used)|
    {
      hide UsedSet, Inv, DirOk, FreeSet, Seen, NoSharedCowBefore;
      tables, stop := map[], 0;
      ghost var s0 := St();
      CloneFacts(s0, roles, cur);
      UndoNothing(s0, cur);
      assert |FreeSet(s0.used)| == 0 ==> FreeSet(s0.used) == {};
      RollbackSeen(s0, roles, cur, 0);
      child := pmm.AllocFrame();
      if child == 0 {
        return;
      }
      StartSharing(s0, cur, child);
      var ok, kernel, childTables, childPtes, last := ShareSlots(cur, child, s0);
      if !ok {
        stop := last;
        Rollback(cur, last, child, childTables, childPtes, s0);
        RollbackSeen(s0, roles, cur, stop);
        return 0, tables, stop;
      }
      FinishSharing(s0, cur, child, childTables, childPtes);
      tables := childTables;
      dirs := PutDir(dirs, child, Dir(kernel, childTables, childPtes));
      ForkSeen(s0, roles, cur, child, tables);
    }

    /** The outer loop, up to the slot that finds no frame for its table. */
    method ShareSlots(cur: nat, child: nat, ghost s0: State)
      returns (ok: bool, kernel: set<nat>, tables: map<nat, nat>, childPtes: Pages, stop: nat)
      requires Sharing(s0, cur, 0, child, map[], map[])
      requires forall i :: i in s0.dirs[cur].tables ==> i < RECURSIVE_PD_INDEX && i !in s0.dirs[cur].kernel
      requires forall i :: i in s0.dirs[cur].kernel ==> i < RECURSIVE_PD_INDEX
      modifies this`dirs, pmm`usedFrames, pmm.bitmap, pmm.refcounts
      ensures ok ==> Sharing(s0, cur, 1024, child, tables, childPtes) && kernel == s0.dirs[cur].kernel
      ensures !ok ==> Sharing(s0, cur, stop, child, tables, childPtes) && stop in s0.dirs[cur].tables
                      && |SlotsBelow(s0.dirs[cur].tables, stop)| + 1 == |FreeSet(s0.used)| <= |s0.dirs[cur].tables|
    {
      hide SlotsBelow, FreeSet, Below, Sharing;
      SharingKnows(s0, cur, 0, child, map[], map[]);
      ghost var dir := s0.dirs[cur];
      BelowAll(dir.kernel, 1024);
      kernel, tables, childPtes, stop := {}, map[], map[], 0;
      for i := 0 to 1024
        invariant Sharing(s0, cur, i, child, tables, childPtes)
        invariant kernel == Below(dir.kernel, i)
      {
        SharingFacts(s0, cur, i, child, tables, childPtes);
        SlotsBelowStep(dir.tables, i);
        BelowStep(dir.kernel, i);
        if i != RECURSIVE_PD_INDEX && i in dirs[cur].kernel {
          kernel := kernel + {i};
          SkipSharing(s0, cur, i, child, tables, childPtes);
        } else if i != RECURSIVE_PD_INDEX && i in dirs[cur].tables {
          var t, shared := CloneSlot(cur, i, child, tables, childPtes, s0);
          if t == 0 {
            return false, kernel, tables, childPtes, i;
          }
          tables := AddTable(tables, i, t);
          childPtes := shared;
        } else {
          SkipSharing(s0, cur, i, child, tables, childPtes);
        }
      }
      ok := true;
    }

    // ---- destroy_address_space ------------------------------------------------------------------

    /** The state when the references `fs` have been dropped. */
    ghost predicate Released(s0: State, fs: set<nat>)
      reads this, pmm, pmm.bitmap, pmm.refcounts, ram
    {
      && Valid() && |s0.used| == |s0.refs| == pmm.maxFrames && ram[..] == s0.ram && dirs == s0.dirs
      && pmm.bitmap[..] == ReleaseUsed(s0.used, s0.refs, fs) && pmm.refcounts[..] == ReleaseRefs(s0.refs, fs)
    }

    lemma ReleasedIs(s0: State, fs: set<nat>)
      requires Released(s0, fs)
      ensures Valid() && ram[..] == s0.ram
      ensures pmm.bitmap[..] == ReleaseUsed(s0.used, s0.refs, fs) && pmm.refcounts[..] == ReleaseRefs(s0.refs, fs)
    {
    }

    /** dec_ref / free_frame on a frame not yet dropped. */
    method ReleaseFrame(f: nat, ghost s0: State, ghost fs: set<nat>)
      requires Released(s0, fs) && f < |s0.used| && s0.used[f] && f !in fs
      modifies pmm`usedFrames, pmm.bitmap, pmm.refcounts
      ensures Released(s0, fs + {f}) && dirs == s0.dirs
    {
      hide UsedSet;
      ReleaseStep(s0.used, s0.refs, fs, f);
      assert pmm.bitmap[..][f] && pmm.refcounts[..][f] == s0.refs[f];
      pmm.FreeFrame(f);
    }

    /** One page of the inner loop. */
    method ReleasePage(d: nat, p: nat, ghost s0: State, ghost fs: set<nat>)
      requires d in s0.dirs && CanRelease(s0, d) && Frames(s0.dirs[d].ptes) !! fs
      requires Released(s0, fs + FramesIn(s0.dirs[d].ptes, 0, p)) && dirs == s0.dirs
      modifies pmm`usedFrames, pmm.bitmap, pmm.refcounts
      ensures Released(s0, fs + FramesIn(s0.dirs[d].ptes, 0, p + 1)) && dirs == s0.dirs
    {
      hide FramesIn;
      hide Released;
      hide CanRelease;
      hide Frames;
      PageReleasable(s0, d, p);
      GrowStep(s0.dirs[d].ptes, fs, p);
      if p in dirs[d].ptes {
        ReleaseFrame(dirs[d].ptes[p].frame, s0, fs + FramesIn(s0.dirs[d].ptes, 0, p));
      }
    }

    /** The inner loop: every present page of slot i. */
    method ReleasePages(d: nat, i: nat, ghost s0: State, ghost fs: set<nat>)
      requires d in s0.dirs && CanRelease(s0, d) && Frames(s0.dirs[d].ptes) !! fs
      requires Released(s0, fs + FramesIn(s0.dirs[d].ptes, 0, 1024 * i)) && dirs == s0.dirs
      modifies pmm`usedFrames, pmm.bitmap, pmm.refcounts
      ensures Released(s0, fs + FramesIn(s0.dirs[d].ptes, 0, 1024 * (i + 1))) && dirs == s0.dirs
    {
      hide *;
      for j := 0 to 1024
        invariant dirs == s0.dirs && Released(s0, fs + FramesIn(s0.dirs[d].ptes, 0, 1024 * i + j))
      {
        ReleasePage(d, 1024 * i + j, s0, fs);
      }
    }

    /** One slot: its pages, then its table. */
    method ReleaseSlot(d: nat, i: nat, ghost s0: State)
      requires CanRelease(s0, d) && OwnsApart(s0.dirs[d], d) && i in s0.dirs[d].tables && dirs == s0.dirs
      requires Released(s0, TablesTo(s0.dirs[d].tables, i) + FramesIn(s0.dirs[d].ptes, 0, 1024 * i))
      modifies pmm`usedFrames, pmm.bitmap, pmm.refcounts
      ensures Released(s0, TablesTo(s0.dirs[d].tables, i + 1) + FramesIn(s0.dirs[d].ptes, 0, 1024 * (i + 1))) && dirs == s0.dirs
    {
      hide FramesIn;
      hide TablesTo;
      hide Released;
      hide Frames;
      hide DirOk;
      ghost var dir := s0.dirs[d];
      TablesToStep(dir.tables, i);
      ReleasePages(d, i, s0, TablesTo(dir.tables, i));
      FramesInSubset(dir.ptes, 0, 1024 * (i + 1));
      ReleaseFrame(dirs[d].tables[i], s0, TablesTo(dir.tables, i) + FramesIn(dir.ptes, 0, 1024 * (i + 1)));
      assert TablesTo(dir.tables, i) + FramesIn(dir.ptes, 0, 1024 * (i + 1)) + {dir.tables[i]}
          == TablesTo(dir.tables, i + 1) + FramesIn(dir.ptes, 0, 1024 * (i + 1));
    }

    /** destroy_address_space: every page, table and the directory itself lose one reference. */
    method DestroyAddressSpace(d: nat, ghost roles: Roles)
      requires Valid() && Inv(St(), roles) && d in dirs
      modifies this`dirs, pmm`usedFrames, pmm.bitmap, pmm.refcounts
      ensures Valid() && St() == Destroyed(old(St()), d)
      ensures Seen(St()) == old(Seen(St())) - {d}
    {
      hide Inv;
      hide UsedSet;
      hide FramesIn;
      hide TablesTo;
      hide Frames;
      hide DirOk;
      hide CanRelease;
      ghost var s0 := St();
      ghost var dir := s0.dirs[d];
      ReleaseFacts(s0, roles, d);
      FramesInNone(dir.ptes, 0);
      TablesToStep(dir.tables, 0);
      assert TablesTo(dir.tables, 0) + FramesIn(dir.ptes, 0, 0) == {};
      ReleaseNone(s0.used, s0.refs);
      assert Released(s0, {});
      hide Released;
      hide OwnsApart;
      for i := 0 to 1024
        invariant dirs == s0.dirs && Released(s0, TablesTo(dir.tables, i) + FramesIn(dir.ptes, 0, 1024 * i))
      {
        if i != RECURSIVE_PD_INDEX && i in dirs[d].tables {
          ReleaseSlot(d, i, s0);
        } else {
          TablesToSkip(dir, d, i);
        }
      }
      ReleaseRest(s0, d);
      ReleaseFrame(d, s0, dir.tables.Values + Frames(dir.ptes));
      assert dir.tables.Values + Frames(dir.ptes) + {d} == Owned(d, dir);
      ReleasedIs(s0, Owned(d, dir));
      dirs := dirs - {d};
      DestroySeen(s0, roles, d);
    }

    /** unmap_page and free_frame on one page, as munmap and a shrinking sbrk do them. */
    method UnmapPage(cur: nat, page: nat, ghost roles: Roles)
      requires Valid() && Inv(St(), roles) && cur in dirs
      modifies this`dirs, pmm`usedFrames, pmm.bitmap, pmm.refcounts
      ensures Valid()
      ensures page in old(dirs)[cur].ptes ==> Next(old(St()), Drop(cur, page), St())
      ensures page !in old(dirs)[cur].ptes ==> St() == old(St())
      ensures cur in old(Seen(St())) && Seen(St()) == old(Seen(St()))[cur := Without(old(Seen(St()))[cur], page)]
    {
      hide Inv, UsedSet, Seen;
      UnmapSeen(St(), roles, cur, page);
      if page in dirs[cur].ptes {
        ghost var s0 := St();
        FaultFacts(s0, roles, cur, page);
        ReleaseNone(s0.used, s0.refs);
        ReleaseFrame(dirs[cur].ptes[page].frame, s0, {});
        assert {} + {dirs[cur].ptes[page].frame} == {dirs[cur].ptes[page].frame};
        dirs := SetPages(dirs, cur, dirs[cur].ptes - {page});
      }
    }

    /** create_address_space: a directory with the kernel's slots and no user tables. */
    method CreateAddressSpace(kernelSlots: set<nat>, ghost roles: Roles) returns (child: nat)
      requires Valid() && Inv(St(), roles) && forall i :: i in kernelSlots ==> i < RECURSIVE_PD_INDEX
      modifies this`dirs, pmm`usedFrames, pmm.bitmap, pmm.refcounts
      ensures Valid()
      ensures child != 0 <==> FreeSet(old(St()).used) != {}
      ensures child == 0 ==> St() == old(St())
      ensures child != 0 ==> Next(old(St()), Spawn(child, kernelSlots), St())
      ensures child != 0 ==> child !in old(Seen(St())) && Seen(St()) == old(Seen(St()))[child := Space(kernelSlots, map[])]
    {
      hide Inv, UsedSet, FreeSet, Seen;
      ghost var s0 := St();
      SpaceFacts(s0, roles);
      child := pmm.AllocFrame();
      if child == 0 { return; }
      FreeSetIs(s0.used, child);
      TakeNone(s0.used, s0.refs);
      TakeStep(s0.used, s0.refs, {}, child);
      assert {} + {child} == {child};
      var kernel := CopyKernelSlots(kernelSlots);
      dirs := PutDir(dirs, child, Dir(kernel, map[], map[]));
      SpawnSeen(s0, roles, child, kernelSlots);
    }

    /** The loop over the directory of create_address_space. */
    method CopyKernelSlots(kernelSlots: set<nat>) returns (kernel: set<nat>)
      requires forall i :: i in kernelSlots ==> i < RECURSIVE_PD_INDEX
      ensures kernel == kernelSlots
    {
      BelowAll(kernelSlots, 1024);
      hide Below;
      kernel := {};
      for i := 0 to 1024
        invariant kernel == Below(kernelSlots, i)
      {
        BelowStep(kernelSlots, i);
        if i != RECURSIVE_PD_INDEX && i in kernelSlots { kernel := kernel + {i}; }
      }
    }

    // ---- cow_handle_fault -------------------------------------------------------------------------

    /** cow_handle_fault for a fault on `page` of the current directory. It answers true exactly
        when the fault was a write to a present copy-on-write page and, if the page is shared, a
        frame is left; the page is then writable and its contents are the same. */
    method HandleCowFault(cur: nat, page: nat, present: bool, write: bool, ghost roles: Roles) returns (handled: bool, frame: nat)
      requires Valid() && Inv(St(), roles) && cur in dirs
      modifies this`dirs, pmm`usedFrames, pmm.bitmap, pmm.refcounts, ram
      ensures Valid()
      ensures !handled ==> St() == old(St())
      ensures handled <==>
                && present && write && page in old(dirs)[cur].ptes && old(dirs)[cur].ptes[page].cow
                && (LastReference(old(St()), cur, page) || FreeSet(old(St()).used) != {})
      ensures Seen(St()) == old(Seen(St()))
      ensures handled ==> cur in dirs && page in dirs[cur].ptes && dirs[cur].ptes[page].writable && !dirs[cur].ptes[page].cow
      ensures handled && LastReference(old(St()), cur, page) ==> Next(old(St()), Reuse(cur, page), St())
      ensures handled && !LastReference(old(St()), cur, page) ==> Next(old(St()), Copy(cur, page, frame), St())
    {
      hide Inv, UsedSet, FreeSet, Seen;
      handled, frame := false, 0;
      if !present || !write { return; }
      if page !in dirs[cur].ptes { return; }
      var pte := dirs[cur].ptes[page];
      FaultFacts(St(), roles, cur, page);
      if !pte.cow { return; }
      ghost var s0 := St();
      assert pmm.refcounts[..][pte.frame] == pmm.refcounts[pte.frame];
      if pmm.refcounts[pte.frame] == 1 {
        dirs := SetPages(dirs, cur, dirs[cur].ptes[page := Pte(pte.frame, true, false)]);
        FaultSeen(s0, roles, Reuse(cur, page), St());
        return true, 0;
      }
      frame := pmm.AllocFrame();
      if frame == 0 { return; }
      FreeSetIs(s0.used, frame);
      CopyFrame(pte.frame, frame);
      TakeNone(s0.used, s0.refs);
      TakeStep(s0.used, s0.refs, {}, frame);
      assert {} + {frame} == {frame};
      ghost var used1, refs1 := TakeUsed(s0.used, {frame}), TakeRefs(s0.refs, {frame});
      ReleaseNone(used1, refs1);
      ReleaseStep(used1, refs1, {}, pte.frame);
      assert {} + {pte.frame} == {pte.frame};
      assert pmm.bitmap[..][pte.frame] && pmm.refcounts[..][pte.frame] == s0.refs[pte.frame];
      pmm.FreeFrame(pte.frame);
      dirs := SetPages(dirs, cur, dirs[cur].ptes[page := Pte(frame, true, false)]);
      FaultSeen(s0, roles, Copy(cur, page, frame), St());
      handled := true;
    }

    /** The byte-by-byte copy of a frame. */
    method CopyFrame(src: nat, dst: nat)
      requires src < ram.Length && dst < ram.Length && |ram[src]| == |ram[dst]| == PAGE_SIZE
      modifies ram
      ensures ram[..] == old(ram[..])[dst := old(ram[src])]
    {
      ghost var from := ram[src];
      for i := 0 to PAGE_SIZE
        invariant |ram[dst]| == PAGE_SIZE && ram[dst][..i] == from[..i] && ram[src] == from
        invariant forall f :: 0 <= f < ram.Length && f != dst ==> ram[f] == old(ram[f])
      {
        ram[dst] := ram[dst][i := ram[src][i]];
        assert from[..i + 1] == from[..i] + [from[i]];
      }
      assert ram[dst] == ram[dst][..PAGE_SIZE] == from[..PAGE_SIZE] == from;
    }

    // ---- A Ring 3 write ----------------------------------------------------------------------------

    /** When a store to this page can be completed: the page is writable in the eager sense, and
        a frame is left if it has to be copied. */
    ghost predicate CanWrite(s: State, d: nat, p: nat) {
      && d in s.dirs && p in s.dirs[d].ptes
      && (s.dirs[d].ptes[p].writable || (s.dirs[d].ptes[p].cow && (LastReference(s, d, p) || FreeSet(s.used) != {})))
    }

    /** What the MMU and the fault handler do before a store can be retried. */
    method MakeWritable(cur: nat, page: nat, ghost roles: Roles) returns (ok: bool, ghost r: Roles)
      requires Valid() && Inv(St(), roles) && cur in dirs && AllInRam(|St().ram|, St().dirs)
      modifies this`dirs, pmm`usedFrames, pmm.bitmap, pmm.refcounts, ram
      ensures Valid() && Inv(St(), r) && AllInRam(|St().ram|, St().dirs)
      ensures ok <==> CanWrite(old(St()), cur, page)
      ensures !ok ==> St() == old(St())
      ensures ok ==> cur in dirs && page in dirs[cur].ptes && dirs[cur].ptes[page].writable
      ensures Abs(St().ram, St().dirs) == old(Abs(St().ram, St().dirs))
    {
      hide Inv;
      hide FreeSet;
      hide UsedSet;
      hide Abs;
      r, ok := roles, false;
      ghost var s0 := St();
      if page !in dirs[cur].ptes { return; }
      if dirs[cur].ptes[page].writable { return true, roles; }
      var handled, frame := HandleCowFault(cur, page, true, true, roles);
      if !handled { return; }
      ghost var step := if LastReference(s0, cur, page) then Reuse(cur, page) else Copy(cur, page, frame);
      r := StepInv(s0, roles, step, St());
      StepAbs(s0, roles, step, St());
      ok := true;
    }

    /** A byte store by user code. The MMU lets it through on a writable page; on a present
        read-only page it faults, the handler runs, and the store is retried. What the
        processes see afterwards is what the eager specification says. */
    method UserWrite(cur: nat, page: nat, offset: nat, value: Byte, ghost roles: Roles) returns (ok: bool, ghost r: Roles)
      requires Valid() && Inv(St(), roles) && cur in dirs && offset < PAGE_SIZE
      requires AllInRam(|St().ram|, St().dirs)
      modifies this`dirs, pmm`usedFrames, pmm.bitmap, pmm.refcounts, ram
      ensures Valid() && Inv(St(), r) && AllInRam(|St().ram|, St().dirs)
      ensures ok <==> CanWrite(old(St()), cur, page)
      ensures !ok ==> St() == old(St())
      ensures ok ==> Abs(St().ram, St().dirs) == EagerStep(old(Abs(St().ram, St().dirs)), Store(cur, page, offset, value))
    {
      hide Inv;
      hide FreeSet;
      hide UsedSet;
      hide Abs;
      hide EagerStep;
      ok, r := MakeWritable(cur, page, roles);
      if !ok { return; }
      ghost var s1 := St();
      FaultFacts(s1, r, cur, page);
      var f := dirs[cur].ptes[page].frame;
      assert |ram[..][f]| == PAGE_SIZE;
      ram[f] := ram[f][offset := value];
      ghost var store := Store(cur, page, offset, value);
      assert Next(s1, store, St());
      StepAbs(s1, r, store, St());
      r := StepInv(s1, r, store, St());
    }

    // ---- map_page and the demand-paging branches of handle_page_fault ----------------------------

    /** A first touch of `page` maps the lowest free frame. A private mapping fills it with what
        its file provides and zeros; the heap (contents None) leaves the bytes that were there.
        map_page takes a page table first where there is none; if no frame is left for it, the
        page's frame stays taken. */
    method DemandPage(cur: nat, page: nat, contents: Option<Bytes>, writable: bool, ghost roles: Roles)
      returns (mapped: bool, frame: nat, ghost r: Roles)
      requires Valid() && Inv(St(), roles) && cur in dirs && (contents.Some? ==> |contents.value| == PAGE_SIZE)
      requires AllInRam(|St().ram|, St().dirs)
      requires page !in dirs[cur].ptes && page < 1024 * RECURSIVE_PD_INDEX && page / 1024 !in dirs[cur].kernel
      modifies this`dirs, pmm`usedFrames, pmm.bitmap, pmm.refcounts, ram
      ensures Valid() && Inv(St(), r) && AllInRam(|St().ram|, St().dirs)
      ensures mapped <==> |FreeSet(old(St()).used)| > (if page / 1024 in old(dirs)[cur].tables then 0 else 1)
      ensures mapped ==> IsLeast(frame, FreeSet(old(St()).used)) && frame < |old(St()).ram|
      ensures Abs(St().ram, St().dirs) ==
              if mapped then
                EagerStep(old(Abs(St().ram, St().dirs)),
                          MapPage(cur, page, 0, if contents.Some? then contents.value else old(St()).ram[frame], writable))
              else old(Abs(St().ram, St().dirs))
    {
      hide Inv, UsedSet, FreeSet, Abs, EagerStep;
      mapped, r := false, roles;
      ghost var s0 := St();
      SpaceFacts(s0, roles);
      frame := pmm.AllocFrame();
      if frame == 0 {
        return;
      }
      FreeSetIs(s0.used, frame);
      FreeSetLess(s0.used, frame);
      var bytes := if contents.Some? then contents.value else ram[frame];
      if page / 1024 in dirs[cur].tables {
        ram[frame] := bytes;
        dirs := SetPages(dirs, cur, dirs[cur].ptes[page := Pte(frame, writable, false)]);
        r := PageAlone(s0, roles, cur, page, frame, bytes, writable, St());
        mapped := true;
        return;
      }
      var t := pmm.AllocFrame();
      if t == 0 {
        r := FrameLost(s0, roles, frame, St());
        return;
      }
      FreeSetIs(s0.used[frame := true], t);
      dirs := PutDir(dirs, cur, dirs[cur].(tables := AddTable(dirs[cur].tables, page / 1024, t)));
      ram[frame] := bytes;
      dirs := SetPages(dirs, cur, dirs[cur].ptes[page := Pte(frame, writable, false)]);
      r := TableThenPage(s0, roles, cur, page, frame, t, bytes, writable, St());
      mapped := true;
    }
  }

  lemma OkParts(dir: Dir)
    requires DirOk(dir)
    ensures Injective(dir.ptes)
    ensures forall i :: i in dir.tables ==> i < RECURSIVE_PD_INDEX
    ensures forall p :: p in dir.ptes ==> p < 1024 * 1023
  {
    forall p | p in dir.ptes ensures p < 1024 * 1023 { assert p / 1024 in dir.tables; }
  }
}
