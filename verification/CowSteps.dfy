/** The effect of each operation on copy-on-write memory, exactly as the code leaves the
    state, and the proof that each keeps the invariant. */
module CowSteps {
  import opened Collections
  import opened PhysicalMemory
  import opened CowSpec

  // ---- Allocator effects -------------------------------------------------------------------

  /** alloc_frame on each of the frames fs. */
  function TakeUsed(used: seq<bool>, fs: set<nat>): (r: seq<bool>)
    ensures |r| == |used| && forall i :: 0 <= i < |r| ==> r[i] == (used[i] || i in fs)
  {
    seq(|used|, i requires 0 <= i < |used| => used[i] || i in fs)
  }

  function TakeRefs(refs: seq<nat>, fs: set<nat>): (r: seq<nat>)
    ensures |r| == |refs| && forall i :: 0 <= i < |r| ==> r[i] == if i in fs then 1 else refs[i]
  {
    seq(|refs|, i requires 0 <= i < |refs| => if i in fs then 1 else refs[i])
  }

  /** inc_ref on each of the frames fs. */
  function RetainRefs(refs: seq<nat>, fs: set<nat>): (r: seq<nat>)
    ensures |r| == |refs| && forall i :: 0 <= i < |r| ==> r[i] == if i in fs then refs[i] + 1 else refs[i]
  {
    seq(|refs|, i requires 0 <= i < |refs| => if i in fs then refs[i] + 1 else refs[i])
  }

  /** dec_ref on each of the frames fs: the last reference returns the frame. */
  function ReleaseUsed(used: seq<bool>, refs: seq<nat>, fs: set<nat>): (r: seq<bool>)
    requires |used| == |refs|
    ensures |r| == |used| && forall i :: 0 <= i < |r| ==> r[i] == (used[i] && (i in fs ==> refs[i] > 1))
  {
    seq(|used|, i requires 0 <= i < |used| => used[i] && (i in fs ==> refs[i] > 1))
  }

  function ReleaseRefs(refs: seq<nat>, fs: set<nat>): (r: seq<nat>)
    ensures |r| == |refs|
    ensures forall i :: 0 <= i < |r| ==>
              r[i] == if i in fs then if refs[i] > 1 then refs[i] - 1 else 0 else refs[i]
  {
    seq(|refs|, i requires 0 <= i < |refs| =>
      if i in fs then if refs[i] > 1 then refs[i] - 1 else 0 else refs[i])
  }

  // ---- Directory effects ---------------------------------------------------------------------

  /** A writable entry becomes read-only and copy-on-write; others are kept. */
  function CowOf(pte: Pte): Pte {
    if pte.writable then Pte(pte.frame, false, true) else pte
  }

  function CowAll(ptes: Pages): Pages {
    map p | p in ptes :: CowOf(ptes[p])
  }

  /** What the rollback of a failed clone does to an entry it had shared. */
  function UndoOf(pte: Pte): Pte {
    if pte.writable || pte.cow then Pte(pte.frame, true, false) else pte
  }

  function UndoBefore(ptes: Pages, stop: nat): Pages {
    map p | p in ptes :: if p < 1024 * stop then UndoOf(ptes[p]) else ptes[p]
  }

  function PutDir(dirs: Dirs, d: nat, dir: Dir): Dirs {
    dirs[d := dir]
  }

  function SetPages(dirs: Dirs, d: nat, ptes: Pages): Dirs
    requires d in dirs
  {
    PutDir(dirs, d, dirs[d].(ptes := ptes))
  }

  function ForkDirs(dirs: Dirs, parent: nat, child: nat, tables: map<nat, nat>): Dirs
    requires parent in dirs
  {
    var dir := dirs[parent];
    PutDir(SetPages(dirs, parent, CowAll(dir.ptes)), child, Dir(dir.kernel, tables, CowAll(dir.ptes)))
  }

  // ---- What a directory update does to the frames held ----------------------------------

  lemma PutDirProjects(dirs: Dirs, d: nat, dir: Dir)
    ensures Held(PutDir(dirs, d, dir)) == Held(dirs)[d := Frames(dir.ptes)]
    ensures Writable(PutDir(dirs, d, dir)) == Writable(dirs)[d := WritableFrames(dir.ptes)]
    ensures Tables(PutDir(dirs, d, dir)) == Tables(dirs)[d := dir.tables]
  {
  }

  lemma RemoveDirProjects(dirs: Dirs, d: nat)
    ensures Held(dirs - {d}) == Held(dirs) - {d}
    ensures Writable(dirs - {d}) == Writable(dirs) - {d}
    ensures Tables(dirs - {d}) == Tables(dirs) - {d}
  {
  }

  lemma PutDirsOk(dirs: Dirs, d: nat, dir: Dir)
    requires DirsOk(dirs) && DirOk(dir)
    ensures DirsOk(PutDir(dirs, d, dir))
  {
  }

  lemma CowAllFrames(ptes: Pages)
    ensures Frames(CowAll(ptes)) == Frames(ptes)
    ensures WritableFrames(CowAll(ptes)) == {}
  {
    var c := CowAll(ptes);
    forall f | f in Frames(ptes) ensures f in Frames(c) {
      var p :| p in ptes && ptes[p].frame == f;
      assert p in c && c[p].frame == f;
    }
  }

  lemma PutFrames(ptes: Pages, p: nat, pte: Pte)
    requires Injective(ptes)
    requires pte.frame !in Frames(ptes) || (p in ptes && ptes[p].frame == pte.frame)
    ensures Frames(ptes[p := pte]) == (if p in ptes then Frames(ptes) - {ptes[p].frame} else Frames(ptes)) + {pte.frame}
    ensures WritableFrames(ptes[p := pte]) ==
            (if p in ptes then WritableFrames(ptes) - {ptes[p].frame} else WritableFrames(ptes))
            + (if pte.writable then {pte.frame} else {})
  {
    var c := ptes[p := pte];
    assert c[p] == pte;
    forall f | f in Frames(ptes) && (p in ptes ==> f != ptes[p].frame) ensures f in Frames(c) {
      var q :| q in ptes && ptes[q].frame == f;
      assert q in c && c[q] == ptes[q];
    }
    forall f | f in WritableFrames(ptes) && (p in ptes ==> f != ptes[p].frame) ensures f in WritableFrames(c) {
      var q :| q in ptes && ptes[q].frame == f && ptes[q].writable;
      assert q in c && c[q] == ptes[q];
    }
  }

  lemma DropFrames(ptes: Pages, p: nat)
    requires Injective(ptes) && p in ptes
    ensures Frames(ptes - {p}) == Frames(ptes) - {ptes[p].frame}
    ensures WritableFrames(ptes - {p}) == WritableFrames(ptes) - {ptes[p].frame}
  {
    var c := ptes - {p};
    forall f | f in Frames(ptes) && f != ptes[p].frame ensures f in Frames(c) {
      var q :| q in ptes && ptes[q].frame == f;
      assert q in c && c[q] == ptes[q];
    }
    forall f | f in WritableFrames(ptes) && f != ptes[p].frame ensures f in WritableFrames(c) {
      var q :| q in ptes && ptes[q].frame == f && ptes[q].writable;
      assert q in c && c[q] == ptes[q];
    }
  }

  /** The frames whose entries the rollback turns writable. */
  ghost function CowFramesBefore(ptes: Pages, stop: nat): set<nat> {
    set p | p in ptes && p < 1024 * stop && ptes[p].cow :: ptes[p].frame
  }

  lemma UndoFrames(ptes: Pages, stop: nat)
    ensures Frames(UndoBefore(ptes, stop)) == Frames(ptes)
    ensures WritableFrames(UndoBefore(ptes, stop)) == WritableFrames(ptes) + CowFramesBefore(ptes, stop)
  {
    var c := UndoBefore(ptes, stop);
    forall f | f in Frames(ptes) ensures f in Frames(c) {
      var p :| p in ptes && ptes[p].frame == f;
      assert p in c && c[p].frame == f;
    }
    forall f | f in WritableFrames(ptes) ensures f in WritableFrames(c) {
      var p :| p in ptes && ptes[p].frame == f && ptes[p].writable;
      assert p in c && c[p].frame == f && c[p].writable;
    }
    forall f | f in CowFramesBefore(ptes, stop) ensures f in WritableFrames(c) {
      var p :| p in ptes && p < 1024 * stop && ptes[p].cow && ptes[p].frame == f;
      assert p in c && c[p].frame == f && c[p].writable;
    }
  }

  // ---- Counts after an update ----------------------------------------------------------------

  function One(b: bool): nat {
    if b then 1 else 0
  }

  lemma CountPut(held: map<nat, set<nat>>, d: nat, fs: set<nat>, f: nat)
    ensures Count(held[d := fs], f) == Count(held, f) - One(d in held && f in held[d]) + One(f in fs)
  {
    var u, v := Users(held, f), Users(held[d := fs], f);
    assert v - {d} == u - {d};
    assert d in u <==> d in held && f in held[d];
    assert d in v <==> f in fs;
    assert |u| == |u - {d}| + One(d in u);
    assert |v| == |v - {d}| + One(d in v);
  }

  lemma CountRemove(held: map<nat, set<nat>>, d: nat, f: nat)
    ensures Count(held - {d}, f) == Count(held, f) - One(d in held && f in held[d])
  {
    var u := Users(held, f);
    assert Users(held - {d}, f) == u - {d};
    assert d in u <==> d in held && f in held[d];
  }

  lemma CountTwo(held: map<nat, set<nat>>, f: nat, d: nat, e: nat)
    requires d in held && e in held && f in held[d] && f in held[e] && d != e
    ensures Count(held, f) > 1
  {
    Subset({d, e}, Users(held, f));
  }

  lemma CountNone(held: map<nat, set<nat>>, roles: Roles, f: nat)
    requires DataRoles(held, roles) && f !in roles
    ensures Count(held, f) == 0
  {
    assert Users(held, f) == {};
  }

  ghost predicate Fresh(used: seq<bool>, f: nat) {
    f < |used| && !used[f]
  }

  // ---- One more frame in use ---------------------------------------------------------------

  lemma TakeCover(used: seq<bool>, roles: Roles, t: nat, role: Role)
    requires RolesCover(used, roles) && Fresh(used, t)
    ensures RolesCover(TakeUsed(used, {t}), roles[t := role]) && t !in roles
  {
  }

  lemma TakeCounts(refs: seq<nat>, held: map<nat, set<nat>>, held': map<nat, set<nat>>, roles: Roles, t: nat, role: Role)
    requires CountsOk(refs, held, roles) && t !in roles && t < |refs|
    requires forall f :: f in roles && roles[f] == Data ==> Count(held', f) == Count(held, f)
    requires role == Data ==> Count(held', t) == 1
    ensures CountsOk(TakeRefs(refs, {t}), held', roles[t := role])
  {
    hide Count;
  }

  lemma TakeExclusive(refs: seq<nat>, fs: set<nat>, writable: map<nat, set<nat>>)
    requires Exclusive(refs, writable)
    ensures Exclusive(TakeRefs(refs, fs), writable)
  {
  }

  /** d's writable frames lose `gone` and may gain f, which has one reference. */
  lemma PutExclusive(refs: seq<nat>, writable: map<nat, set<nat>>, d: nat, fs: set<nat>)
    requires Exclusive(refs, writable)
    requires forall f :: f in fs ==> (d in writable && f in writable[d]) || (f < |refs| && refs[f] == 1)
    ensures Exclusive(refs, writable[d := fs])
  {
  }

  lemma RolesExtend(tables: map<nat, map<nat, nat>>, held: map<nat, set<nat>>, roles: Roles, t: nat, role: Role)
    requires OwnRoles(tables, roles) && DataRoles(held, roles) && t !in roles
    ensures OwnRoles(tables, roles[t := role]) && DataRoles(held, roles[t := role])
  {
  }

  // ---- A new, empty address space ---------------------------------------------------------

  function Spawned(s: State, child: nat, kernel: set<nat>): State {
    State(TakeUsed(s.used, {child}), TakeRefs(s.refs, {child}), s.ram,
          PutDir(s.dirs, child, Dir(kernel, map[], map[])))
  }

  ghost predicate CanSpawn(s: State, child: nat, kernel: set<nat>) {
    Fresh(s.used, child) && forall i :: i in kernel ==> i < RECURSIVE_PD_INDEX
  }

  lemma SpawnProjects(dirs: Dirs, child: nat, dir: Dir)
    requires dir.tables == map[] && dir.ptes == map[]
    ensures var dirs' := PutDir(dirs, child, dir);
            Held(dirs') == Held(dirs)[child := {}] && Writable(dirs') == Writable(dirs)[child := {}]
            && Tables(dirs') == Tables(dirs)[child := map[]]
  {
    PutDirProjects(dirs, child, dir);
    assert Frames(dir.ptes) == {} && WritableFrames(dir.ptes) == {};
  }

  lemma SpawnRoles(tables: map<nat, map<nat, nat>>, held: map<nat, set<nat>>, roles: Roles, child: nat)
    requires OwnRoles(tables, roles) && DataRoles(held, roles) && child !in roles
    ensures OwnRoles(tables[child := map[]], roles[child := Directory])
    ensures DataRoles(held[child := {}], roles[child := Directory])
  {
  }

  lemma SpawnCore(refs: seq<nat>, dirs: Dirs, roles: Roles, child: nat, dir: Dir)
    requires OwnRoles(Tables(dirs), roles) && DataRoles(Held(dirs), roles) && CountsOk(refs, Held(dirs), roles)
    requires Exclusive(refs, Writable(dirs)) && child !in roles && child < |refs|
    requires dir.tables == map[] && dir.ptes == map[]
    ensures var dirs', r := PutDir(dirs, child, dir), roles[child := Directory];
            && OwnRoles(Tables(dirs'), r) && DataRoles(Held(dirs'), r)
            && CountsOk(TakeRefs(refs, {child}), Held(dirs'), r) && Exclusive(TakeRefs(refs, {child}), Writable(dirs'))
  {
    hide Count;
    hide CountsOk;
    hide Exclusive;
    hide DataRoles;
    var held := Held(dirs);
    SpawnProjects(dirs, child, dir);
    SpawnRoles(Tables(dirs), held, roles, child);
    assert child !in Tables(dirs);
    forall f ensures Count(held[child := {}], f) == Count(held, f) { CountPut(held, child, {}, f); }
    TakeCounts(refs, held, held[child := {}], roles, child, Directory);
    TakeExclusive(refs, {child}, Writable(dirs));
    PutExclusive(TakeRefs(refs, {child}), Writable(dirs), child, {});
  }

  lemma SpawnInv(s: State, roles: Roles, child: nat, kernel: set<nat>)
    requires Inv(s, roles) && CanSpawn(s, child, kernel)
    ensures Inv(Spawned(s, child, kernel), roles[child := Directory])
  {
    hide DirsOk;
    hide RolesCover;
    hide OwnRoles;
    hide DataRoles;
    hide CountsOk;
    hide Exclusive;
    TakeCover(s.used, roles, child, Directory);
    PutDirsOk(s.dirs, child, Dir(kernel, map[], map[]));
    SpawnCore(s.refs, s.dirs, roles, child, Dir(kernel, map[], map[]));
  }

  // ---- map_page: a page table, then an entry ------------------------------------------------

  function AddTable(tables: map<nat, nat>, i: nat, t: nat): map<nat, nat> {
    tables[i := t]
  }

  function Tabled(s: State, d: nat, i: nat, t: nat): State
    requires d in s.dirs
  {
    State(TakeUsed(s.used, {t}), TakeRefs(s.refs, {t}), s.ram,
          PutDir(s.dirs, d, s.dirs[d].(tables := AddTable(s.dirs[d].tables, i, t))))
  }

  ghost predicate CanTable(s: State, d: nat, i: nat, t: nat) {
    d in s.dirs && i < RECURSIVE_PD_INDEX && i !in s.dirs[d].kernel && i !in s.dirs[d].tables && Fresh(s.used, t)
  }

  lemma TableRoles(tables: map<nat, map<nat, nat>>, roles: Roles, d: nat, i: nat, t: nat)
    requires OwnRoles(tables, roles) && d in tables && t !in roles
    ensures OwnRoles(tables[d := AddTable(tables[d], i, t)], roles[t := Table(d, i)])
  {
  }

  lemma TableCore(refs: seq<nat>, dirs: Dirs, roles: Roles, d: nat, i: nat, t: nat)
    requires OwnRoles(Tables(dirs), roles) && DataRoles(Held(dirs), roles) && CountsOk(refs, Held(dirs), roles)
    requires Exclusive(refs, Writable(dirs)) && d in dirs && t !in roles && t < |refs|
    ensures var dirs', r := PutDir(dirs, d, dirs[d].(tables := AddTable(dirs[d].tables, i, t))), roles[t := Table(d, i)];
            && OwnRoles(Tables(dirs'), r) && DataRoles(Held(dirs'), r)
            && CountsOk(TakeRefs(refs, {t}), Held(dirs'), r) && Exclusive(TakeRefs(refs, {t}), Writable(dirs'))
  {
    hide DataRoles;
    hide OwnRoles;
    hide CountsOk;
    hide Exclusive;
    var dir := dirs[d].(tables := AddTable(dirs[d].tables, i, t));
    PutDirProjects(dirs, d, dir);
    assert Held(dirs)[d := Frames(dir.ptes)] == Held(dirs);
    assert Writable(dirs)[d := WritableFrames(dir.ptes)] == Writable(dirs);
    RolesExtend(Tables(dirs), Held(dirs), roles, t, Table(d, i));
    TakeCounts(refs, Held(dirs), Held(dirs), roles, t, Table(d, i));
    TakeExclusive(refs, {t}, Writable(dirs));
    TableRoles(Tables(dirs), roles, d, i, t);
  }

  lemma TableInv(s: State, roles: Roles, d: nat, i: nat, t: nat)
    requires Inv(s, roles) && CanTable(s, d, i, t)
    ensures Inv(Tabled(s, d, i, t), roles[t := Table(d, i)])
  {
    hide RolesCover;
    hide OwnRoles;
    hide DataRoles;
    hide CountsOk;
    hide Exclusive;
    TakeCover(s.used, roles, t, Table(d, i));
    assert DirOk(s.dirs[d]);
    PutDirsOk(s.dirs, d, s.dirs[d].(tables := AddTable(s.dirs[d].tables, i, t)));
    TableCore(s.refs, s.dirs, roles, d, i, t);
  }

  function PageMapped(s: State, d: nat, p: nat, f: nat, bytes: Bytes, writable: bool): State
    requires d in s.dirs && f < |s.ram|
  {
    State(TakeUsed(s.used, {f}), TakeRefs(s.refs, {f}), s.ram[f := bytes],
          SetPages(s.dirs, d, s.dirs[d].ptes[p := Pte(f, writable, false)]))
  }

  ghost predicate CanMap(s: State, d: nat, p: nat, f: nat, bytes: Bytes) {
    && d in s.dirs && p !in s.dirs[d].ptes && p / 1024 in s.dirs[d].tables
    && Fresh(s.used, f) && f < |s.ram| && |bytes| == PAGE_SIZE
  }

  lemma PutDirOk(dir: Dir, p: nat, pte: Pte)
    requires DirOk(dir) && p / 1024 in dir.tables && !(pte.writable && pte.cow)
    requires pte.frame !in Frames(dir.ptes) || (p in dir.ptes && dir.ptes[p].frame == pte.frame)
    ensures DirOk(dir.(ptes := dir.ptes[p := pte]))
  {
    forall q | q in dir.ptes ensures dir.ptes[q].frame in Frames(dir.ptes) { }
  }

  /** Changing page p's entry changes what d holds by the old and the new frame. */
  lemma PutProjects(dirs: Dirs, d: nat, p: nat, pte: Pte)
    requires DirsOk(dirs) && d in dirs && p / 1024 in dirs[d].tables && !(pte.writable && pte.cow)
    requires pte.frame !in Held(dirs)[d] || (p in dirs[d].ptes && dirs[d].ptes[p].frame == pte.frame)
    ensures var dirs' := SetPages(dirs, d, dirs[d].ptes[p := pte]);
            var gone := if p in dirs[d].ptes then {dirs[d].ptes[p].frame} else {};
            && DirsOk(dirs')
            && Held(dirs') == Held(dirs)[d := Held(dirs)[d] - gone + {pte.frame}]
            && Writable(dirs') == Writable(dirs)[d := Writable(dirs)[d] - gone + if pte.writable then {pte.frame} else {}]
            && Tables(dirs') == Tables(dirs)
            && gone <= Held(dirs)[d]
  {
    hide DirOk;
    hide Frames;
    hide WritableFrames;
    var dir := dirs[d].(ptes := dirs[d].ptes[p := pte]);
    assert DirOk(dirs[d]);
    OkInjective(dirs[d], p);
    PutFrames(dirs[d].ptes, p, pte);
    PutDirOk(dirs[d], p, pte);
    PutDirProjects(dirs, d, dir);
    PutDirsOk(dirs, d, dir);
    assert Tables(dirs)[d := dir.tables] == Tables(dirs);
    if p !in dirs[d].ptes {
      assert Held(dirs)[d] - {} == Held(dirs)[d];
      assert Writable(dirs)[d] - {} == Writable(dirs)[d];
    }
  }

  lemma OkInjective(dir: Dir, p: nat)
    requires DirOk(dir)
    ensures Injective(dir.ptes)
    ensures p in dir.ptes ==> dir.ptes[p].frame in Frames(dir.ptes) && p / 1024 in dir.tables
  {
  }

  lemma HoldData(held: map<nat, set<nat>>, roles: Roles, d: nat, gone: set<nat>, f: nat)
    requires DataRoles(held, roles) && d in held && f !in roles
    ensures DataRoles(held[d := held[d] - gone + {f}], roles[f := Data])
  {
  }

  lemma MapCore(refs: seq<nat>, dirs: Dirs, roles: Roles, d: nat, p: nat, pte: Pte)
    requires DirsOk(dirs) && OwnRoles(Tables(dirs), roles) && DataRoles(Held(dirs), roles)
    requires CountsOk(refs, Held(dirs), roles) && Exclusive(refs, Writable(dirs))
    requires d in dirs && p !in dirs[d].ptes && p / 1024 in dirs[d].tables
    requires pte.frame !in roles && pte.frame < |refs| && !pte.cow
    ensures var dirs', r, refs' := SetPages(dirs, d, dirs[d].ptes[p := pte]), roles[pte.frame := Data], TakeRefs(refs, {pte.frame});
            && DirsOk(dirs') && OwnRoles(Tables(dirs'), r) && DataRoles(Held(dirs'), r)
            && CountsOk(refs', Held(dirs'), r) && Exclusive(refs', Writable(dirs'))
  {
    hide DirsOk;
    hide OwnRoles;
    hide CountsOk;
    hide Count;
    hide Exclusive;
    var held, f := Held(dirs), pte.frame;
    PutProjects(dirs, d, p, pte);
    HoldData(held, roles, d, {}, f);
    RolesExtend(Tables(dirs), held, roles, f, Data);
    CountNone(held, roles, f);
    var held' := held[d := held[d] - {} + {f}];
    forall g ensures Count(held', g) == Count(held, g) + One(g == f) {
      CountPut(held, d, held[d] - {} + {f}, g);
    }
    TakeCounts(refs, held, held', roles, f, Data);
    TakeExclusive(refs, {f}, Writable(dirs));
    PutExclusive(TakeRefs(refs, {f}), Writable(dirs), d, Writable(dirs)[d] - {} + if pte.writable then {f} else {});
  }

  lemma MapInv(s: State, roles: Roles, d: nat, p: nat, f: nat, bytes: Bytes, writable: bool)
    requires Inv(s, roles) && CanMap(s, d, p, f, bytes)
    ensures Inv(PageMapped(s, d, p, f, bytes, writable), roles[f := Data])
  {
    hide DirsOk;
    hide RolesCover;
    hide OwnRoles;
    hide DataRoles;
    hide CountsOk;
    hide Exclusive;
    TakeCover(s.used, roles, f, Data);
    MapCore(s.refs, s.dirs, roles, d, p, Pte(f, writable, false));
  }

  /** A frame taken and never mapped: map_page found no frame for the page table. */
  function Leaked(s: State, f: nat): State {
    State(TakeUsed(s.used, {f}), TakeRefs(s.refs, {f}), s.ram, s.dirs)
  }

  lemma LeakInv(s: State, roles: Roles, f: nat)
    requires Inv(s, roles) && Fresh(s.used, f)
    ensures Inv(Leaked(s, f), roles[f := Reserved])
  {
    hide DirsOk;
    hide RolesCover;
    hide OwnRoles;
    hide DataRoles;
    hide CountsOk;
    hide Exclusive;
    TakeCover(s.used, roles, f, Reserved);
    RolesExtend(Tables(s.dirs), Held(s.dirs), roles, f, Reserved);
    TakeCounts(s.refs, Held(s.dirs), Held(s.dirs), roles, f, Reserved);
    TakeExclusive(s.refs, {f}, Writable(s.dirs));
  }

  // ---- The two branches of cow_handle_fault -----------------------------------------------

  ghost predicate CowMapped(s: State, d: nat, p: nat) {
    d in s.dirs && p in s.dirs[d].ptes && s.dirs[d].ptes[p].cow && s.dirs[d].ptes[p].frame < |s.refs| == |s.ram| == |s.used|
  }

  /** The faulting process holds the last reference: the page becomes writable in place. */
  function Reused(s: State, d: nat, p: nat): State
    requires d in s.dirs && p in s.dirs[d].ptes
  {
    s.(dirs := SetPages(s.dirs, d, s.dirs[d].ptes[p := Pte(s.dirs[d].ptes[p].frame, true, false)]))
  }

  ghost predicate CanReuse(s: State, d: nat, p: nat) {
    CowMapped(s, d, p) && s.refs[s.dirs[d].ptes[p].frame] == 1
  }

  lemma TableOf(dirs: Dirs, d: nat, p: nat)
    requires DirsOk(dirs) && d in dirs && p in dirs[d].ptes
    ensures p / 1024 in dirs[d].tables
  {
    assert DirOk(dirs[d]);
  }

  lemma ReuseCore(refs: seq<nat>, dirs: Dirs, roles: Roles, d: nat, p: nat, pte: Pte)
    requires DirsOk(dirs) && Exclusive(refs, Writable(dirs))
    requires d in dirs && p in dirs[d].ptes && pte.frame == dirs[d].ptes[p].frame && pte.writable && !pte.cow
    requires pte.frame < |refs| && refs[pte.frame] == 1
    ensures var dirs' := SetPages(dirs, d, dirs[d].ptes[p := pte]);
            && DirsOk(dirs') && Tables(dirs') == Tables(dirs) && Held(dirs') == Held(dirs)
            && Exclusive(refs, Writable(dirs'))
  {
    hide DirsOk;
    hide Exclusive;
    hide Frames;
    TableOf(dirs, d, p);
    PutProjects(dirs, d, p, pte);
    assert Held(dirs)[d] - {pte.frame} + {pte.frame} == Held(dirs)[d];
    PutExclusive(refs, Writable(dirs), d, Writable(dirs)[d] - {pte.frame} + {pte.frame});
  }

  lemma ReuseInv(s: State, roles: Roles, d: nat, p: nat)
    requires Inv(s, roles) && CanReuse(s, d, p)
    ensures Inv(Reused(s, d, p), roles)
  {
    hide DirsOk;
    hide RolesCover;
    hide OwnRoles;
    hide DataRoles;
    hide CountsOk;
    hide Exclusive;
    ReuseCore(s.refs, s.dirs, roles, d, p, Pte(s.dirs[d].ptes[p].frame, true, false));
  }

  /** The frame is shared: copy it, drop one reference, and map the copy writable. */
  function Split(s: State, d: nat, p: nat, f: nat): State
    requires d in s.dirs && p in s.dirs[d].ptes && s.dirs[d].ptes[p].frame < |s.ram| && f < |s.ram|
    requires |s.used| == |s.refs|
  {
    var g := s.dirs[d].ptes[p].frame;
    State(ReleaseUsed(TakeUsed(s.used, {f}), TakeRefs(s.refs, {f}), {g}), ReleaseRefs(TakeRefs(s.refs, {f}), {g}),
          s.ram[f := s.ram[g]], SetPages(s.dirs, d, s.dirs[d].ptes[p := Pte(f, true, false)]))
  }

  ghost predicate CanSplit(s: State, d: nat, p: nat, f: nat) {
    CowMapped(s, d, p) && s.refs[s.dirs[d].ptes[p].frame] != 1 && Fresh(s.used, f)
  }

  /** Dropping a reference that is not the last returns no frame. */
  lemma SplitUsed(used: seq<bool>, refs: seq<nat>, f: nat, g: nat)
    requires |used| == |refs| && g < |refs| && refs[g] > 1 && f != g
    ensures ReleaseUsed(TakeUsed(used, {f}), TakeRefs(refs, {f}), {g}) == TakeUsed(used, {f})
  {
  }

  lemma SplitCounts(refs: seq<nat>, held: map<nat, set<nat>>, roles: Roles, held': map<nat, set<nat>>, f: nat, g: nat)
    requires CountsOk(refs, held, roles) && f !in roles && f < |refs| && g in roles && roles[g] == Data && refs[g] > 1
    requires forall h :: Count(held', h) == Count(held, h) + One(h == f) - One(h == g)
    requires Count(held, f) == 0
    ensures CountsOk(ReleaseRefs(TakeRefs(refs, {f}), {g}), held', roles[f := Data])
  {
    hide Count;
  }

  /** Dropping one reference of a shared frame leaves the unshared frames alone. */
  lemma SplitExclusive(refs: seq<nat>, writable: map<nat, set<nat>>, f: nat, g: nat)
    requires Exclusive(refs, writable) && g < |refs| && f != g && refs[g] > 1
    ensures Exclusive(ReleaseRefs(TakeRefs(refs, {f}), {g}), writable)
  {
  }

  /** A frame named by an entry has role Data and at least one reference. */
  lemma NamedIsData(refs: seq<nat>, dirs: Dirs, roles: Roles, d: nat, p: nat)
    requires DataRoles(Held(dirs), roles) && CountsOk(refs, Held(dirs), roles) && d in dirs && p in dirs[d].ptes
    ensures var g := dirs[d].ptes[p].frame;
            && g in Held(dirs)[d] && g in roles && roles[g] == Data && g < |refs| && refs[g] == Count(Held(dirs), g) >= 1
  {
    hide Count;
    assert dirs[d].ptes[p].frame in Held(dirs)[d];
  }

  lemma SplitCore(refs: seq<nat>, dirs: Dirs, roles: Roles, d: nat, p: nat, f: nat)
    requires DirsOk(dirs) && OwnRoles(Tables(dirs), roles) && DataRoles(Held(dirs), roles)
    requires CountsOk(refs, Held(dirs), roles) && Exclusive(refs, Writable(dirs))
    requires d in dirs && p in dirs[d].ptes && f !in roles && f < |refs|
    requires dirs[d].ptes[p].frame < |refs| && refs[dirs[d].ptes[p].frame] != 1
    ensures refs[dirs[d].ptes[p].frame] > 1 && dirs[d].ptes[p].frame in roles
    ensures var dirs', r := SetPages(dirs, d, dirs[d].ptes[p := Pte(f, true, false)]), roles[f := Data];
            var refs' := ReleaseRefs(TakeRefs(refs, {f}), {dirs[d].ptes[p].frame});
            && DirsOk(dirs') && OwnRoles(Tables(dirs'), r) && DataRoles(Held(dirs'), r)
            && CountsOk(refs', Held(dirs'), r) && Exclusive(refs', Writable(dirs'))
  {
    hide DirsOk;
    hide OwnRoles;
    hide CountsOk;
    hide Exclusive;
    hide Count;
    hide Frames;
    hide WritableFrames;
    var held, g, pte := Held(dirs), dirs[d].ptes[p].frame, Pte(f, true, false);
    TableOf(dirs, d, p);
    NamedIsData(refs, dirs, roles, d, p);
    PutProjects(dirs, d, p, pte);
    RolesExtend(Tables(dirs), held, roles, f, Data);
    HoldData(held, roles, d, {g}, f);
    CountNone(held, roles, f);
    var held' := held[d := held[d] - {g} + {f}];
    forall h ensures Count(held', h) == Count(held, h) + One(h == f) - One(h == g) {
      CountPut(held, d, held[d] - {g} + {f}, h);
    }
    SplitCounts(refs, held, roles, held', f, g);
    SplitExclusive(refs, Writable(dirs), f, g);
    PutExclusive(ReleaseRefs(TakeRefs(refs, {f}), {g}), Writable(dirs), d, Writable(dirs)[d] - {g} + {f});
  }

  lemma SplitInv(s: State, roles: Roles, d: nat, p: nat, f: nat)
    requires Inv(s, roles) && CanSplit(s, d, p, f)
    ensures Inv(Split(s, d, p, f), roles[f := Data])
  {
    hide DirsOk;
    hide RolesCover;
    hide OwnRoles;
    hide DataRoles;
    hide CountsOk;
    hide Exclusive;
    TakeCover(s.used, roles, f, Data);
    SplitCore(s.refs, s.dirs, roles, d, p, f);
    SplitUsed(s.used, s.refs, f, s.dirs[d].ptes[p].frame);
  }

  // ---- Releasing a page, and a whole address space -----------------------------------------

  function Dropped(s: State, d: nat, p: nat): State
    requires d in s.dirs && p in s.dirs[d].ptes && |s.used| == |s.refs|
  {
    var g := s.dirs[d].ptes[p].frame;
    State(ReleaseUsed(s.used, s.refs, {g}), ReleaseRefs(s.refs, {g}), s.ram,
          SetPages(s.dirs, d, s.dirs[d].ptes - {p}))
  }

  /** The frames destroy_address_space releases: the pages, the tables and the directory. */
  function Owned(d: nat, dir: Dir): set<nat> {
    Frames(dir.ptes) + dir.tables.Values + {d}
  }

  function Destroyed(s: State, d: nat): State
    requires d in s.dirs && |s.used| == |s.refs|
  {
    var fs := Owned(d, s.dirs[d]);
    State(ReleaseUsed(s.used, s.refs, fs), ReleaseRefs(s.refs, fs), s.ram, s.dirs - {d})
  }

  /** The roles of the frames still in use. */
  ghost function Surviving(roles: Roles, used: seq<bool>): (r: Roles)
    ensures forall f :: f in r <==> f in roles && f < |used| && used[f]
    ensures forall f :: f in r ==> r[f] == roles[f]
  {
    map f | f in roles && f < |used| && used[f] :: roles[f]
  }

  lemma ReleaseCover(used: seq<bool>, refs: seq<nat>, fs: set<nat>, roles: Roles)
    requires |used| == |refs| && RolesCover(used, roles) && 0 !in fs
    ensures RolesCover(ReleaseUsed(used, refs, fs), Surviving(roles, ReleaseUsed(used, refs, fs)))
  {
  }

  /** Releasing fs takes one holder, and one reference, from each data frame in fs. */
  lemma ReleaseCounts(used: seq<bool>, refs: seq<nat>, held: map<nat, set<nat>>, held': map<nat, set<nat>>,
                      roles: Roles, fs: set<nat>)
    requires |used| == |refs| && RolesCover(used, roles) && CountsOk(refs, held, roles)
    requires forall f :: f in roles && roles[f] == Data ==> Count(held', f) == Count(held, f) - One(f in fs)
    ensures CountsOk(ReleaseRefs(refs, fs), held', Surviving(roles, ReleaseUsed(used, refs, fs)))
  {
    hide Count;
    var used' := ReleaseUsed(used, refs, fs);
    forall f | f in Surviving(roles, used') ensures f in fs ==> refs[f] > 1 { assert used'[f]; }
  }

  /** Frames named elsewhere stay in use. */
  lemma ReleaseRoles(used: seq<bool>, refs: seq<nat>, fs: set<nat>, roles: Roles,
                     tables: map<nat, map<nat, nat>>, held: map<nat, set<nat>>)
    requires |used| == |refs| && RolesCover(used, roles) && OwnRoles(tables, roles) && DataRoles(held, roles)
    requires forall d :: d in tables ==> d !in fs
    requires forall d, i {:trigger tables[d][i]} :: d in tables && i in tables[d] ==> tables[d][i] !in fs
    requires forall d, f {:trigger f in held[d]} :: d in held && f in held[d] && f in fs ==> f < |refs| && refs[f] > 1
    ensures var r := Surviving(roles, ReleaseUsed(used, refs, fs));
            OwnRoles(tables, r) && DataRoles(held, r)
  {
  }

  /** A frame with one reference left after a release was not released, unless unshared then. */
  lemma ReleaseExclusive(refs: seq<nat>, fs: set<nat>, writable: map<nat, set<nat>>)
    requires Exclusive(refs, writable)
    requires forall d, f {:trigger f in writable[d]} :: d in writable && f in writable[d] ==> f !in fs
    ensures Exclusive(ReleaseRefs(refs, fs), writable)
  {
  }

  lemma DropProjects(dirs: Dirs, d: nat, p: nat)
    requires DirsOk(dirs) && d in dirs && p in dirs[d].ptes
    ensures var dirs', g := SetPages(dirs, d, dirs[d].ptes - {p}), dirs[d].ptes[p].frame;
            && DirsOk(dirs')
            && Held(dirs') == Held(dirs)[d := Held(dirs)[d] - {g}]
            && Writable(dirs') == Writable(dirs)[d := Writable(dirs)[d] - {g}]
            && Tables(dirs') == Tables(dirs)
  {
    hide Frames;
    hide WritableFrames;
    var dir := dirs[d].(ptes := dirs[d].ptes - {p});
    assert DirOk(dirs[d]) && DirOk(dir);
    DropFrames(dirs[d].ptes, p);
    PutDirProjects(dirs, d, dir);
    PutDirsOk(dirs, d, dir);
    assert Tables(dirs)[d := dir.tables] == Tables(dirs);
  }

  /** A frame that d alone could write is written by no other address space. */
  lemma ExclusiveApart(refs: seq<nat>, dirs: Dirs, roles: Roles, d: nat, e: nat, f: nat)
    requires CountsOk(refs, Held(dirs), roles) && DataRoles(Held(dirs), roles) && Exclusive(refs, Writable(dirs))
    requires d in dirs && e in dirs && d != e && f in Held(dirs)[d]
    ensures f !in Writable(dirs)[e]
  {
    hide Count;
    if f in Writable(dirs)[e] {
      assert refs[f] == 1;
      assert f in Held(dirs)[e];
      CountTwo(Held(dirs), f, d, e);
      assert false;
    }
  }

  lemma DropCore(s: State, roles: Roles, d: nat, p: nat)
    requires Inv(s, roles) && d in s.dirs && p in s.dirs[d].ptes
    ensures var g := s.dirs[d].ptes[p].frame;
            var dirs', r := SetPages(s.dirs, d, s.dirs[d].ptes - {p}), Surviving(roles, ReleaseUsed(s.used, s.refs, {g}));
            && g != 0 && OwnRoles(Tables(dirs'), r) && DataRoles(Held(dirs'), r)
            && CountsOk(ReleaseRefs(s.refs, {g}), Held(dirs'), r) && Exclusive(ReleaseRefs(s.refs, {g}), Writable(dirs'))
  {
    hide DirsOk;
    hide Count;
    hide Frames;
    hide WritableFrames;
    hide CountsOk;
    hide Exclusive;
    var held, g := Held(s.dirs), s.dirs[d].ptes[p].frame;
    DropProjects(s.dirs, d, p);
    NamedIsData(s.refs, s.dirs, roles, d, p);
    var held' := held[d := held[d] - {g}];
    DropCounts(s.used, s.refs, held, roles, d, g);
    DropRoles(s, roles, d, g);
    DropExclusive(s, roles, d, p);
  }

  lemma DropRoles(s: State, roles: Roles, d: nat, g: nat)
    requires Inv(s, roles) && d in s.dirs && g in Held(s.dirs)[d]
    requires g in roles && roles[g] == Data && g < |s.refs| && s.refs[g] == Count(Held(s.dirs), g) >= 1
    ensures var held', r := Held(s.dirs)[d := Held(s.dirs)[d] - {g}], Surviving(roles, ReleaseUsed(s.used, s.refs, {g}));
            OwnRoles(Tables(s.dirs), r) && DataRoles(held', r)
  {
    hide DirsOk, Count, Frames, WritableFrames, CountsOk, Exclusive;
    var held := Held(s.dirs);
    var held' := held[d := held[d] - {g}];
    forall e | e in held' && g in held'[e] ensures s.refs[g] > 1 { CountTwo(held, g, d, e); }
    HeldSubset(held, roles, d, {g});
    ReleaseRoles(s.used, s.refs, {g}, roles, Tables(s.dirs), held');
  }

  lemma DropCounts(used: seq<bool>, refs: seq<nat>, held: map<nat, set<nat>>, roles: Roles, d: nat, g: nat)
    requires |used| == |refs| && RolesCover(used, roles) && CountsOk(refs, held, roles) && d in held && g in held[d]
    ensures CountsOk(ReleaseRefs(refs, {g}), held[d := held[d] - {g}], Surviving(roles, ReleaseUsed(used, refs, {g})))
  {
    hide Count, CountsOk;
    var held' := held[d := held[d] - {g}];
    forall f ensures Count(held', f) == Count(held, f) - One(f == g) { CountPut(held, d, held[d] - {g}, f); }
    ReleaseCounts(used, refs, held, held', roles, {g});
  }

  lemma DropExclusive(s: State, roles: Roles, d: nat, p: nat)
    requires Inv(s, roles) && d in s.dirs && p in s.dirs[d].ptes
    ensures var g := s.dirs[d].ptes[p].frame;
            Exclusive(ReleaseRefs(s.refs, {g}), Writable(s.dirs)[d := Writable(s.dirs)[d] - {g}])
  {
    hide DirsOk, Count, Frames, WritableFrames, CountsOk, Exclusive;
    var g := s.dirs[d].ptes[p].frame;
    NamedIsData(s.refs, s.dirs, roles, d, p);
    forall e | e in s.dirs && e != d ensures g !in Writable(s.dirs)[e] {
      ExclusiveApart(s.refs, s.dirs, roles, d, e, g);
    }
    PutExclusive(s.refs, Writable(s.dirs), d, Writable(s.dirs)[d] - {g});
    ReleaseExclusive(s.refs, {g}, Writable(s.dirs)[d := Writable(s.dirs)[d] - {g}]);
  }

  lemma HeldSubset(held: map<nat, set<nat>>, roles: Roles, d: nat, gone: set<nat>)
    requires DataRoles(held, roles) && d in held
    ensures DataRoles(held[d := held[d] - gone], roles)
  {
  }

  lemma DropInv(s: State, roles: Roles, d: nat, p: nat)
    requires Inv(s, roles) && d in s.dirs && p in s.dirs[d].ptes
    ensures Inv(Dropped(s, d, p), Surviving(roles, Dropped(s, d, p).used))
  {
    hide DirsOk;
    hide RolesCover;
    hide OwnRoles;
    hide DataRoles;
    hide CountsOk;
    hide Exclusive;
    DropCore(s, roles, d, p);
    DropProjects(s.dirs, d, p);
    ReleaseCover(s.used, s.refs, {s.dirs[d].ptes[p].frame}, roles);
  }

  lemma OwnedRoles(s: State, roles: Roles, d: nat)
    requires OwnRoles(Tables(s.dirs), roles) && DataRoles(Held(s.dirs), roles) && RolesCover(s.used, roles) && d in s.dirs
    ensures 0 !in Owned(d, s.dirs[d])
    ensures forall e :: e in s.dirs && e != d ==> e !in Owned(d, s.dirs[d])
    ensures forall e, i {:trigger s.dirs[e].tables[i]} :: e in s.dirs && e != d && i in s.dirs[e].tables ==>
              s.dirs[e].tables[i] !in Owned(d, s.dirs[d])
    ensures forall f :: f in roles && roles[f] == Data ==> (f in Owned(d, s.dirs[d]) <==> f in Held(s.dirs)[d])
  {
    hide Frames;
    assert Held(s.dirs)[d] == Frames(s.dirs[d].ptes);
    forall t | t in s.dirs[d].tables.Values ensures t in roles && roles[t].Table? && roles[t].dir == d {
      var i :| i in s.dirs[d].tables && s.dirs[d].tables[i] == t;
      assert Tables(s.dirs)[d][i] == t;
    }
    forall e, i | e in s.dirs && i in s.dirs[e].tables
      ensures s.dirs[e].tables[i] in roles && roles[s.dirs[e].tables[i]] == Table(e, i)
    {
      assert Tables(s.dirs)[e][i] == s.dirs[e].tables[i];
    }
    forall e | e in s.dirs ensures e in roles && roles[e] == Directory { assert e in Tables(s.dirs); }
    forall f | f in Frames(s.dirs[d].ptes) ensures f in roles && roles[f] == Data { assert f in Held(s.dirs)[d]; }
  }

  lemma DestroyCore(s: State, roles: Roles, d: nat)
    requires Inv(s, roles) && d in s.dirs
    ensures var fs, dirs' := Owned(d, s.dirs[d]), s.dirs - {d};
            var r := Surviving(roles, ReleaseUsed(s.used, s.refs, fs));
            && 0 !in fs && OwnRoles(Tables(dirs'), r) && DataRoles(Held(dirs'), r)
            && CountsOk(ReleaseRefs(s.refs, fs), Held(dirs'), r) && Exclusive(ReleaseRefs(s.refs, fs), Writable(dirs'))
  {
    hide DirsOk;
    hide Count;
    hide Frames;
    hide WritableFrames;
    hide CountsOk;
    hide Exclusive;
    hide Owned;
    var held, fs := Held(s.dirs), Owned(d, s.dirs[d]);
    RemoveDirProjects(s.dirs, d);
    OwnedRoles(s, roles, d);
    var held' := held - {d};
    forall f | f in roles && roles[f] == Data ensures Count(held', f) == Count(held, f) - One(f in fs) {
      CountRemove(held, d, f);
    }
    ReleaseCounts(s.used, s.refs, held, held', roles, fs);
    forall e, f {:trigger f in held'[e]} | e in held' && f in held'[e] && f in fs ensures f < |s.refs| && s.refs[f] > 1 {
      assert f in held[e];
      CountTwo(held, f, d, e);
      DataCount(s.refs, held, roles, f);
    }
    ReleaseRoles(s.used, s.refs, fs, roles, Tables(s.dirs) - {d}, held');
    forall e, f {:trigger f in Writable(s.dirs)[e]} | e in s.dirs && e != d && f in Writable(s.dirs)[e] ensures f !in fs {
      WritableHeld(s.dirs, e, f);
      assert f in held[e];
      if f in fs { ExclusiveApart(s.refs, s.dirs, roles, d, e, f); }
    }
    RemoveExclusive(s.refs, Writable(s.dirs), d);
    ReleaseExclusive(s.refs, fs, Writable(s.dirs) - {d});
  }

  lemma DataCount(refs: seq<nat>, held: map<nat, set<nat>>, roles: Roles, f: nat)
    requires CountsOk(refs, held, roles) && f in roles && roles[f] == Data
    ensures f < |refs| && refs[f] == Count(held, f)
  {
    hide Count;
  }

  lemma WritableHeld(dirs: Dirs, d: nat, f: nat)
    requires d in dirs && f in Writable(dirs)[d]
    ensures f in Held(dirs)[d]
  {
  }

  lemma RemoveExclusive(refs: seq<nat>, writable: map<nat, set<nat>>, d: nat)
    requires Exclusive(refs, writable)
    ensures Exclusive(refs, writable - {d})
  {
  }

  lemma DestroyInv(s: State, roles: Roles, d: nat)
    requires Inv(s, roles) && d in s.dirs
    ensures Inv(Destroyed(s, d), Surviving(roles, Destroyed(s, d).used))
  {
    hide DirOk;
    hide RolesCover;
    hide OwnRoles;
    hide DataRoles;
    hide CountsOk;
    hide Exclusive;
    DestroyCore(s, roles, d);
    ReleaseCover(s.used, s.refs, Owned(d, s.dirs[d]), roles);
  }

  // ---- Fork ----------------------------------------------------------------------------------

  /** Fewer than 255 address spaces (there are 32 thread slots), so no count saturates. */
  ghost predicate CanFork(s: State, parent: nat, child: nat, tables: map<nat, nat>) {
    && parent in s.dirs && |s.dirs| < MAX_REFCOUNT && Fresh(s.used, child)
    && tables.Keys == s.dirs[parent].tables.Keys
    && (forall i :: i in tables ==> Fresh(s.used, tables[i]) && tables[i] != child)
    && (forall i, j :: i in tables && j in tables && tables[i] == tables[j] ==> i == j)
  }

  function Forked(s: State, parent: nat, child: nat, tables: map<nat, nat>): State
    requires parent in s.dirs
  {
    State(
      TakeUsed(s.used, {child} + tables.Values),
      RetainRefs(TakeRefs(s.refs, {child} + tables.Values), Frames(s.dirs[parent].ptes)),
      s.ram,
      ForkDirs(s.dirs, parent, child, tables))
  }

  /** The child's directory and tables get their roles; all others are kept. */
  ghost predicate ForkRoles(roles: Roles, r: Roles, child: nat, tables: map<nat, nat>) {
    && r.Keys == roles.Keys + {child} + tables.Values
    && (forall f :: f in roles ==> f in r && r[f] == roles[f])
    && child in r && r[child] == Directory
    && (forall i :: i in tables ==> tables[i] in r && r[tables[i]] == Table(child, i))
  }

  ghost function IndexOf(tables: map<nat, nat>, f: nat): (i: nat)
    requires f in tables.Values
    ensures i in tables && tables[i] == f
  {
    var i :| i in tables && tables[i] == f;
    i
  }

  lemma ForkRolesExist(roles: Roles, child: nat, tables: map<nat, nat>) returns (r: Roles)
    requires child !in roles && forall i :: i in tables ==> tables[i] !in roles && tables[i] != child
    requires forall i, j :: i in tables && j in tables && tables[i] == tables[j] ==> i == j
    ensures ForkRoles(roles, r, child, tables)
  {
    r := map f | f in roles.Keys + {child} + tables.Values ::
           if f == child then Directory
           else if f in tables.Values then Table(child, IndexOf(tables, f))
           else roles[f];
    forall i | i in tables ensures tables[i] in r && r[tables[i]] == Table(child, i) {
      assert IndexOf(tables, tables[i]) == i;
    }
  }

  lemma ForkProjects(dirs: Dirs, parent: nat, child: nat, tables: map<nat, nat>)
    requires parent in dirs && child !in dirs && DirsOk(dirs) && tables.Keys == dirs[parent].tables.Keys
    ensures var dirs' := ForkDirs(dirs, parent, child, tables);
            && DirsOk(dirs')
            && Held(dirs') == Held(dirs)[child := Held(dirs)[parent]]
            && Writable(dirs') == Writable(dirs)[parent := {}][child := {}]
            && Tables(dirs') == Tables(dirs)[child := tables]
  {
    hide Frames;
    hide WritableFrames;
    hide DirsOk;
    hide CowAll;
    var dir := dirs[parent];
    DirsOkAt(dirs, parent);
    var pdir := dir.(ptes := CowAll(dir.ptes));
    var cdir := Dir(dir.kernel, tables, CowAll(dir.ptes));
    CowAllFrames(dir.ptes);
    CowDirOk(dir, tables);
    var mid := PutDir(dirs, parent, pdir);
    PutDirProjects(dirs, parent, pdir);
    PutDirsOk(dirs, parent, pdir);
    PutDirProjects(mid, child, cdir);
    PutDirsOk(mid, child, cdir);
    assert Held(mid) == Held(dirs);
    assert Tables(mid) == Tables(dirs);
  }

  lemma DirsOkAt(dirs: Dirs, d: nat)
    requires DirsOk(dirs) && d in dirs
    ensures DirOk(dirs[d])
  {
  }

  lemma CowDirOk(dir: Dir, tables: map<nat, nat>)
    requires DirOk(dir) && tables.Keys == dir.tables.Keys
    ensures DirOk(dir.(ptes := CowAll(dir.ptes))) && DirOk(Dir(dir.kernel, tables, CowAll(dir.ptes)))
  {
  }

  lemma ForkOwnRoles(tables: map<nat, map<nat, nat>>, roles: Roles, r: Roles, child: nat, newTables: map<nat, nat>)
    requires OwnRoles(tables, roles) && ForkRoles(roles, r, child, newTables)
    ensures OwnRoles(tables[child := newTables], r)
  {
  }

  lemma ForkDataRoles(held: map<nat, set<nat>>, roles: Roles, r: Roles, parent: nat, child: nat, newTables: map<nat, nat>)
    requires DataRoles(held, roles) && ForkRoles(roles, r, child, newTables) && parent in held
    ensures DataRoles(held[child := held[parent]], r)
  {
  }

  lemma ForkCover(used: seq<bool>, roles: Roles, r: Roles, child: nat, tables: map<nat, nat>)
    requires RolesCover(used, roles) && ForkRoles(roles, r, child, tables) && Fresh(used, child)
    requires forall i :: i in tables ==> Fresh(used, tables[i])
    ensures RolesCover(TakeUsed(used, {child} + tables.Values), r)
  {
  }

  /** Sharing the parent's entries adds one holder, and one reference, to each of its frames. */
  lemma ForkCounts(refs: seq<nat>, held: map<nat, set<nat>>, roles: Roles, r: Roles, parent: nat, child: nat, tables: map<nat, nat>)
    requires CountsOk(refs, held, roles) && DataRoles(held, roles) && ForkRoles(roles, r, child, tables)
    requires parent in held && child !in held && child !in roles && child < |refs|
    requires forall i :: i in tables ==> tables[i] !in roles && tables[i] < |refs| && tables[i] != child
    ensures CountsOk(RetainRefs(TakeRefs(refs, {child} + tables.Values), held[parent]), held[child := held[parent]], r)
  {
    hide Count;
    var fs := {child} + tables.Values;
    forall f | f in fs ensures f !in roles && f < |refs| && f in r && (r[f] == Directory || r[f].Table?) { }
    var refs' := RetainRefs(TakeRefs(refs, fs), held[parent]);
    var held' := held[child := held[parent]];
    forall f | f in r && r[f] == Data ensures refs'[f] == Count(held', f) > 0 {
      assert f !in fs && f in roles;
      CountPut(held, child, held[parent], f);
    }
    forall f | f in held[parent] ensures f in roles && roles[f] == Data { }
  }

  lemma ForkExclusive(refs: seq<nat>, dirs: Dirs, roles: Roles, parent: nat, child: nat, fs: set<nat>)
    requires CountsOk(refs, Held(dirs), roles) && DataRoles(Held(dirs), roles) && Exclusive(refs, Writable(dirs))
    requires parent in dirs
    ensures Exclusive(RetainRefs(TakeRefs(refs, fs), Held(dirs)[parent]), Writable(dirs)[parent := {}][child := {}])
  {
    hide Count;
    hide CountsOk;
    hide DataRoles;
    hide Frames;
    hide WritableFrames;
    forall e, f {:trigger f in Writable(dirs)[e]} | e in dirs && e != parent && f in Writable(dirs)[e]
      ensures f !in Held(dirs)[parent]
    {
      if f in Held(dirs)[parent] { ExclusiveApart(refs, dirs, roles, parent, e, f); }
    }
    var w := Writable(dirs)[parent := {}][child := {}];
    forall e, f {:trigger f in w[e]} | e in w && f in w[e] ensures f in Writable(dirs)[e] && e != parent { }
  }

  lemma ForkInv(s: State, roles: Roles, r: Roles, parent: nat, child: nat, tables: map<nat, nat>)
    requires Inv(s, roles) && CanFork(s, parent, child, tables) && ForkRoles(roles, r, child, tables)
    ensures Inv(Forked(s, parent, child, tables), r)
  {
    hide DirsOk;
    hide OwnRoles;
    hide DataRoles;
    hide CountsOk;
    hide Exclusive;
    hide Frames;
    hide ForkRoles;
    NewIsApart(s, roles, child);
    ForkProjects(s.dirs, parent, child, tables);
    ForkCover(s.used, roles, r, child, tables);
    ForkOwnRoles(Tables(s.dirs), roles, r, child, tables);
    ForkDataRoles(Held(s.dirs), roles, r, parent, child, tables);
    assert Held(s.dirs)[parent] == Frames(s.dirs[parent].ptes);
    ForkCounts(s.refs, Held(s.dirs), roles, r, parent, child, tables);
    ForkExclusive(s.refs, s.dirs, roles, parent, child, {child} + tables.Values);
  }

  lemma NewIsApart(s: State, roles: Roles, f: nat)
    requires Inv(s, roles) && Fresh(s.used, f)
    ensures f !in roles && f !in s.dirs && f !in Held(s.dirs)
  {
    hide DataRoles;
    hide CountsOk;
    hide Exclusive;
    hide DirsOk;
    assert f in s.dirs <==> f in Tables(s.dirs);
  }

  // ---- A clone that runs out of frames ------------------------------------------------------

  function RolledBack(s: State, parent: nat, stop: nat): State
    requires parent in s.dirs
  {
    s.(dirs := SetPages(s.dirs, parent, UndoBefore(s.dirs[parent].ptes, stop)))
  }

  /** No copy-on-write entry before directory slot `stop` has its frame still shared. */
  ghost predicate NoSharedCowBefore(s: State, d: nat, stop: nat)
    requires d in s.dirs
  {
    forall p :: p in s.dirs[d].ptes && p < 1024 * stop && s.dirs[d].ptes[p].cow ==>
      s.dirs[d].ptes[p].frame < |s.refs| && s.refs[s.dirs[d].ptes[p].frame] == 1
  }

  lemma UndoProjects(dirs: Dirs, parent: nat, stop: nat)
    requires DirsOk(dirs) && parent in dirs
    ensures var dirs' := SetPages(dirs, parent, UndoBefore(dirs[parent].ptes, stop));
            && DirsOk(dirs') && Held(dirs') == Held(dirs) && Tables(dirs') == Tables(dirs)
            && Writable(dirs') == Writable(dirs)[parent := Writable(dirs)[parent] + CowFramesBefore(dirs[parent].ptes, stop)]
  {
    hide Frames;
    hide WritableFrames;
    hide CowFramesBefore;
    hide DirsOk;
    hide UndoBefore;
    var dir := dirs[parent].(ptes := UndoBefore(dirs[parent].ptes, stop));
    DirsOkAt(dirs, parent);
    UndoDirOk(dirs[parent], stop);
    UndoFrames(dirs[parent].ptes, stop);
    PutDirProjects(dirs, parent, dir);
    PutDirsOk(dirs, parent, dir);
    assert Held(dirs)[parent := Held(dirs)[parent]] == Held(dirs);
    assert Tables(dirs)[parent := dir.tables] == Tables(dirs);
  }

  lemma UndoDirOk(dir: Dir, stop: nat)
    requires DirOk(dir)
    ensures DirOk(dir.(ptes := UndoBefore(dir.ptes, stop)))
  {
  }

  /** The rollback makes every copy-on-write page it had shared writable again, even one that
      was copy-on-write before the call. The invariant survives exactly when no such page is
      shared with another address space. */
  lemma RollbackInvIff(s: State, roles: Roles, parent: nat, stop: nat)
    requires Inv(s, roles) && parent in s.dirs
    ensures Inv(RolledBack(s, parent, stop), roles) <==> NoSharedCowBefore(s, parent, stop)
  {
    hide DirsOk;
    hide OwnRoles;
    hide DataRoles;
    hide CountsOk;
    hide RolesCover;
    hide Frames;
    hide WritableFrames;
    var ptes := s.dirs[parent].ptes;
    UndoProjects(s.dirs, parent, stop);
    var w := Writable(s.dirs)[parent := Writable(s.dirs)[parent] + CowFramesBefore(ptes, stop)];
    if NoSharedCowBefore(s, parent, stop) {
      PutExclusive(s.refs, Writable(s.dirs), parent, Writable(s.dirs)[parent] + CowFramesBefore(ptes, stop));
    } else {
      var p :| p in ptes && p < 1024 * stop && ptes[p].cow && !(ptes[p].frame < |s.refs| && s.refs[ptes[p].frame] == 1);
      assert ptes[p].frame in CowFramesBefore(ptes, stop);
      assert ptes[p].frame in w[parent];
    }
  }

  /** The parent's permissions come back exactly when it had no copy-on-write page there. */
  lemma RollbackRestoresIff(s: State, parent: nat, stop: nat)
    requires parent in s.dirs && DirOk(s.dirs[parent])
    ensures RolledBack(s, parent, stop) == s <==>
            forall p :: p in s.dirs[parent].ptes && p < 1024 * stop ==> !s.dirs[parent].ptes[p].cow
  {
    var ptes := s.dirs[parent].ptes;
    var c := UndoBefore(ptes, stop);
    if forall p :: p in ptes && p < 1024 * stop ==> !ptes[p].cow {
      assert c == ptes;
      assert SetPages(s.dirs, parent, ptes) == s.dirs;
    } else {
      var p :| p in ptes && p < 1024 * stop && ptes[p].cow;
      assert c[p] != ptes[p];
      assert RolledBack(s, parent, stop).dirs[parent].ptes[p] != s.dirs[parent].ptes[p];
    }
  }
}
