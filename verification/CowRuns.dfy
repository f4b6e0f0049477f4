/** Every run of copy-on-write memory keeps the invariant and shows each process exactly what
    it would see had fork copied every page. */
module CowRuns {
  import opened PhysicalMemory
  import opened CowSpec
  import opened CowSteps

  // ---- Steps -----------------------------------------------------------------------------------

  datatype Step =
    | Spawn(child: nat, kernel: set<nat>)                       // create_address_space
    | Fork(parent: nat, child: nat, tables: map<nat, nat>)      // cow_clone_directory
    | ForkFailed(parent: nat, stop: nat)                        // ... rolled back at slot stop
    | Store(dir: nat, page: nat, offset: nat, value: Byte)      // a Ring 3 write the MMU allows
    | Reuse(dir: nat, page: nat)                                // cow_handle_fault, last reference
    | Copy(dir: nat, page: nat, frame: nat)                     // cow_handle_fault, shared frame
    | NewTable(dir: nat, index: nat, frame: nat)                // map_page needs a page table
    | MapPage(dir: nat, page: nat, frame: nat, bytes: Bytes, writable: bool)
    | Leak(frame: nat)                                          // map_page found no frame for one
    | Drop(dir: nat, page: nat)                                 // unmap_page and free_frame
    | Destroy(dir: nat)                                         // destroy_address_space

  ghost predicate CanStore(s: State, d: nat, p: nat, offset: nat) {
    && d in s.dirs && p in s.dirs[d].ptes && s.dirs[d].ptes[p].writable
    && s.dirs[d].ptes[p].frame < |s.ram| && offset < |s.ram[s.dirs[d].ptes[p].frame]|
  }

  function Stored(s: State, d: nat, p: nat, offset: nat, value: Byte): State
    requires d in s.dirs && p in s.dirs[d].ptes && s.dirs[d].ptes[p].frame < |s.ram|
    requires offset < |s.ram[s.dirs[d].ptes[p].frame]|
  {
    var f := s.dirs[d].ptes[p].frame;
    s.(ram := s.ram[f := s.ram[f][offset := value]])
  }

  ghost predicate Next(s: State, step: Step, s': State) {
    match step
    case Spawn(child, kernel) => CanSpawn(s, child, kernel) && s' == Spawned(s, child, kernel)
    case Fork(parent, child, tables) => CanFork(s, parent, child, tables) && s' == Forked(s, parent, child, tables)
    case ForkFailed(parent, stop) =>
      parent in s.dirs && NoSharedCowBefore(s, parent, stop) && s' == RolledBack(s, parent, stop)
    case Store(d, p, offset, value) => CanStore(s, d, p, offset) && s' == Stored(s, d, p, offset, value)
    case Reuse(d, p) => CanReuse(s, d, p) && s' == Reused(s, d, p)
    case Copy(d, p, frame) => CanSplit(s, d, p, frame) && s' == Split(s, d, p, frame)
    case NewTable(d, i, frame) => CanTable(s, d, i, frame) && s' == Tabled(s, d, i, frame)
    case MapPage(d, p, frame, bytes, w) => CanMap(s, d, p, frame, bytes) && s' == PageMapped(s, d, p, frame, bytes, w)
    case Leak(frame) => Fresh(s.used, frame) && s' == Leaked(s, frame)
    case Drop(d, p) => d in s.dirs && p in s.dirs[d].ptes && |s.used| == |s.refs| && s' == Dropped(s, d, p)
    case Destroy(d) => d in s.dirs && |s.used| == |s.refs| && s' == Destroyed(s, d)
  }

  // ---- The eager specification ------------------------------------------------------------------

  ghost function SetView(space: Space, p: nat, v: View): Space {
    space.(pages := space.pages[p := v])
  }

  ghost function Without(space: Space, p: nat): Space { space.(pages := space.pages - {p}) }

  /** What a step means: fork copies the whole space, a store reaches one page of one space, and no
      other step changes what is seen but those that map or unmap. */
  ghost function EagerStep(e: Eager, step: Step): Eager {
    match step
    case Spawn(child, kernel) => e[child := Space(kernel, map[])]
    case Fork(parent, child, _) => if parent in e then e[child := e[parent]] else e
    case Store(d, p, offset, value) =>
      if d in e && p in e[d].pages && e[d].pages[p].writable && offset < |e[d].pages[p].bytes|
      then e[d := SetView(e[d], p, View(e[d].pages[p].bytes[offset := value], true))] else e
    case MapPage(d, p, _, bytes, w) => if d in e then e[d := SetView(e[d], p, View(bytes, w))] else e
    case Drop(d, p) => if d in e then e[d := Without(e[d], p)] else e
    case Destroy(d) => e - {d}
    case _ => e
  }

  ghost function EagerRun(e: Eager, steps: seq<Step>): Eager {
    if steps == [] then e else EagerStep(EagerRun(e, steps[..|steps| - 1]), steps[|steps| - 1])
  }

  /** What the processes see in a state. */
  ghost function Seen(s: State): Eager { if AllInRam(|s.ram|, s.dirs) then Abs(s.ram, s.dirs) else map[] }

  // ---- Views after an update ----------------------------------------------------------------------

  lemma SpaceSame(ram: seq<Bytes>, ram': seq<Bytes>, ptes: Pages, ptes': Pages)
    requires FramesInRam(|ram|, ptes) && |ram| == |ram'| && ptes.Keys == ptes'.Keys
    requires forall p :: p in ptes ==>
               && ptes'[p].frame == ptes[p].frame
               && (ptes'[p].writable || ptes'[p].cow) == (ptes[p].writable || ptes[p].cow)
    requires forall p :: p in ptes ==> ram'[ptes[p].frame] == ram[ptes[p].frame]
    ensures FramesInRam(|ram'|, ptes') && AbsPages(ram', ptes') == AbsPages(ram, ptes)
  {
  }

  lemma AbsPut(ram: seq<Bytes>, dirs: Dirs, d: nat, dir: Dir)
    requires AllInRam(|ram|, dirs) && FramesInRam(|ram|, dir.ptes)
    ensures AllInRam(|ram|, PutDir(dirs, d, dir))
    ensures Abs(ram, PutDir(dirs, d, dir)) == Abs(ram, dirs)[d := AbsSpace(ram, dir)]
  {
  }

  /** Changing the contents of a frame that only d may hold changes only d's view. */
  lemma AbsRam(ram: seq<Bytes>, ram': seq<Bytes>, dirs: Dirs, d: nat, f: nat)
    requires AllInRam(|ram|, dirs) && |ram'| == |ram| && f < |ram|
    requires forall g :: 0 <= g < |ram| && g != f ==> ram'[g] == ram[g]
    requires forall e :: e in dirs && e != d ==> f !in Frames(dirs[e].ptes)
    ensures AllInRam(|ram'|, dirs)
    ensures d in dirs ==> Abs(ram', dirs) == Abs(ram, dirs)[d := AbsSpace(ram', dirs[d])]
    ensures d !in dirs ==> Abs(ram', dirs) == Abs(ram, dirs)
  {
    forall e | e in dirs && e != d ensures AbsSpace(ram', dirs[e]) == AbsSpace(ram, dirs[e]) {
      forall p | p in dirs[e].ptes ensures dirs[e].ptes[p].frame != f {
        assert dirs[e].ptes[p].frame in Frames(dirs[e].ptes);
      }
      SpaceSame(ram, ram', dirs[e].ptes, dirs[e].ptes);
    }
  }

  lemma InvInRam(s: State, roles: Roles)
    requires Inv(s, roles)
    ensures AllInRam(|s.ram|, s.dirs)
  {
    hide DirsOk;
    hide OwnRoles;
    hide CountsOk;
    hide Exclusive;
    forall d, p | d in s.dirs && p in s.dirs[d].ptes ensures s.dirs[d].ptes[p].frame < |s.ram| {
      assert s.dirs[d].ptes[p].frame in Held(s.dirs)[d];
    }
  }

  lemma UnusedNotHeld(s: State, roles: Roles, f: nat)
    requires Inv(s, roles) && Fresh(s.used, f)
    ensures forall e :: e in s.dirs ==> f !in Frames(s.dirs[e].ptes)
  {
    hide DirsOk;
    hide OwnRoles;
    hide CountsOk;
    hide Exclusive;
    hide Frames;
    forall e | e in s.dirs ensures f !in Frames(s.dirs[e].ptes) {
      assert Held(s.dirs)[e] == Frames(s.dirs[e].ptes);
    }
  }

  lemma WritableNotHeld(s: State, roles: Roles, d: nat, p: nat)
    requires Inv(s, roles) && d in s.dirs && p in s.dirs[d].ptes && s.dirs[d].ptes[p].writable
    ensures forall e :: e in s.dirs && e != d ==> s.dirs[d].ptes[p].frame !in Frames(s.dirs[e].ptes)
  {
    hide DirsOk;
    hide OwnRoles;
    hide CountsOk;
    hide Exclusive;
    hide DataRoles;
    var f := s.dirs[d].ptes[p].frame;
    assert f in Writable(s.dirs)[d];
    forall e | e in s.dirs && e != d ensures f !in Frames(s.dirs[e].ptes) {
      if f in Frames(s.dirs[e].ptes) {
        assert f in Held(s.dirs)[e];
        ExclusiveApart(s.refs, s.dirs, roles, e, d, f);
      }
    }
  }

  lemma ForkAbs(ram: seq<Bytes>, dirs: Dirs, parent: nat, child: nat, tables: map<nat, nat>)
    requires AllInRam(|ram|, dirs) && parent in dirs && child !in dirs
    ensures AllInRam(|ram|, ForkDirs(dirs, parent, child, tables))
    ensures Abs(ram, ForkDirs(dirs, parent, child, tables)) == Abs(ram, dirs)[child := Abs(ram, dirs)[parent]]
  {
    var dir := dirs[parent];
    SpaceSame(ram, ram, dir.ptes, CowAll(dir.ptes));
    AbsPut(ram, dirs, parent, dir.(ptes := CowAll(dir.ptes)));
    AbsPut(ram, PutDir(dirs, parent, dir.(ptes := CowAll(dir.ptes))), child, Dir(dir.kernel, tables, CowAll(dir.ptes)));
    assert Abs(ram, dirs)[parent := AbsSpace(ram, dir)] == Abs(ram, dirs);
  }

  lemma StoreAbs(s: State, roles: Roles, d: nat, p: nat, offset: nat, value: Byte)
    requires Inv(s, roles) && CanStore(s, d, p, offset)
    ensures AllInRam(|s.ram|, s.dirs) && AllInRam(|Stored(s, d, p, offset, value).ram|, s.dirs)
    ensures Abs(Stored(s, d, p, offset, value).ram, s.dirs) == EagerStep(Abs(s.ram, s.dirs), Store(d, p, offset, value))
  {
    InvInRam(s, roles);
    WritableNotHeld(s, roles, d, p);
    var ram', ptes := Stored(s, d, p, offset, value).ram, s.dirs[d].ptes;
    AbsRam(s.ram, ram', s.dirs, d, ptes[p].frame);
    assert Injective(ptes) by { assert DirOk(s.dirs[d]); }
    StoreSpace(s.ram, ptes, p, offset, value);
  }

  lemma StoreSpace(ram: seq<Bytes>, ptes: Pages, p: nat, offset: nat, value: Byte)
    requires FramesInRam(|ram|, ptes) && Injective(ptes) && p in ptes && ptes[p].writable && offset < |ram[ptes[p].frame]|
    ensures var f := ptes[p].frame;
            AbsPages(ram[f := ram[f][offset := value]], ptes)
            == AbsPages(ram, ptes)[p := View(ram[f][offset := value], true)]
  {
  }

  /** Pointing page p of d at frame f with contents `bytes`, f held by no one. */
  lemma PutAbs(s: State, roles: Roles, d: nat, p: nat, pte: Pte, bytes: Bytes)
    requires Inv(s, roles) && d in s.dirs && Fresh(s.used, pte.frame) && pte.frame < |s.ram|
    ensures AllInRam(|s.ram|, s.dirs)
    ensures var dirs', ram' := SetPages(s.dirs, d, s.dirs[d].ptes[p := pte]), s.ram[pte.frame := bytes];
            && AllInRam(|ram'|, dirs')
            && Abs(ram', dirs') == Abs(s.ram, s.dirs)[d := SetView(Abs(s.ram, s.dirs)[d], p, View(bytes, pte.writable || pte.cow))]
  {
    hide Inv;
    hide Frames;
    var ram', ptes := s.ram[pte.frame := bytes], s.dirs[d].ptes;
    InvInRam(s, roles);
    UnusedNotHeld(s, roles, pte.frame);
    AbsRam(s.ram, ram', s.dirs, d, pte.frame);
    PutSpace(s.ram, ptes, p, pte, bytes);
    AbsPut(ram', s.dirs, d, s.dirs[d].(ptes := ptes[p := pte]));
  }

  lemma PutSpace(ram: seq<Bytes>, ptes: Pages, p: nat, pte: Pte, bytes: Bytes)
    requires FramesInRam(|ram|, ptes) && pte.frame < |ram| && pte.frame !in Frames(ptes)
    ensures var ram' := ram[pte.frame := bytes];
            && FramesInRam(|ram'|, ptes[p := pte])
            && AbsPages(ram', ptes[p := pte]) == AbsPages(ram, ptes)[p := View(bytes, pte.writable || pte.cow)]
  {
    forall q | q in ptes ensures ptes[q].frame != pte.frame { assert ptes[q].frame in Frames(ptes); }
  }

  lemma SameAbs(ram: seq<Bytes>, dirs: Dirs, d: nat, dir: Dir)
    requires AllInRam(|ram|, dirs) && d in dirs && dir.kernel == dirs[d].kernel && dir.ptes.Keys == dirs[d].ptes.Keys
    requires forall p :: p in dir.ptes ==>
               && dir.ptes[p].frame == dirs[d].ptes[p].frame
               && (dir.ptes[p].writable || dir.ptes[p].cow) == (dirs[d].ptes[p].writable || dirs[d].ptes[p].cow)
    ensures AllInRam(|ram|, PutDir(dirs, d, dir)) && Abs(ram, PutDir(dirs, d, dir)) == Abs(ram, dirs)
  {
    SpaceSame(ram, ram, dirs[d].ptes, dir.ptes);
    AbsPut(ram, dirs, d, dir);
    assert Abs(ram, dirs)[d := AbsSpace(ram, dirs[d])] == Abs(ram, dirs);
  }

  lemma DropAbs(ram: seq<Bytes>, dirs: Dirs, d: nat, p: nat)
    requires AllInRam(|ram|, dirs) && d in dirs
    ensures AllInRam(|ram|, SetPages(dirs, d, dirs[d].ptes - {p}))
    ensures Abs(ram, SetPages(dirs, d, dirs[d].ptes - {p})) == Abs(ram, dirs)[d := Without(Abs(ram, dirs)[d], p)]
  {
    AbsPut(ram, dirs, d, dirs[d].(ptes := dirs[d].ptes - {p}));
    assert AbsPages(ram, dirs[d].ptes - {p}) == AbsPages(ram, dirs[d].ptes) - {p};
  }

  // ---- Every step, and every run ------------------------------------------------------------------

  /** What the frames are used for after a step. */
  ghost predicate RolesAfter(roles: Roles, step: Step, s': State, r: Roles) {
    match step
    case Spawn(child, _) => r == roles[child := Directory]
    case Fork(_, child, tables) => ForkRoles(roles, r, child, tables)
    case Copy(_, _, frame) => r == roles[frame := Data]
    case NewTable(d, i, frame) => r == roles[frame := Table(d, i)]
    case MapPage(_, _, frame, _, _) => r == roles[frame := Data]
    case Leak(frame) => r == roles[frame := Reserved]
    case Drop(_, _) => r == Surviving(roles, s'.used)
    case Destroy(_) => r == Surviving(roles, s'.used)
    case _ => r == roles
  }

  lemma StepInv(s: State, roles: Roles, step: Step, s': State) returns (r: Roles)
    requires Inv(s, roles) && Next(s, step, s')
    ensures Inv(s', r) && RolesAfter(roles, step, s', r)
  {
    hide Inv;
    match step
    case Spawn(child, kernel) =>
      SpawnInv(s, roles, child, kernel);
      r := roles[child := Directory];
    case Fork(parent, child, tables) =>
      NewIsApart(s, roles, child);
      forall i | i in tables ensures tables[i] !in roles { NewIsApart(s, roles, tables[i]); }
      r := ForkRolesExist(roles, child, tables);
      ForkInv(s, roles, r, parent, child, tables);
    case ForkFailed(parent, stop) =>
      RollbackInvIff(s, roles, parent, stop);
      r := roles;
    case Store(d, p, offset, value) =>
      StoreInv(s, roles, d, p, offset, value);
      r := roles;
    case Reuse(d, p) =>
      ReuseInv(s, roles, d, p);
      r := roles;
    case Copy(d, p, frame) =>
      SplitInv(s, roles, d, p, frame);
      r := roles[frame := Data];
    case NewTable(d, i, frame) =>
      TableInv(s, roles, d, i, frame);
      r := roles[frame := Table(d, i)];
    case MapPage(d, p, frame, bytes, w) =>
      MapInv(s, roles, d, p, frame, bytes, w);
      r := roles[frame := Data];
    case Leak(frame) =>
      LeakInv(s, roles, frame);
      r := roles[frame := Reserved];
    case Drop(d, p) =>
      DropInv(s, roles, d, p);
      r := Surviving(roles, s'.used);
    case Destroy(d) =>
      DestroyInv(s, roles, d);
      r := Surviving(roles, s'.used);
  }

  lemma StoreInv(s: State, roles: Roles, d: nat, p: nat, offset: nat, value: Byte)
    requires Inv(s, roles) && CanStore(s, d, p, offset)
    ensures Inv(Stored(s, d, p, offset, value), roles)
  {
    hide DirsOk;
    hide RolesCover;
    hide OwnRoles;
    hide DataRoles;
    hide CountsOk;
    hide Exclusive;
  }

  lemma StepAbs(s: State, roles: Roles, step: Step, s': State)
    requires Inv(s, roles) && Next(s, step, s')
    ensures AllInRam(|s.ram|, s.dirs) && AllInRam(|s'.ram|, s'.dirs)
    ensures Abs(s'.ram, s'.dirs) == EagerStep(Abs(s.ram, s.dirs), step)
  {
    hide Inv;
    InvInRam(s, roles);
    match step
    case Spawn(child, kernel) => AbsPut(s.ram, s.dirs, child, Dir(kernel, map[], map[]));
    case Fork(parent, child, tables) =>
      NewIsApart(s, roles, child);
      ForkAbs(s.ram, s.dirs, parent, child, tables);
    case ForkFailed(parent, stop) =>
      SameAbs(s.ram, s.dirs, parent, s.dirs[parent].(ptes := UndoBefore(s.dirs[parent].ptes, stop)));
    case Store(d, p, offset, value) => StoreAbs(s, roles, d, p, offset, value);
    case Reuse(d, p) =>
      SameAbs(s.ram, s.dirs, d, s.dirs[d].(ptes := s.dirs[d].ptes[p := Pte(s.dirs[d].ptes[p].frame, true, false)]));
    case Copy(d, p, frame) =>
      PutAbs(s, roles, d, p, Pte(frame, true, false), s.ram[s.dirs[d].ptes[p].frame]);
      CopyAbs(Abs(s.ram, s.dirs), d, p, View(s.ram[s.dirs[d].ptes[p].frame], true));
    case NewTable(d, i, frame) =>
      SameAbs(s.ram, s.dirs, d, s.dirs[d].(tables := AddTable(s.dirs[d].tables, i, frame)));
    case MapPage(d, p, frame, bytes, w) => PutAbs(s, roles, d, p, Pte(frame, w, false), bytes);
    case Leak(frame) =>
    case Drop(d, p) => DropAbs(s.ram, s.dirs, d, p);
    case Destroy(d) => assert Abs(s.ram, s.dirs - {d}) == Abs(s.ram, s.dirs) - {d};
  }

  lemma StepSeen(s: State, roles: Roles, step: Step, s': State)
    requires Inv(s, roles) && Next(s, step, s')
    ensures Seen(s') == EagerStep(Seen(s), step) && Seen(s).Keys == s.dirs.Keys && Seen(s').Keys == s'.dirs.Keys
  {
    hide Inv, Next, EagerStep;
    StepAbs(s, roles, step, s');
  }

  /** A failed clone changes nothing that is seen, safe or not. */
  lemma RollbackSeen(s: State, roles: Roles, parent: nat, stop: nat)
    requires Inv(s, roles) && parent in s.dirs
    ensures Seen(RolledBack(s, parent, stop)) == Seen(s)
  {
    hide Inv;
    InvInRam(s, roles);
    SameAbs(s.ram, s.dirs, parent, s.dirs[parent].(ptes := UndoBefore(s.dirs[parent].ptes, stop)));
  }

  lemma CopyAbs(e: Eager, d: nat, p: nat, v: View)
    requires d in e && p in e[d].pages && e[d].pages[p] == v
    ensures e[d := SetView(e[d], p, v)] == e
  {
    assert SetView(e[d], p, v) == e[d];
  }

  ghost predicate IsRun(states: seq<State>, steps: seq<Step>) {
    |states| == |steps| + 1 && forall k :: 0 <= k < |steps| ==> Next(states[k], steps[k], states[k + 1])
  }

  /** Fork refines eager copy: along every run, in every state, the invariant holds and the
      processes see what they would see had every page been copied at each fork. */
  lemma {:induction false} RunRefinesEagerCopy(states: seq<State>, steps: seq<Step>, roles: Roles) returns (rs: seq<Roles>)
    requires IsRun(states, steps) && Inv(states[0], roles)
    ensures |rs| == |states| && rs[0] == roles
    ensures forall k :: 0 <= k < |steps| ==> RolesAfter(rs[k], steps[k], states[k + 1], rs[k + 1])
    ensures AllInRam(|states[0].ram|, states[0].dirs)
    ensures forall k :: 0 <= k < |states| ==>
              && Inv(states[k], rs[k])
              && AllInRam(|states[k].ram|, states[k].dirs)
              && Abs(states[k].ram, states[k].dirs) == EagerRun(Abs(states[0].ram, states[0].dirs), steps[..k])
    decreases |steps|
  {
    hide Inv, Next, Abs, RolesAfter;
    if steps == [] {
      InvInRam(states[0], roles);
      rs := [roles];
    } else {
      var n := |steps| - 1;
      var rs' := RunRefinesEagerCopy(states[..n + 1], steps[..n], roles);
      var r := StepInv(states[n], rs'[n], steps[n], states[n + 1]);
      StepAbs(states[n], rs'[n], steps[n], states[n + 1]);
      rs := rs' + [r];
      forall k | 0 <= k < |steps| ensures RolesAfter(rs[k], steps[k], states[k + 1], rs[k + 1]) {
        if k < n {
          assert states[..n + 1][k + 1] == states[k + 1] && steps[..n][k] == steps[k];
        }
      }
      forall k | 0 <= k < |states|
        ensures Inv(states[k], rs[k]) && AllInRam(|states[k].ram|, states[k].dirs)
        ensures Abs(states[k].ram, states[k].dirs) == EagerRun(Abs(states[0].ram, states[0].dirs), steps[..k])
      {
        if k <= n {
          assert states[..n + 1][k] == states[k];
          assert steps[..n][..k] == steps[..k];
        } else {
          assert steps[..k] == steps;
          assert steps[..n][..n] == steps[..n];
          assert states[..n + 1][n] == states[n];
        }
      }
    }
  }

  // ---- From boot --------------------------------------------------------------------------------------

  /** What the boot code leaves: no address space, and frame 0 among the frames in use. */
  ghost predicate Booted(s: State) {
    Shape(s) && s.dirs == map[] && |s.used| > 0 && s.used[0]
  }

  /** Every frame in use at boot is reserved. */
  ghost function BootRoles(s: State): Roles { map f | 0 <= f < |s.used| && s.used[f] :: Reserved }

  lemma BootInv(s: State)
    requires Booted(s)
    ensures Inv(s, BootRoles(s)) && Abs(s.ram, s.dirs) == map[]
  {
  }

  /** Every run from boot refines eager copy. */
  lemma BootRefinesEagerCopy(states: seq<State>, steps: seq<Step>) returns (rs: seq<Roles>)
    requires IsRun(states, steps) && Booted(states[0])
    ensures |rs| == |states| && rs[0] == BootRoles(states[0])
    ensures forall k :: 0 <= k < |steps| ==> RolesAfter(rs[k], steps[k], states[k + 1], rs[k + 1])
    ensures forall k :: 0 <= k < |states| ==>
              && Inv(states[k], rs[k])
              && AllInRam(|states[k].ram|, states[k].dirs)
              && Abs(states[k].ram, states[k].dirs) == EagerRun(map[], steps[..k])
  {
    hide Inv, Next, Abs;
    BootInv(states[0]);
    rs := RunRefinesEagerCopy(states, steps, BootRoles(states[0]));
  }

  // ---- Conservation ---------------------------------------------------------------------------------

  /** Destroying a fresh clone gives back every frame and every reference: only the parent's
      entries stay copy-on-write. */
  lemma CloneThenDestroy(s: State, roles: Roles, parent: nat, child: nat, tables: map<nat, nat>)
    requires Inv(s, roles) && CanFork(s, parent, child, tables)
    ensures var s' := Forked(s, parent, child, tables);
            && child in s'.dirs && |s'.used| == |s'.refs|
            && var s'' := Destroyed(s', child);
               && s''.used == s.used && s''.ram == s.ram
               && (forall f :: 0 <= f < |s.refs| && s.used[f] ==> s''.refs[f] == s.refs[f])
               && s''.dirs == SetPages(s.dirs, parent, CowAll(s.dirs[parent].ptes))
  {
    hide DirsOk;
    hide OwnRoles;
    hide DataRoles;
    hide CountsOk;
    hide Exclusive;
    hide RolesCover;
    hide Frames;
    hide CowAll;
    var fs, shared := {child} + tables.Values, Frames(s.dirs[parent].ptes);
    NewIsApart(s, roles, child);
    SharedInUse(s, roles, parent);
    CowAllFrames(s.dirs[parent].ptes);
    forall f | f in fs ensures f < |s.used| && !s.used[f] { }
    CloneReleases(s.used, s.refs, fs, shared);
    CloneOwned(s.dirs, parent, child, tables);
  }

  lemma CloneOwned(dirs: Dirs, parent: nat, child: nat, tables: map<nat, nat>)
    requires parent in dirs && child !in dirs
    ensures var dirs' := ForkDirs(dirs, parent, child, tables);
            && Owned(child, dirs'[child]) == {child} + tables.Values + Frames(dirs[parent].ptes)
            && dirs' - {child} == SetPages(dirs, parent, CowAll(dirs[parent].ptes))
  {
    CowAllFrames(dirs[parent].ptes);
  }

  lemma SharedInUse(s: State, roles: Roles, d: nat)
    requires Inv(s, roles) && d in s.dirs
    ensures forall f :: f in Frames(s.dirs[d].ptes) ==> f < |s.used| && s.used[f] && s.refs[f] > 0
  {
    hide DirsOk;
    hide OwnRoles;
    hide Exclusive;
    hide Count;
    hide Frames;
    forall f | f in Frames(s.dirs[d].ptes) ensures f < |s.used| && s.used[f] && s.refs[f] > 0 {
      assert f in Held(s.dirs)[d];
    }
  }

  lemma CloneReleases(used: seq<bool>, refs: seq<nat>, fs: set<nat>, shared: set<nat>)
    requires |used| == |refs|
    requires forall f :: f in fs ==> f < |used| && !used[f]
    requires forall f :: f in shared ==> f < |used| && used[f] && refs[f] > 0
    ensures var used', refs' := TakeUsed(used, fs), RetainRefs(TakeRefs(refs, fs), shared);
            && ReleaseUsed(used', refs', fs + shared) == used
            && forall f :: 0 <= f < |refs| && used[f] ==> ReleaseRefs(refs', fs + shared)[f] == refs[f]
  {
    var used', refs' := TakeUsed(used, fs), RetainRefs(TakeRefs(refs, fs), shared);
    var used'' := ReleaseUsed(used', refs', fs + shared);
    forall f | 0 <= f < |used| ensures used''[f] == used[f] { }
  }

  // ---- When the rollback is not safe ---------------------------------------------------------------

  /** If the failed clone had already passed a copy-on-write page that is still shared, the
      parent can afterwards write into another process: the byte the parent stores shows up in a
      page of an address space that is not the parent's. */
  lemma UnsafeRollbackLeaks(s: State, roles: Roles, parent: nat, stop: nat, p: nat, offset: nat, value: Byte)
    returns (e: nat, q: nat)
    requires Inv(s, roles) && CowMapped(s, parent, p) && p < 1024 * stop && offset < PAGE_SIZE
    requires s.refs[s.dirs[parent].ptes[p].frame] != 1
    ensures var s1 := RolledBack(s, parent, stop);
            && CanStore(s1, parent, p, offset)
            && var s2 := Stored(s1, parent, p, offset, value);
               && e in s2.dirs && e != parent && s2.dirs[e] == s.dirs[e] && q in s.dirs[e].ptes
               && s.dirs[e].ptes[q].frame < |s2.ram| && |s2.ram[s.dirs[e].ptes[q].frame]| == PAGE_SIZE
               && s2.ram[s.dirs[e].ptes[q].frame][offset] == value
  {
    e, q := SharedWith(s, roles, parent, p);
    var s1 := RolledBack(s, parent, stop);
    assert UndoBefore(s.dirs[parent].ptes, stop)[p] == Pte(s.dirs[parent].ptes[p].frame, true, false);
    assert |s.ram[s.dirs[parent].ptes[p].frame]| == PAGE_SIZE by { InvShape(s, roles); }
    hide Inv;
  }

  lemma InvShape(s: State, roles: Roles)
    requires Inv(s, roles)
    ensures Shape(s)
  {
  }

  lemma SharedWith(s: State, roles: Roles, d: nat, p: nat) returns (e: nat, q: nat)
    requires Inv(s, roles) && CowMapped(s, d, p)
    requires s.refs[s.dirs[d].ptes[p].frame] != 1
    ensures e in s.dirs && e != d && q in s.dirs[e].ptes && s.dirs[e].ptes[q].frame == s.dirs[d].ptes[p].frame
  {
    hide DirsOk;
    hide OwnRoles;
    hide Exclusive;
    hide RolesCover;
    hide DataRoles;
    hide CountsOk;
    hide Frames;
    var f := s.dirs[d].ptes[p].frame;
    NamedIsData(s.refs, s.dirs, roles, d, p);
    var users := Users(Held(s.dirs), f);
    assert |users| > 1;
    assert |users - {d}| >= 1;
    e :| e in users - {d};
    assert f in Frames(s.dirs[e].ptes);
    q := PageOf(s.dirs[e].ptes, f);
  }

  lemma PageOf(ptes: Pages, f: nat) returns (q: nat)
    requires f in Frames(ptes)
    ensures q in ptes && ptes[q].frame == f
  {
    q :| q in ptes && ptes[q].frame == f;
  }

  /** Such a page is what every earlier fork leaves behind: a page that was writable before a
      fork is a shared copy-on-write page after it, so a second clone of the same parent that
      runs out of frames past it is unsafe. */
  lemma ForkMakesRollbackUnsafe(s: State, roles: Roles, parent: nat, child: nat, tables: map<nat, nat>, p: nat, stop: nat)
    requires Inv(s, roles) && CanFork(s, parent, child, tables)
    requires p in s.dirs[parent].ptes && s.dirs[parent].ptes[p].writable && p < 1024 * stop
    ensures parent in Forked(s, parent, child, tables).dirs
    ensures !NoSharedCowBefore(Forked(s, parent, child, tables), parent, stop)
  {
    hide DirsOk;
    hide OwnRoles;
    hide DataRoles;
    hide CountsOk;
    NewIsApart(s, roles, child);
    SharedInUse(s, roles, parent);
    var s', f := Forked(s, parent, child, tables), s.dirs[parent].ptes[p].frame;
    assert f in Frames(s.dirs[parent].ptes);
    assert f in Writable(s.dirs)[parent];
    assert s'.dirs[parent].ptes[p] == Pte(f, false, true);
    assert s'.refs[f] == s.refs[f] + 1 by { assert f !in {child} + tables.Values; }
  }
}
