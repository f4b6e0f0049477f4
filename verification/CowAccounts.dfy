/** No frame is lost: on every run from boot the frames in use are those that were in use at boot, the
    page of a map_page that found no table, and the directories, tables and pages there are. */
module CowAccounts {
  import opened PhysicalMemory
  import opened CowSpec
  import opened CowSteps
  import opened CowRuns

  // ---- What there is ------------------------------------------------------------------------------

  function TableFrames(dirs: Dirs): set<nat> { set d, i | d in dirs && i in dirs[d].tables :: dirs[d].tables[i] }

  function PageFrames(dirs: Dirs): set<nat> { set d, p | d in dirs && p in dirs[d].ptes :: dirs[d].ptes[p].frame }

  /** The directories, their tables and their pages. */
  function Accounted(dirs: Dirs): set<nat> { dirs.Keys + TableFrames(dirs) + PageFrames(dirs) }

  /** The frames that map_page took and lost. */
  function Leaks(steps: seq<Step>): set<nat> { set k | 0 <= k < |steps| && steps[k].Leak? :: steps[k].frame }

  ghost function ReservedIn(roles: Roles): set<nat> { set f | f in roles && roles[f] == Reserved }

  /** Every frame with the role of a directory or a table is one. */
  ghost predicate Exact(s: State, roles: Roles) {
    forall f :: f in roles ==> ExactAt(s.dirs, f, roles[f])
  }

  ghost predicate ExactAt(dirs: Dirs, f: nat, role: Role) {
    match role
    case Directory => f in dirs
    case Table(d, i) => d in dirs && i in dirs[d].tables && dirs[d].tables[i] == f
    case _ => true
  }

  lemma UsedIsAccounted(s: State, roles: Roles)
    requires Inv(s, roles) && Exact(s, roles)
    ensures UsedSet(s.used) == ReservedIn(roles) + Accounted(s.dirs)
  {
    hide Inv, PageFrames;
    RolesUsed(s, roles);
    forall f | f in UsedSet(s.used) ensures f in ReservedIn(roles) + Accounted(s.dirs) {
      assert ExactAt(s.dirs, f, roles[f]);
      if roles[f] == Data { DataNamed(s, roles, f); }
    }
    forall f | f in Accounted(s.dirs) ensures f in UsedSet(s.used) { AccountedUsed(s, roles, f); }
  }

  lemma DataNamed(s: State, roles: Roles, f: nat)
    requires Inv(s, roles) && f in roles && roles[f] == Data
    ensures f in PageFrames(s.dirs)
  {
    hide DirsOk, OwnRoles, Exclusive, DataRoles, RolesCover;
    var d :| d in Users(Held(s.dirs), f);
    assert f in Frames(s.dirs[d].ptes);
  }

  lemma PageUsed(s: State, roles: Roles, d: nat, p: nat)
    requires Inv(s, roles) && d in s.dirs && p in s.dirs[d].ptes
    ensures var f := s.dirs[d].ptes[p].frame; f in UsedSet(s.used) && f in roles && roles[f] == Data
  {
    hide DirsOk, OwnRoles, Exclusive, DataRoles, CountsOk, Frames;
    NamedIsData(s.refs, s.dirs, roles, d, p);
  }

  lemma TableUsed(s: State, roles: Roles, d: nat, i: nat)
    requires Inv(s, roles) && d in s.dirs && i in s.dirs[d].tables
    ensures var f := s.dirs[d].tables[i]; f in UsedSet(s.used) && f in roles && roles[f] == Table(d, i)
  {
    hide DirsOk, Exclusive, DataRoles, CountsOk, Frames, Held, Writable;
    assert Tables(s.dirs)[d][i] == s.dirs[d].tables[i];
  }

  lemma DirUsed(s: State, roles: Roles, d: nat)
    requires Inv(s, roles) && d in s.dirs
    ensures d in UsedSet(s.used) && d in roles && roles[d] == Directory
  {
    hide DirsOk, Exclusive, DataRoles, CountsOk, Frames, Held, Writable;
    assert d in Tables(s.dirs);
  }

  lemma AccountedUsed(s: State, roles: Roles, f: nat)
    requires Inv(s, roles) && f in Accounted(s.dirs)
    ensures f in UsedSet(s.used) && f in roles && roles[f] != Reserved
  {
    hide Inv, UsedSet;
    if f in PageFrames(s.dirs) {
      var d, p :| d in s.dirs && p in s.dirs[d].ptes && s.dirs[d].ptes[p].frame == f;
      PageUsed(s, roles, d, p);
    } else if f in TableFrames(s.dirs) {
      var d, i :| d in s.dirs && i in s.dirs[d].tables && s.dirs[d].tables[i] == f;
      TableUsed(s, roles, d, i);
    } else {
      DirUsed(s, roles, f);
    }
  }

  lemma OwnedOnce(s: State, roles: Roles, f: nat)
    requires Inv(s, roles) && f in roles && (roles[f] == Directory || roles[f].Table?)
    ensures f < |s.refs| && s.refs[f] == 1
  {
    hide DirsOk, OwnRoles, Exclusive, DataRoles, Frames;
  }

  lemma RolesUsed(s: State, roles: Roles)
    requires Inv(s, roles)
    ensures |s.used| == |s.refs| && forall f :: f in roles <==> f in UsedSet(s.used)
  {
    hide DirsOk, OwnRoles, Exclusive, DataRoles, CountsOk, Frames;
  }

  // ---- Steps ----------------------------------------------------------------------------------------

  /** Directory frames and tables that a step leaves alone. */
  ghost predicate SameTables(dirs: Dirs, dirs': Dirs) {
    dirs'.Keys == dirs.Keys && forall d :: d in dirs ==> dirs'[d].tables == dirs[d].tables
  }

  lemma StepExact(s: State, roles: Roles, step: Step, s': State, r: Roles)
    requires Inv(s, roles) && Exact(s, roles) && Next(s, step, s') && RolesAfter(roles, step, s', r)
    ensures Exact(s', r)
  {
    hide Inv, Frames, CowAll, ReleaseUsed, ReleaseRefs, TakeUsed, TakeRefs, RetainRefs, Exact, UndoBefore, Owned;
    match step
    case Spawn(child, kernel) =>
      NewIsApart(s, roles, child);
      SpawnExact(s, roles, child, kernel);
    case Fork(parent, child, tables) =>
      NewIsApart(s, roles, child);
      ForkExact(s, roles, parent, child, tables, r);
    case NewTable(d, i, frame) =>
      NewIsApart(s, roles, frame);
      TableExact(s, roles, d, i, frame);
    case Copy(_, _, frame) => SameExact(s, s', roles, r);
    case MapPage(_, _, frame, _, _) => SameExact(s, s', roles, r);
    case Leak(frame) => SameExact(s, s', roles, r);
    case Destroy(d) => DestroyExact(s, roles, d, r);
    case _ => SameExact(s, s', roles, r);
  }

  /** The tables are the same and no new directory or table role appeared. */
  lemma SameExact(s: State, s': State, roles: Roles, r: Roles)
    requires Exact(s, roles) && SameTables(s.dirs, s'.dirs)
    requires forall f :: f in r ==> r[f] == Data || r[f] == Reserved || (f in roles && r[f] == roles[f])
    ensures Exact(s', r)
  {
  }

  lemma SpawnExact(s: State, roles: Roles, child: nat, kernel: set<nat>)
    requires Exact(s, roles) && child !in s.dirs
    ensures Exact(Spawned(s, child, kernel), roles[child := Directory])
  {
  }

  lemma TableExact(s: State, roles: Roles, d: nat, i: nat, t: nat)
    requires Exact(s, roles) && CanTable(s, d, i, t)
    ensures Exact(Tabled(s, d, i, t), roles[t := Table(d, i)])
  {
  }

  lemma ForkExact(s: State, roles: Roles, parent: nat, child: nat, tables: map<nat, nat>, r: Roles)
    requires Exact(s, roles) && CanFork(s, parent, child, tables) && ForkRoles(roles, r, child, tables)
    requires child !in s.dirs
    ensures Exact(Forked(s, parent, child, tables), r)
  {
    hide CowAll, Frames;
  }

  lemma DestroyExact(s: State, roles: Roles, d: nat, r: Roles)
    requires Inv(s, roles) && Exact(s, roles) && d in s.dirs && |s.used| == |s.refs| && r == Surviving(roles, Destroyed(s, d).used)
    ensures Exact(Destroyed(s, d), r)
  {
    hide Inv, Frames;
    forall f | f in r ensures ExactAt(s.dirs - {d}, f, r[f]) {
      assert ExactAt(s.dirs, f, roles[f]);
      if roles[f] == Directory || roles[f].Table? { OwnedOnce(s, roles, f); }
    }
  }

  /** Reserved frames stay, and only a leak makes one. */
  lemma StepReserved(s: State, roles: Roles, step: Step, s': State, r: Roles)
    requires Inv(s, roles) && Next(s, step, s') && RolesAfter(roles, step, s', r)
    ensures ReservedIn(r) == ReservedIn(roles) + Leaks([step])
  {
    hide Inv, Frames, CowAll, TakeUsed, TakeRefs, RetainRefs, ReservedIn, Surviving, ReleaseUsed, ReleaseRefs, SetPages;
    assert step.Leak? ==> [step][0].frame in Leaks([step]);
    match step
    case Spawn(child, kernel) =>
      NewIsApart(s, roles, child);
      OneRole(roles, child, Directory);
    case Fork(parent, child, tables) =>
      NewIsApart(s, roles, child);
      ForkReserved(roles, r, child, tables);
    case Copy(_, _, frame) =>
      NewIsApart(s, roles, frame);
      OneRole(roles, frame, Data);
    case NewTable(d, i, frame) =>
      NewIsApart(s, roles, frame);
      OneRole(roles, frame, Table(d, i));
    case MapPage(_, _, frame, _, _) =>
      NewIsApart(s, roles, frame);
      OneRole(roles, frame, Data);
    case Leak(frame) =>
      NewIsApart(s, roles, frame);
      OneRole(roles, frame, Reserved);
    case Drop(d, p) =>
      PageUsed(s, roles, d, p);
      ReleaseReserved(s, roles, {s.dirs[d].ptes[p].frame});
    case Destroy(d) =>
      OwnedRoles(s, roles, d);
      ReleaseReserved(s, roles, Owned(d, s.dirs[d]));
    case _ =>
  }

  lemma OneRole(roles: Roles, f: nat, role: Role)
    requires f !in roles
    ensures ReservedIn(roles[f := role]) == ReservedIn(roles) + if role == Reserved then {f} else {}
  {
  }

  lemma ForkReserved(roles: Roles, r: Roles, child: nat, tables: map<nat, nat>)
    requires ForkRoles(roles, r, child, tables) && child !in roles
    ensures ReservedIn(r) == ReservedIn(roles)
  {
  }

  lemma ReleaseReserved(s: State, roles: Roles, fs: set<nat>)
    requires Inv(s, roles) && |s.used| == |s.refs| && forall f :: f in fs ==> f in roles && roles[f] != Reserved
    ensures ReservedIn(Surviving(roles, ReleaseUsed(s.used, s.refs, fs))) == ReservedIn(roles)
  {
    hide Inv;
    RolesUsed(s, roles);
  }

  lemma OwnedRoles(s: State, roles: Roles, d: nat)
    requires Inv(s, roles) && d in s.dirs
    ensures forall f :: f in Owned(d, s.dirs[d]) ==> f in roles && roles[f] != Reserved
  {
    hide Inv, UsedSet;
    forall f | f in Owned(d, s.dirs[d]) ensures f in Accounted(s.dirs) {
      if f in Frames(s.dirs[d].ptes) {
        var p :| p in s.dirs[d].ptes && s.dirs[d].ptes[p].frame == f;
      } else if f in s.dirs[d].tables.Values {
        var i :| i in s.dirs[d].tables && s.dirs[d].tables[i] == f;
      }
    }
    forall f | f in Owned(d, s.dirs[d]) ensures f in roles && roles[f] != Reserved { AccountedUsed(s, roles, f); }
  }

  // ---- Runs -----------------------------------------------------------------------------------------

  ghost predicate RunRoles(states: seq<State>, steps: seq<Step>, rs: seq<Roles>) {
    && IsRun(states, steps) && |rs| == |states|
    && (forall k :: 0 <= k < |states| ==> Inv(states[k], rs[k]))
    && forall k :: 0 <= k < |steps| ==> RolesAfter(rs[k], steps[k], states[k + 1], rs[k + 1])
  }

  lemma {:induction false} RunExact(states: seq<State>, steps: seq<Step>, rs: seq<Roles>, k: nat)
    requires RunRoles(states, steps, rs) && Exact(states[0], rs[0]) && k < |states|
    ensures Exact(states[k], rs[k]) && ReservedIn(rs[k]) == ReservedIn(rs[0]) + Leaks(steps[..k])
    decreases k
  {
    hide Inv, Next, RolesAfter, Exact, ReservedIn;
    if k > 0 {
      var j := k - 1;
      RunExact(states, steps, rs, j);
      assert Next(states[j], steps[j], states[j + 1]) && RolesAfter(rs[j], steps[j], states[j + 1], rs[j + 1]);
      StepExact(states[j], rs[j], steps[j], states[k], rs[k]);
      StepReserved(states[j], rs[j], steps[j], states[k], rs[k]);
      LeaksAppend(steps, j);
    } else {
      assert Leaks(steps[..0]) == {};
    }
  }

  lemma LeaksAppend(steps: seq<Step>, j: nat)
    requires j < |steps|
    ensures Leaks(steps[..j + 1]) == Leaks(steps[..j]) + Leaks([steps[j]])
  {
    var a, b, c := steps[..j + 1], steps[..j], [steps[j]];
    forall f | f in Leaks(a) ensures f in Leaks(b) + Leaks(c) {
      var k :| 0 <= k < |a| && a[k].Leak? && a[k].frame == f;
      assert if k < j then b[k] == a[k] else c[0] == a[k];
    }
    forall f | f in Leaks(b) ensures f in Leaks(a) {
      var k :| 0 <= k < |b| && b[k].Leak? && b[k].frame == f;
      assert a[k] == b[k];
    }
    forall f | f in Leaks(c) ensures f in Leaks(a) { assert a[j] == c[0]; }
  }

  /** Conservation: the frames in use are those in use at boot, those that map_page lost, and exactly
      the directories, tables and pages of the address spaces. */
  lemma FramesAccounted(states: seq<State>, steps: seq<Step>, k: nat)
    requires IsRun(states, steps) && Booted(states[0]) && k < |states|
    ensures UsedSet(states[k].used) == UsedSet(states[0].used) + Leaks(steps[..k]) + Accounted(states[k].dirs)
  {
    hide Inv, Next, RolesAfter, Exact, Accounted, Abs, EagerRun;
    var rs := BootRefinesEagerCopy(states, steps);
    BootExact(states[0]);
    RunExact(states, steps, rs, k);
    UsedIsAccounted(states[k], rs[k]);
  }

  lemma BootExact(s: State)
    requires Booted(s)
    ensures Exact(s, BootRoles(s)) && ReservedIn(BootRoles(s)) == UsedSet(s.used)
  {
  }
}
