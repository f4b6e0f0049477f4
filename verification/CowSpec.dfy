/** Copy-on-write address spaces as values: the state that kernel/src/cow.cpp, pmm.cpp and
    vmm.cpp share, the effect of each of their operations on it, and the invariant.

    A page is a virtual page number (address divided by 4096); its page-directory index is
    page / 1024. Paging is 32-bit paging (Intel SDM Vol. 3A, section 4.3). */
module CowSpec {
  import opened Collections
  import opened PhysicalMemory

  newtype Byte = x: int | 0 <= x < 256
  type Bytes = seq<Byte>

  const PAGE_SIZE := 4096
  const RECURSIVE_PD_INDEX := 1023

  /** A present page-table entry. An entry that is not present is absent from the map. */
  datatype Pte = Pte(frame: nat, writable: bool, cow: bool)
  type Pages = map<nat, Pte>

  /** `kernel`: directory slots that hold shared kernel tables. `tables`: the frames of the
      private user tables, by directory index. `ptes`: the entries of those tables, by page. */
  datatype Dir = Dir(kernel: set<nat>, tables: map<nat, nat>, ptes: Pages)
  type Dirs = map<nat, Dir>

  /** The allocator's bitmap and counts, and the contents of the frames. */
  datatype State = State(used: seq<bool>, refs: seq<nat>, ram: seq<Bytes>, dirs: Dirs)

  // ---- The invariant ---------------------------------------------------------------------

  /** The frames an address space's entries name, and those named by writable entries. */
  function Frames(ptes: Pages): set<nat> {
    set p | p in ptes :: ptes[p].frame
  }

  function WritableFrames(ptes: Pages): set<nat> {
    set p | p in ptes && ptes[p].writable :: ptes[p].frame
  }

  function Held(dirs: Dirs): map<nat, set<nat>> {
    map d | d in dirs :: Frames(dirs[d].ptes)
  }

  function Writable(dirs: Dirs): map<nat, set<nat>> {
    map d | d in dirs :: WritableFrames(dirs[d].ptes)
  }

  function Tables(dirs: Dirs): map<nat, map<nat, nat>> {
    map d | d in dirs :: dirs[d].tables
  }

  /** The address spaces with an entry naming frame f. */
  function Users(held: map<nat, set<nat>>, f: nat): set<nat> {
    set d | d in held && f in held[d]
  }

  function Count(held: map<nat, set<nat>>, f: nat): nat {
    |Users(held, f)|
  }

  /** Every (directory, page) whose entry names frame f. */
  function Refs(dirs: Dirs, f: nat): set<(nat, nat)> {
    set d, p | d in dirs && p in dirs[d].ptes && dirs[d].ptes[p].frame == f :: (d, p)
  }

  /** No two pages of one address space share a frame. */
  ghost predicate Injective(ptes: Pages) {
    forall p, q :: p in ptes && q in ptes && ptes[p].frame == ptes[q].frame ==> p == q
  }

  ghost predicate DirOk(dir: Dir) {
    && (forall i :: i in dir.tables ==> i < RECURSIVE_PD_INDEX && i !in dir.kernel)
    && (forall i :: i in dir.kernel ==> i < RECURSIVE_PD_INDEX)
    && (forall p :: p in dir.ptes ==> p / 1024 in dir.tables)
    && (forall p :: p in dir.ptes ==> !(dir.ptes[p].writable && dir.ptes[p].cow))
    && Injective(dir.ptes)
  }

  ghost predicate DirsOk(dirs: Dirs) {
    forall d :: d in dirs ==> DirOk(dirs[d])
  }

  ghost predicate Shape(s: State) {
    && |s.used| == |s.refs| == |s.ram| < 0x10_0000
    && forall f :: 0 <= f < |s.ram| ==> |s.ram[f]| == PAGE_SIZE
  }

  /** What a frame in use is used for: one role per frame. */
  datatype Role = Reserved | Directory | Table(dir: nat, index: nat) | Data
  type Roles = map<nat, Role>

  /** The frames with a role are the frames in use; frame 0 is boot memory. */
  ghost predicate RolesCover(used: seq<bool>, roles: Roles) {
    && (forall f :: f in roles <==> 0 <= f < |used| && used[f])
    && 0 in roles && roles[0] == Reserved
  }

  /** Each directory and each table has a frame of its own. */
  ghost predicate OwnRoles(tables: map<nat, map<nat, nat>>, roles: Roles) {
    && (forall d :: d in tables ==> d in roles && roles[d] == Directory)
    && (forall d, i {:trigger tables[d][i]} {:trigger i in tables[d]} :: d in tables && i in tables[d] ==> tables[d][i] in roles && roles[tables[d][i]] == Table(d, i))
  }

  ghost predicate DataRoles(held: map<nat, set<nat>>, roles: Roles) {
    forall d, f {:trigger f in held[d]} :: d in held && f in held[d] ==> f in roles && roles[f] == Data
  }

  /** The reference count of a data frame is the number of address spaces that hold it, which
      is the number of entries naming it (CountsArePtes); directories and tables are held once. */
  ghost predicate CountsOk(refs: seq<nat>, held: map<nat, set<nat>>, roles: Roles) {
    && (forall f :: f in roles ==> f < |refs|)
    && (forall f :: f in roles && roles[f] == Data ==> refs[f] == Count(held, f) > 0)
    && (forall f :: f in roles && (roles[f] == Directory || roles[f].Table?) ==> refs[f] == 1)
  }

  /** A writable entry's frame is named by no other entry (WritableIsExclusive). */
  ghost predicate Exclusive(refs: seq<nat>, writable: map<nat, set<nat>>) {
    forall d, f {:trigger f in writable[d]} :: d in writable && f in writable[d] ==> f < |refs| && refs[f] == 1
  }

  ghost predicate Inv(s: State, roles: Roles) {
    && Shape(s)
    && DirsOk(s.dirs)
    && RolesCover(s.used, roles)
    && OwnRoles(Tables(s.dirs), roles)
    && DataRoles(Held(s.dirs), roles)
    && CountsOk(s.refs, Held(s.dirs), roles)
    && Exclusive(s.refs, Writable(s.dirs))
  }

  // ---- What the processes see -----------------------------------------------------------

  /** A page as its process sees it: a copy-on-write page counts as writable. */
  datatype View = View(bytes: Bytes, writable: bool)
  type Views = map<nat, View>

  /** An address space: the directory slots with kernel tables, and the user pages. */
  datatype Space = Space(kernel: set<nat>, pages: Views)
  type Eager = map<nat, Space>

  ghost predicate FramesInRam(n: nat, ptes: Pages) {
    forall p :: p in ptes ==> ptes[p].frame < n
  }

  ghost function AbsPages(ram: seq<Bytes>, ptes: Pages): Views
    requires FramesInRam(|ram|, ptes)
  {
    map p | p in ptes :: View(ram[ptes[p].frame], ptes[p].writable || ptes[p].cow)
  }

  ghost function AbsSpace(ram: seq<Bytes>, dir: Dir): Space
    requires FramesInRam(|ram|, dir.ptes)
  {
    Space(dir.kernel, AbsPages(ram, dir.ptes))
  }

  ghost predicate AllInRam(n: nat, dirs: Dirs) {
    forall d :: d in dirs ==> FramesInRam(n, dirs[d].ptes)
  }

  ghost function Abs(ram: seq<Bytes>, dirs: Dirs): Eager
    requires AllInRam(|ram|, dirs)
  {
    map d | d in dirs :: AbsSpace(ram, dirs[d])
  }

  // ---- Counting -----------------------------------------------------------------------------

  lemma CountBound(held: map<nat, set<nat>>, f: nat)
    ensures Count(held, f) <= |held|
  {
    Subset(Users(held, f), held.Keys);
  }

  /** Counting address spaces is counting entries. */
  lemma {:induction false} CountsArePtes(dirs: Dirs, f: nat)
    requires forall d :: d in dirs ==> Injective(dirs[d].ptes)
    ensures |Refs(dirs, f)| == Count(Held(dirs), f)
    decreases |dirs|
  {
    if dirs == map[] {
      assert Refs(dirs, f) == {};
      assert Users(Held(dirs), f) == {};
    } else {
      var d :| d in dirs;
      var rest := dirs - {d};
      assert rest.Keys == dirs.Keys - {d};
      CountsArePtes(rest, f);
      RefsSplit(dirs, d, f);
      UsersSplit(dirs, d, f);
    }
  }

  lemma UsersSplit(dirs: Dirs, d: nat, f: nat)
    requires d in dirs
    ensures Count(Held(dirs), f) == Count(Held(dirs - {d}), f) + if f in Frames(dirs[d].ptes) then 1 else 0
  {
    assert Held(dirs - {d}) == Held(dirs) - {d};
    assert Users(Held(dirs - {d}), f) == Users(Held(dirs), f) - {d};
  }

  lemma RefsSplit(dirs: Dirs, d: nat, f: nat)
    requires d in dirs && Injective(dirs[d].ptes)
    ensures |Refs(dirs, f)| == |Refs(dirs - {d}, f)| + if f in Frames(dirs[d].ptes) then 1 else 0
  {
    var rest := Refs(dirs - {d}, f);
    assert forall x :: x in rest ==> x in Refs(dirs, f) && x.0 != d;
    assert forall x :: x in Refs(dirs, f) && x.0 != d ==> x in rest;
    if f in Frames(dirs[d].ptes) {
      var p :| p in dirs[d].ptes && dirs[d].ptes[p].frame == f;
      assert forall x :: x in Refs(dirs, f) && x.0 == d ==> x == (d, p);
      assert Refs(dirs, f) == rest + {(d, p)};
    } else {
      assert forall x :: x in Refs(dirs, f) ==> x.0 != d;
      assert Refs(dirs, f) == rest;
    }
  }

  /** Under the invariant, a reference count is the number of entries naming the frame, and a
      writable entry is the only one naming its frame. */
  lemma RefcountIsPteCount(s: State, roles: Roles, d: nat, p: nat)
    requires Inv(s, roles) && d in s.dirs && p in s.dirs[d].ptes
    ensures var pte := s.dirs[d].ptes[p];
            && pte.frame < |s.refs| && s.refs[pte.frame] == |Refs(s.dirs, pte.frame)|
            && (pte.writable ==> Refs(s.dirs, pte.frame) == {(d, p)})
  {
    hide OwnRoles;
    hide RolesCover;
    hide Count;
    var pte := s.dirs[d].ptes[p];
    forall e | e in s.dirs ensures Injective(s.dirs[e].ptes) { assert DirOk(s.dirs[e]); }
    assert pte.frame in Held(s.dirs)[d];
    CountsArePtes(s.dirs, pte.frame);
    if pte.writable {
      assert pte.frame in Writable(s.dirs)[d];
      OnlyRef(s.dirs, d, p);
    }
  }

  lemma OnlyRef(dirs: Dirs, d: nat, p: nat)
    requires d in dirs && p in dirs[d].ptes && |Refs(dirs, dirs[d].ptes[p].frame)| == 1
    ensures Refs(dirs, dirs[d].ptes[p].frame) == {(d, p)}
  {
    assert |Refs(dirs, dirs[d].ptes[p].frame) - {(d, p)}| == 0;
  }
}
