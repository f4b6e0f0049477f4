/** Demand paging with swap, as kernel/src/memory_manager.cpp keeps it: frames, page tables and
    swap slots, and the invariant that ties them together one to one. */
module Paging {

  type Pid = nat
  const INVALID_PID: Pid := 0
  const KERNEL_PID: Pid := 1
  const NO_SLOT: nat := 0xFFFF_FFFF

  datatype Frame = Frame(
    isFree: bool, isKernel: bool, owner: Pid, page: nat, lastAccess: nat, loadedAt: nat, dirty: bool, referenced: bool)

  datatype Pte = Pte(
    page: nat, frame: nat, present: bool, dirty: bool, referenced: bool, inSwap: bool, slot: nat, lastAccess: nat)

  datatype Slot = Slot(isFree: bool, owner: Pid, page: nat, dirty: bool, swappedAt: nat)

  datatype Memory = Memory(frames: seq<Frame>, kernel: nat, tables: map<Pid, seq<Pte>>, slots: seq<Slot>)

  // ---- The invariant ----------------------------------------------------------------------------

  predicate HasPage(m: Memory, pid: Pid, page: nat) { pid in m.tables && page < |m.tables[pid]| }

  function PteOf(m: Memory, pid: Pid, page: nat): Pte
    requires HasPage(m, pid, page)
  {
    m.tables[pid][page]
  }

  ghost predicate Holds(m: Memory, f: nat, pid: Pid, page: nat) {
    && m.kernel <= f < |m.frames|
    && !m.frames[f].isFree && m.frames[f].owner == pid && m.frames[f].page == page
  }

  ghost predicate Stores(m: Memory, k: nat, pid: Pid, page: nat) {
    k < |m.slots| && !m.slots[k].isFree && m.slots[k].owner == pid && m.slots[k].page == page
  }

  /** A present page is in the frame it names, a swapped page in the slot it names. */
  ghost predicate PteOk(m: Memory, pid: Pid, page: nat)
    requires HasPage(m, pid, page)
  {
    var p := PteOf(m, pid, page);
    && p.page == page && !(p.present && p.inSwap)
    && (p.present ==> Holds(m, p.frame, pid, page))
    && (p.inSwap ==> Stores(m, p.slot, pid, page))
  }

  ghost predicate TablesOk(m: Memory) {
    forall pid, page {:trigger HasPage(m, pid, page)} :: HasPage(m, pid, page) ==> PteOk(m, pid, page)
  }

  /** A used frame holds a present page that names it. */
  ghost predicate FrameOk(m: Memory, f: nat)
    requires f < |m.frames|
  {
    var x := m.frames[f];
    if f < m.kernel then x.isKernel && !x.isFree
    else !x.isKernel && (!x.isFree ==>
      HasPage(m, x.owner, x.page) && PteOf(m, x.owner, x.page).present && PteOf(m, x.owner, x.page).frame == f)
  }

  ghost predicate FramesOk(m: Memory) {
    m.kernel < |m.frames| && forall f :: 0 <= f < |m.frames| ==> FrameOk(m, f)
  }

  /** A used slot holds a swapped page that names it. */
  ghost predicate SlotOk(m: Memory, k: nat)
    requires k < |m.slots|
  {
    var x := m.slots[k];
    !x.isFree ==> HasPage(m, x.owner, x.page) && PteOf(m, x.owner, x.page).inSwap && PteOf(m, x.owner, x.page).slot == k
  }

  ghost predicate SlotsOk(m: Memory) {
    |m.slots| <= NO_SLOT && forall k :: 0 <= k < |m.slots| ==> SlotOk(m, k)
  }

  ghost predicate Inv(m: Memory) { TablesOk(m) && FramesOk(m) && SlotsOk(m) }

  /** No two pages share a frame or a slot. */
  lemma NoSharing(m: Memory, p: Pid, i: nat, q: Pid, j: nat)
    requires Inv(m) && HasPage(m, p, i) && HasPage(m, q, j) && (p != q || i != j)
    ensures PteOf(m, p, i).present && PteOf(m, q, j).present ==> PteOf(m, p, i).frame != PteOf(m, q, j).frame
    ensures PteOf(m, p, i).inSwap && PteOf(m, q, j).inSwap ==> PteOf(m, p, i).slot != PteOf(m, q, j).slot
  {
    assert PteOk(m, p, i) && PteOk(m, q, j);
  }

  /** Where a page is. */
  datatype Place = Resident | Swapped | Absent | NoPage

  ghost function Where(m: Memory, pid: Pid, page: nat): Place {
    if !HasPage(m, pid, page) then NoPage
    else if PteOf(m, pid, page).present then Resident
    else if PteOf(m, pid, page).inSwap then Swapped
    else Absent
  }

  datatype Page = Page(pid: Pid, number: nat)

  ghost function Present(m: Memory): iset<Page> { iset a: Page | Where(m, a.pid, a.number) == Resident }

  ghost function InSwap(m: Memory): iset<Page> { iset a: Page | Where(m, a.pid, a.number) == Swapped }

  ghost function UsedFrames(m: Memory): iset<nat> { iset f: nat | m.kernel <= f < |m.frames| && !m.frames[f].isFree }

  ghost function UsedSlots(m: Memory): iset<nat> { iset k: nat | k < |m.slots| && !m.slots[k].isFree }

  function FrameNamed(m: Memory, a: Page): nat { if HasPage(m, a.pid, a.number) then PteOf(m, a.pid, a.number).frame else 0 }

  function SlotNamed(m: Memory, a: Page): nat { if HasPage(m, a.pid, a.number) then PteOf(m, a.pid, a.number).slot else 0 }

  function PageInFrame(m: Memory, f: nat): Page {
    if f < |m.frames| then Page(m.frames[f].owner, m.frames[f].page) else Page(INVALID_PID, 0)
  }

  function PageInSlot(m: Memory, k: nat): Page {
    if k < |m.slots| then Page(m.slots[k].owner, m.slots[k].page) else Page(INVALID_PID, 0)
  }

  /** Present pages and used frames are in bijection, and so are swapped pages and used slots. */
  lemma PagesFramesSlots(m: Memory)
    requires Inv(m)
    ensures forall a :: a in Present(m) ==> FrameNamed(m, a) in UsedFrames(m) && PageInFrame(m, FrameNamed(m, a)) == a
    ensures forall f :: f in UsedFrames(m) ==> PageInFrame(m, f) in Present(m) && FrameNamed(m, PageInFrame(m, f)) == f
    ensures forall a :: a in InSwap(m) ==> SlotNamed(m, a) in UsedSlots(m) && PageInSlot(m, SlotNamed(m, a)) == a
    ensures forall k :: k in UsedSlots(m) ==> PageInSlot(m, k) in InSwap(m) && SlotNamed(m, PageInSlot(m, k)) == k
  {
    forall a: Page | HasPage(m, a.pid, a.number) ensures PteOk(m, a.pid, a.number) { }
    forall f | f in UsedFrames(m) ensures FrameOk(m, f) { }
    forall k | k in UsedSlots(m)
      ensures PageInSlot(m, k) in InSwap(m) && SlotNamed(m, PageInSlot(m, k)) == k
    {
      assert SlotOk(m, k);
      assert PteOk(m, m.slots[k].owner, m.slots[k].page);
    }
  }

  // ---- Steps ------------------------------------------------------------------------------------

  function SetPte(m: Memory, pid: Pid, page: nat, p: Pte): Memory
    requires HasPage(m, pid, page)
  {
    m.(tables := m.tables[pid := m.tables[pid][page := p]])
  }

  function Released(x: Frame): Frame {
    x.(isFree := true, owner := INVALID_PID, dirty := false, referenced := false)
  }

  /** The page in frame f goes to slot k, or is dropped when k is NO_SLOT. */
  function Evicted(m: Memory, f: nat, k: nat, x: Slot): Memory
    requires f < |m.frames| && HasPage(m, m.frames[f].owner, m.frames[f].page) && (k != NO_SLOT ==> k < |m.slots|)
  {
    var pid, page := m.frames[f].owner, m.frames[f].page;
    var p := PteOf(m, pid, page);
    var p' := if k == NO_SLOT then p.(present := false) else p.(present := false, inSwap := true, slot := k);
    SetPte(m, pid, page, p').(frames := m.frames[f := Released(m.frames[f])],
                              slots := if k == NO_SLOT then m.slots else m.slots[k := x])
  }

  ghost predicate Evictable(m: Memory, f: nat, k: nat, x: Slot) {
    && Inv(m) && m.kernel <= f < |m.frames| && !m.frames[f].isFree
    && (k != NO_SLOT ==> k < |m.slots| && m.slots[k].isFree
                         && !x.isFree && x.owner == m.frames[f].owner && x.page == m.frames[f].page)
  }

  lemma EvictedPte(m: Memory, f: nat, k: nat, x: Slot)
    requires Evictable(m, f, k, x)
    ensures HasPage(m, m.frames[f].owner, m.frames[f].page)
    ensures var p := PteOf(m, m.frames[f].owner, m.frames[f].page); p.present && p.frame == f && !p.inSwap
  {
    assert FrameOk(m, f);
    assert PteOk(m, m.frames[f].owner, m.frames[f].page);
  }

  lemma EvictInv(m: Memory, f: nat, k: nat, x: Slot)
    requires Evictable(m, f, k, x) && HasPage(m, m.frames[f].owner, m.frames[f].page)
    ensures Inv(Evicted(m, f, k, x))
  {
    var m', pid, page := Evicted(m, f, k, x), m.frames[f].owner, m.frames[f].page;
    EvictedPte(m, f, k, x);
    forall q, j | HasPage(m', q, j) ensures PteOk(m', q, j) {
      assert HasPage(m, q, j);
      assert PteOk(m, q, j);
    }
    forall h | 0 <= h < |m'.frames| ensures FrameOk(m', h) { assert FrameOk(m, h); }
    forall h | 0 <= h < |m'.slots| ensures SlotOk(m', h) { assert SlotOk(m, h); }
  }

  /** The page of a process is put into the free frame f. */
  function Loaded(m: Memory, pid: Pid, page: nat, f: nat, x: Frame, p: Pte): Memory
    requires HasPage(m, pid, page) && f < |m.frames|
  {
    var old_ := PteOf(m, pid, page);
    SetPte(m, pid, page, p).(frames := m.frames[f := x],
      slots := if old_.inSwap && old_.slot < |m.slots| then m.slots[old_.slot := EmptySlot(m.slots[old_.slot])] else m.slots)
  }

  function EmptySlot(x: Slot): Slot { x.(isFree := true, owner := INVALID_PID, page := 0, dirty := false) }

  ghost predicate Loadable(m: Memory, pid: Pid, page: nat, f: nat, x: Frame, p: Pte) {
    && Inv(m) && HasPage(m, pid, page) && !PteOf(m, pid, page).present
    && m.kernel <= f < |m.frames| && m.frames[f].isFree
    && !x.isFree && !x.isKernel && x.owner == pid && x.page == page
    && p.page == page && p.frame == f && p.present && !p.inSwap
  }

  lemma LoadInv(m: Memory, pid: Pid, page: nat, f: nat, x: Frame, p: Pte)
    requires Loadable(m, pid, page, f, x, p)
    ensures Inv(Loaded(m, pid, page, f, x, p))
  {
    var m' := Loaded(m, pid, page, f, x, p);
    assert PteOk(m, pid, page);
    forall q, j | HasPage(m', q, j) ensures PteOk(m', q, j) {
      assert HasPage(m, q, j);
      assert PteOk(m, q, j);
    }
    forall h | 0 <= h < |m'.frames| ensures FrameOk(m', h) { assert FrameOk(m, h); }
    forall h | 0 <= h < |m'.slots| ensures SlotOk(m', h) { assert SlotOk(m, h); }
  }

  /** Changing flags and ticks only. */
  ghost predicate SameFrame(x: Frame, y: Frame) {
    y.isFree == x.isFree && y.isKernel == x.isKernel && y.owner == x.owner && y.page == x.page
  }

  ghost predicate SamePte(x: Pte, y: Pte) {
    y.page == x.page && y.frame == x.frame && y.present == x.present && y.inSwap == x.inSwap && y.slot == x.slot
  }

  lemma TouchInv(m: Memory, pid: Pid, page: nat, f: nat, x: Frame, p: Pte)
    requires Inv(m) && HasPage(m, pid, page) && f < |m.frames|
    requires SameFrame(m.frames[f], x) && SamePte(PteOf(m, pid, page), p)
    ensures Inv(SetPte(m, pid, page, p).(frames := m.frames[f := x]))
  {
    var m' := SetPte(m, pid, page, p).(frames := m.frames[f := x]);
    forall q, j | HasPage(m', q, j) ensures PteOk(m', q, j) {
      assert HasPage(m, q, j);
      assert PteOk(m, q, j);
    }
    forall h | 0 <= h < |m'.frames| ensures FrameOk(m', h) { assert FrameOk(m, h); }
    forall h | 0 <= h < |m'.slots| ensures SlotOk(m', h) { assert SlotOk(m, h); }
  }

  // ---- A process comes and goes ------------------------------------------------------------------

  function TableOf(m: Memory, pid: Pid): seq<Pte> { if pid in m.tables then m.tables[pid] else [] }

  function NewPte(i: nat, f: nat): Pte { Pte(i, f, true, false, false, false, NO_SLOT, 0) }

  /** The entries pushed for pages 0, 1, ... in the frames fs. */
  function NewPtes(fs: seq<nat>): seq<Pte> { seq(|fs|, i requires 0 <= i < |fs| => NewPte(i, fs[i])) }

  /** A fresh frame of allocate: its ticks are zero, whatever the clock says. */
  function TakenFrame(x: Frame, pid: Pid, page: nat): Frame {
    x.(isFree := false, owner := pid, page := page, loadedAt := 0, lastAccess := 0, dirty := false, referenced := false)
  }

  /** The frames fs were free and hold pages 0, 1, ... of pid; no other frame changed. */
  ghost predicate TakenSoFar(m: Memory, frames: seq<Frame>, pid: Pid, fs: seq<nat>) {
    && |frames| == |m.frames|
    && (forall i :: 0 <= i < |fs| ==> m.kernel <= fs[i] < |frames| && m.frames[fs[i]].isFree)
    && (forall i, j :: 0 <= i < j < |fs| ==> fs[i] != fs[j])
    && (forall i :: 0 <= i < |fs| ==> frames[fs[i]] == TakenFrame(m.frames[fs[i]], pid, i))
    && (forall f :: 0 <= f < |frames| && f !in fs ==> frames[f] == m.frames[f])
  }

  /** Page i of pid is in the free frame fs[i]. */
  ghost predicate Granted(m: Memory, m': Memory, pid: Pid, fs: seq<nat>) {
    && m'.kernel == m.kernel && m'.slots == m.slots
    && TakenSoFar(m, m'.frames, pid, fs)
    && m'.tables == m.tables[pid := TableOf(m, pid) + NewPtes(fs)]
  }

  lemma GrantInv(m: Memory, m': Memory, pid: Pid, fs: seq<nat>)
    requires Inv(m) && TableOf(m, pid) == [] && Granted(m, m', pid, fs)
    ensures Inv(m')
  {
    forall q: Pid, j: nat | HasPage(m', q, j) ensures PteOk(m', q, j) {
      if q != pid {
        assert HasPage(m, q, j);
        assert PteOk(m, q, j);
        if PteOf(m, q, j).present { assert PteOf(m, q, j).frame !in fs; }
      } else {
        assert PteOf(m', pid, j) == NewPte(j, fs[j]);
      }
    }
    forall h | 0 <= h < |m'.frames| ensures FrameOk(m', h) {
      assert FrameOk(m, h);
      if h in fs {
        var i: nat :| i < |fs| && fs[i] == h;
        assert PteOf(m', pid, i) == NewPte(i, fs[i]);
      }
    }
    forall h | 0 <= h < |m'.slots| ensures SlotOk(m', h) { assert SlotOk(m, h); }
  }

  /** A table with two new entries for one frame breaks the bijection. */
  lemma SharedFrameBreaks(m: Memory, pid: Pid, fs: seq<nat>, i: nat, j: nat)
    requires pid in m.tables && m.tables[pid] == NewPtes(fs) && i < j < |fs| && fs[i] == fs[j]
    ensures !Inv(m)
  {
    assert HasPage(m, pid, i) && HasPage(m, pid, j);
    assert PteOf(m, pid, i) == NewPte(i, fs[i]) && PteOf(m, pid, j) == NewPte(j, fs[j]);
    assert PteOk(m, pid, i) && PteOk(m, pid, j) ==> Holds(m, fs[i], pid, i) && Holds(m, fs[j], pid, j);
  }

  /** New entries start again at page 0, so behind older ones they are in the wrong place. */
  lemma SecondTableBreaks(m: Memory, pid: Pid, pt: seq<Pte>, fs: seq<nat>)
    requires pid in m.tables && m.tables[pid] == pt + NewPtes(fs) && pt != [] && fs != []
    ensures !Inv(m)
  {
    assert HasPage(m, pid, |pt|);
    assert PteOf(m, pid, |pt|) == NewPte(0, fs[0]);
  }

  /** All frames and slots of a process are free and its table is gone. */
  ghost predicate Withdrawn(m: Memory, m': Memory, pid: Pid) {
    && m'.kernel == m.kernel && |m'.frames| == |m.frames| && |m'.slots| == |m.slots|
    && (forall f :: 0 <= f < |m.frames| ==>
          if m.frames[f].owner == pid && !m.frames[f].isKernel then m'.frames[f].isFree && !m'.frames[f].isKernel
          else m'.frames[f] == m.frames[f])
    && (forall k :: 0 <= k < |m.slots| ==>
          if m.slots[k].owner == pid then m'.slots[k].isFree else m'.slots[k] == m.slots[k])
    && m'.tables == m.tables - {pid}
  }

  lemma WithdrawInv(m: Memory, m': Memory, pid: Pid)
    requires Inv(m) && Withdrawn(m, m', pid)
    ensures Inv(m')
  {
    forall q, j | HasPage(m', q, j) ensures PteOk(m', q, j) {
      assert HasPage(m, q, j);
      assert PteOk(m, q, j);
    }
    forall h | 0 <= h < |m'.frames| ensures FrameOk(m', h) { assert FrameOk(m, h); }
    forall h | 0 <= h < |m'.slots| ensures SlotOk(m', h) { assert SlotOk(m, h); }
  }
}
