/** The memory manager of kernel/src/memory_manager.cpp: allocation, access with page faults,
    eviction and swap. Events, the swap log and the memory map are not modelled. */
module MemoryManager {
  import opened Collections
  import opened Paging
  import opened Allocation

  datatype FitAlgorithm = FirstFit | BestFit | WorstFit

  lemma ResidentHeld(m: Memory, pid: Pid, page: nat)
    requires Inv(m) && HasPage(m, pid, page) && PteOf(m, pid, page).present
    ensures Holds(m, PteOf(m, pid, page).frame, pid, page) && |m.slots| <= NO_SLOT
  {
    assert PteOk(m, pid, page);
  }

  lemma SwappedStored(m: Memory, pid: Pid, page: nat)
    requires Inv(m) && HasPage(m, pid, page) && PteOf(m, pid, page).inSwap
    ensures Stores(m, PteOf(m, pid, page).slot, pid, page) && !PteOf(m, pid, page).present
  {
    assert PteOk(m, pid, page);
  }

  /** Frame f carries the tick as its last access, and as its load if it was loaded; all other frames
      are as they were. */
  ghost predicate Stamped(was: seq<Frame>, frames: seq<Frame>, f: nat, tick: nat, loaded: bool) {
    && |frames| == |was| && f < |frames| && frames[f].lastAccess == tick
    && frames[f].loadedAt == (if loaded then tick else was[f].loadedAt)
    && forall g :: 0 <= g < |frames| && g != f ==> frames[g] == was[g]
  }

  lemma NobodyMoved(m: Memory, m': Memory, a: Page, swap: bool)
    ensures VictimMoved(m, m', a, None, swap) && OthersStay(m, m, a, None)
  {
  }

  /** The dirty flag a page that is not resident comes back with: that of its slot. */
  ghost predicate DirtyInSwap(m: Memory, pid: Pid, page: nat) {
    Where(m, pid, page) == Swapped && var k := SlotNamed(m, Page(pid, page)); k < |m.slots| && m.slots[k].dirty
  }

  /** Taking a frame, then loading or touching: only the page and the victim move. */
  lemma MovedOn(m: Memory, m1: Memory, m2: Memory, a: Page, victim: Option<Page>, swap: bool)
    requires OthersStay(m, m1, a, victim) && VictimMoved(m, m1, a, victim, swap) && OthersStay(m1, m2, a, None)
    ensures OthersStay(m, m2, a, victim) && VictimMoved(m, m2, a, victim, swap)
  {
    if victim.Some? {
      var v := victim.value;
      assert Entry(m2, v) == Entry(m1, v);
    }
  }

  lemma NotKernel(m: Memory)
    requires Inv(m)
    ensures m.kernel < |m.frames| && forall f :: m.kernel <= f < |m.frames| ==> !m.frames[f].isKernel
  {
    forall f | m.kernel <= f < |m.frames| ensures !m.frames[f].isKernel { assert FrameOk(m, f); }
  }

  lemma VictimFrame(r: ReplacementAlgorithm, m: Memory, f: nat)
    requires IsVictim(r, m.frames, m.kernel, f)
    ensures m.kernel <= f < |m.frames|
  {
  }

  /** The page v of frame f was evicted, and the page a, which was not resident, did not move. */
  lemma VictimLeft(m: Memory, m': Memory, a: Page, f: nat, v: Page, swap: bool)
    requires v in Present(m) && a !in Present(m) && OthersStay(m, m', v, None) && SlotFilled(m, m', f, v)
    requires Where(m', v.pid, v.number) == if MaySwap(swap, v.pid) && HasFreeSlot(m) then Swapped else Absent
    ensures OthersStay(m, m', a, Some(v)) && VictimMoved(m, m', a, Some(v), swap) && Entry(m', a) == Entry(m, a)
    ensures |m'.slots| == |m.slots| && forall k :: 0 <= k < |m.slots| && !m.slots[k].isFree ==> m'.slots[k] == m.slots[k]
  {
  }

  lemma AllUsed(m: Memory, f: nat)
    requires !HasFreeFrame(m) && m.kernel <= f < |m.frames|
    ensures !m.frames[f].isFree
  {
  }

  class Manager {
    const pageSize: nat
    const kernel: nat
    const frames: array<Frame>
    var tables: map<Pid, seq<Pte>>
    var slots: seq<Slot>
    var fit: FitAlgorithm
    var replacement: ReplacementAlgorithm
    var swapEnabled: bool
    var faults: nat
    var hits: nat
    var replacements: nat
    var swapOuts: nat
    var swapIns: nat
    var dirtySwapOuts: nat

    ghost function M(): Memory
      reads this, frames
    {
      Memory(frames[..], kernel, tables, slots)
    }

    ghost predicate Valid()
      reads this, frames
    {
      Inv(M()) && pageSize >= 1
    }

    function Tick(): nat reads this { faults + hits }

    /** init: the first tenth of the frames, at least four, belong to the kernel. */
    constructor (total: nat, size: nat, swapSlots: nat)
      requires size >= 1 && total > 4 && swapSlots <= NO_SLOT
      ensures Valid() && fresh(frames) && tables == map[] && |slots| == swapSlots
      ensures pageSize == size && kernel == KernelFrames(total) && frames.Length == total
      ensures forall f :: kernel <= f < total ==> frames[f].isFree && frames[f].loadedAt == frames[f].lastAccess == 0
      ensures (forall k :: 0 <= k < |slots| ==> slots[k].isFree) && fit == FirstFit && replacement == Fifo && swapEnabled && Tick() == 0
    {
      pageSize := size;
      var k := if total / 10 > 4 then total / 10 else 4;
      kernel := k;
      var fs := new Frame[total](i =>
        Frame(i >= k, i < k, if i < k then KERNEL_PID else INVALID_PID, 0, 0, 0, false, false));
      frames := fs;
      tables := map[];
      slots := seq(swapSlots, _ => Slot(true, INVALID_PID, 0, false, 0));
      fit, replacement, swapEnabled := FirstFit, Fifo, true;
      faults, hits, replacements, swapOuts, swapIns, dirtySwapOuts := 0, 0, 0, 0, 0, 0;
    }

    // ---- Searches -------------------------------------------------------------------------------

    method FindFreeFrame() returns (r: Option<nat>)
      requires kernel < frames.Length
      ensures r.None? <==> !HasFreeFrame(M())
      ensures r.Some? ==> FitChoice(fit == WorstFit, frames[..], kernel, r.value)
    {
      if fit == WorstFit {
        var i := frames.Length;
        while i > kernel
          invariant kernel <= i <= frames.Length
          invariant forall f :: i <= f < frames.Length ==> !frames[f].isFree
        {
          if frames[i - 1].isFree { return Some(i - 1); }
          i := i - 1;
        }
      } else {
        var i := kernel;
        while i < frames.Length
          invariant kernel <= i <= frames.Length
          invariant forall f :: kernel <= f < i ==> !frames[f].isFree
        {
          if frames[i].isFree { return Some(i); }
          i := i + 1;
        }
      }
      return None;
    }

    /** The used frame with the oldest load (Fifo) or access (Lru; Opt does the same); the lowest
        of several. */
    method SelectVictim() returns (v: nat)
      requires kernel < frames.Length && !HasFreeFrame(M())
      requires forall f :: kernel <= f < frames.Length ==> !frames[f].isKernel
      ensures IsVictim(replacement, frames[..], kernel, v) && !frames[v].isFree
    {
      v := kernel;
      var oldest := Age(replacement, frames[kernel]);
      var i := kernel;
      while i < frames.Length
        invariant kernel <= i <= frames.Length && kernel <= v < frames.Length && oldest == Age(replacement, frames[v])
        invariant v < i || v == kernel
        invariant forall f :: kernel <= f < i ==> oldest <= Age(replacement, frames[f])
        invariant forall f :: kernel <= f < v ==> oldest < Age(replacement, frames[f])
      {
        AllUsed(M(), i);
        if !frames[i].isFree && !frames[i].isKernel && Age(replacement, frames[i]) < oldest {
          oldest, v := Age(replacement, frames[i]), i;
        }
        i := i + 1;
      }
      AllUsed(M(), v);
    }

    method FindFreeSlot() returns (r: Option<nat>)
      ensures r == FirstFreeSlot(slots)
    {
      var i := 0;
      while i < |slots|
        invariant 0 <= i <= |slots| && forall k :: 0 <= k < i ==> !slots[k].isFree
      {
        if slots[i].isFree { return Some(i); }
        i := i + 1;
      }
      return None;
    }

    /** The index of a page in a process's table. */
    method FindPte(pid: Pid, page: nat) returns (r: Option<nat>)
      requires Valid()
      ensures r == if HasPage(M(), pid, page) then Some(page) else None
    {
      if pid !in tables { return None; }
      var pt, i := tables[pid], 0;
      while i < |pt|
        invariant 0 <= i <= |pt| && (i > page ==> page >= |pt|)
      {
        assert HasPage(M(), pid, i) && PteOk(M(), pid, i);
        if pt[i].page == page { return Some(i); }
        i := i + 1;
      }
      return None;
    }

    // ---- Eviction -------------------------------------------------------------------------------

    /** Writes the page of a frame to a slot. */
    method WriteToSwap(pid: Pid, page: nat, f: nat, k: nat)
      requires f < frames.Length && k < |slots|
      modifies this`slots, this`swapOuts, this`dirtySwapOuts
      ensures slots == old(slots)[k := Slot(false, pid, page, frames[f].dirty, Tick())]
      ensures swapOuts == old(swapOuts) + 1 && dirtySwapOuts == old(dirtySwapOuts) + (if frames[f].dirty then 1 else 0)
    {
      slots := slots[k := Slot(false, pid, page, frames[f].dirty, faults + hits)];
      swapOuts := swapOuts + 1;
      if frames[f].dirty { dirtySwapOuts := dirtySwapOuts + 1; }
    }

    /** Frees a frame in any state. In a good one the frame's page goes to swap when swap is on,
        its owner may swap and a slot is free, and is dropped otherwise; no other page moves. */
    method EvictFrame(f: nat)
      requires f < frames.Length
      modifies this`tables, this`slots, this`swapOuts, this`dirtySwapOuts, frames
      ensures M() == FrameEvicted(old(M()), f, swapEnabled, Tick())
      ensures old(Valid() && kernel <= f && !frames[f].isFree) ==>
                var v := old(PageInFrame(M(), f));
                && Valid() && frames[f].isFree && v in old(Present(M())) && OthersStay(old(M()), M(), v, None)
                && Where(M(), v.pid, v.number) == (if MaySwap(swapEnabled, v.pid) && old(HasFreeSlot(M())) then Swapped else Absent)
                && FrameFreed(old(M()), M(), f) && SlotFilled(old(M()), M(), f, v)
    {
      ghost var m := M();
      var x := frames[f];
      var slot: Option<nat> := None;
      if MaySwap(swapEnabled, x.owner) {
        slot := FindFreeSlot();
        if slot.Some? { WriteToSwap(x.owner, x.page, f, slot.value); }
      }
      MarkEvicted(x.owner, x.page, f, MaySwap(swapEnabled, x.owner), slot);
      ReleaseFrame(f);
      assert M() == FrameEvicted(m, f, swapEnabled, Tick());
      if Inv(m) && kernel <= f && !x.isFree { FrameEvictedInv(m, f, swapEnabled, Tick()); }
    }

    /** Looks for the entry by page and frame and clears its present bit. */
    method MarkEvicted(pid: Pid, page: nat, f: nat, maySwap: bool, slot: Option<nat>)
      modifies this`tables
      ensures var i := FirstEntry(TableOf(old(M()), pid), page, f);
              tables == if i.Some? then old(tables)[pid := old(tables)[pid][i.value := Marked(old(tables)[pid][i.value], maySwap, slot)]]
                        else old(tables)
    {
      if pid !in tables { return; }
      var pt, i := tables[pid], 0;
      while i < |pt| && !(pt[i].page == page && pt[i].frame == f)
        invariant 0 <= i <= |pt| && forall j :: 0 <= j < i ==> !(pt[j].page == page && pt[j].frame == f)
      {
        i := i + 1;
      }
      if i < |pt| { tables := tables[pid := pt[i := Marked(pt[i], maySwap, slot)]]; }
    }

    method ReleaseFrame(f: nat)
      requires f < frames.Length
      modifies frames
      ensures frames[..] == old(frames[..])[f := Released(old(frames[f]))]
    {
      frames[f] := Released(frames[f]);
    }

    // ---- Access and swap ------------------------------------------------------------------------

    /** A free frame for a page that is not resident: the one the fit algorithm finds, or that of the
        victim the replacement algorithm selects when all are used. */
    method TakeFrame(ghost a: Page) returns (f: nat, ghost victim: Option<Page>)
      requires Valid() && HasPage(M(), a.pid, a.number) && !PteOf(M(), a.pid, a.number).present
      modifies this`tables, this`slots, this`swapOuts, this`dirtySwapOuts, this`replacements, frames
      ensures Valid() && kernel <= f < frames.Length && frames[f].isFree && |slots| == |old(slots)|
      ensures victim.None? <==> old(HasFreeFrame(M()))
      ensures OthersStay(old(M()), M(), a, victim) && VictimMoved(old(M()), M(), a, victim, swapEnabled)
      ensures HasPage(M(), a.pid, a.number) && PteOf(M(), a.pid, a.number) == old(PteOf(M(), a.pid, a.number))
      ensures victim.None? ==> M() == old(M())
      ensures victim.None? ==> FitChoice(fit == WorstFit, old(frames[..]), kernel, f)
      ensures replacements == old(replacements) + (if victim.Some? then 1 else 0)
      ensures victim.Some? ==> IsVictim(replacement, old(frames[..]), kernel, f) && victim == Some(old(PageInFrame(M(), f)))
      ensures FrameFreed(old(M()), M(), f)
      ensures forall k :: 0 <= k < |slots| && !old(slots)[k].isFree ==> slots[k] == old(slots)[k]
    {
      hide Inv, OthersStay, VictimMoved, SlotFilled, IsVictim, HasFreeSlot, FrameEvicted;
      ghost var m := M();
      NobodyMoved(m, m, a, swapEnabled);
      NotKernel(m);
      var r := FindFreeFrame();
      if r.Some? { return r.value, None; }
      f := SelectVictim();
      ghost var v := PageInFrame(m, f);
      VictimFrame(replacement, m, f);
      EvictFrame(f);
      victim := Some(v);
      VictimLeft(m, M(), a, f, v, swapEnabled);
      replacements := replacements + 1;
    }

    /** Puts a page into a free frame: from its slot, which becomes free, or anew. A page that was
        dirty when it was swapped out is dirty again. */
    method LoadPage(pid: Pid, page: nat, f: nat)
      requires Valid() && HasPage(M(), pid, page) && !PteOf(M(), pid, page).present
      requires kernel <= f < frames.Length && frames[f].isFree
      modifies this`tables, this`slots, this`swapIns, frames
      ensures Valid() && HasPage(M(), pid, page) && Where(M(), pid, page) == Resident
      ensures PteOf(M(), pid, page).frame == f && OthersStay(old(M()), M(), Page(pid, page), None)
      ensures frames[f].loadedAt == frames[f].lastAccess == Tick() && frames[f].referenced
      ensures frames[f].dirty <==> old(PteOf(M(), pid, page)).inSwap && old(slots)[old(PteOf(M(), pid, page)).slot].dirty
      ensures forall g :: 0 <= g < frames.Length && g != f ==> frames[g] == old(frames[g])
      ensures PteOf(M(), pid, page).dirty == old(PteOf(M(), pid, page)).dirty
      ensures |slots| == |old(slots)| && forall k :: 0 <= k < |slots| ==>
                if old(PteOf(M(), pid, page)).inSwap && k == old(PteOf(M(), pid, page)).slot then slots[k].isFree else slots[k] == old(slots)[k]
    {
      ghost var m := M();
      assert PteOk(m, pid, page);
      var p, tick := tables[pid][page], faults + hits;
      var x := frames[f].(isFree := false, isKernel := false, owner := pid, page := page,
                          loadedAt := tick, lastAccess := tick, dirty := false, referenced := true);
      if p.inSwap && p.slot != NO_SLOT {
        if slots[p.slot].dirty { x := x.(dirty := true); }
        slots := slots[p.slot := EmptySlot(slots[p.slot])];
        swapIns := swapIns + 1;
      }
      var p' := p.(frame := f, present := true, inSwap := false, slot := NO_SLOT, referenced := true, lastAccess := tick);
      frames[f] := x;
      tables := tables[pid := tables[pid][page := p']];
      LoadInv(m, pid, page, f, x, p');
      assert M() == Loaded(m, pid, page, f, x, p');
    }

    /** Brings in a page that is not resident, into a free frame or the victim's. */
    method BringIn(pid: Pid, page: nat) returns (ghost victim: Option<Page>)
      requires Valid() && HasPage(M(), pid, page) && !PteOf(M(), pid, page).present
      modifies this`tables, this`slots, this`swapIns, this`swapOuts, this`dirtySwapOuts, this`replacements, frames
      ensures Valid() && HasPage(M(), pid, page) && Where(M(), pid, page) == Resident
      ensures OthersStay(old(M()), M(), Page(pid, page), victim)
      ensures VictimMoved(old(M()), M(), Page(pid, page), victim, swapEnabled)
      ensures victim.None? <==> old(HasFreeFrame(M()))
      ensures victim.Some? ==> var f := FrameNamed(M(), Page(pid, page));
                IsVictim(replacement, old(frames[..]), kernel, f) && victim == Some(old(PageInFrame(M(), f)))
      ensures victim.None? ==> FitChoice(fit == WorstFit, old(frames[..]), kernel, FrameNamed(M(), Page(pid, page)))
      ensures replacements == old(replacements) + (if victim.Some? then 1 else 0)
      ensures PteOf(M(), pid, page).dirty == old(PteOf(M(), pid, page)).dirty
      ensures var f := FrameNamed(M(), Page(pid, page));
              Stamped(old(frames[..]), frames[..], f, Tick(), true) && frames[f].dirty == old(DirtyInSwap(M(), pid, page))
    {
      hide Inv, OthersStay, VictimMoved, IsVictim, FitChoice, HasFreeFrame;
      ghost var m := M();
      if tables[pid][page].inSwap { SwappedStored(m, pid, page); }
      var f;
      f, victim := TakeFrame(Page(pid, page));
      ghost var m1 := M();
      LoadPage(pid, page, f);
      MovedOn(m, m1, M(), Page(pid, page), victim, swapEnabled);
    }

    /** Marks a resident page and its frame as used, and as written. */
    method Touch(pid: Pid, page: nat, write: bool)
      requires Valid() && HasPage(M(), pid, page) && PteOf(M(), pid, page).present
      modifies this`tables, frames
      ensures Valid() && HasPage(M(), pid, page) && Where(M(), pid, page) == Resident
      ensures PteOf(M(), pid, page).frame == old(PteOf(M(), pid, page)).frame && OthersStay(old(M()), M(), Page(pid, page), None)
      ensures PteOf(M(), pid, page).dirty == (old(PteOf(M(), pid, page)).dirty || write)
      ensures var f := old(PteOf(M(), pid, page)).frame;
              && 0 <= f < frames.Length && frames[f].lastAccess == Tick() && frames[f].loadedAt == old(frames[..])[f].loadedAt
              && frames[f].dirty == (old(frames[..])[f].dirty || write)
              && forall g :: 0 <= g < frames.Length && g != f ==> frames[g] == old(frames[..])[g]
    {
      ghost var m := M();
      assert PteOk(m, pid, page);
      var p, tick := tables[pid][page], faults + hits;
      var f := p.frame;
      var p' := p.(referenced := true, lastAccess := tick, dirty := p.dirty || write);
      var x := frames[f].(lastAccess := tick, referenced := true, dirty := frames[f].dirty || write);
      tables := tables[pid := tables[pid][page := p']];
      frames[f] := x;
      TouchInv(m, pid, page, f, x, p');
      assert M() == SetPte(m, pid, page, p').(frames := m.frames[f := x]);
    }

    /** Translates an address. The page is resident afterwards; at most one other page moved, that of
        the frame the replacement algorithm selects, and only when no frame was free. The frame of
        the page is stamped with the new tick, as loaded if it was not resident; no other frame
        changes. */
    method AccessMemory(pid: Pid, vaddr: nat, write: bool) returns (r: Option<nat>, ghost victim: Option<Page>)
      requires Valid()
      modifies this, frames
      ensures Valid()
      ensures r.None? <==> !old(HasPage(M(), pid, vaddr / pageSize))
      ensures r.None? ==> M() == old(M())
      ensures r.Some? ==> Where(M(), pid, vaddr / pageSize) == Resident
      ensures r.Some? ==> r.value == PteOf(M(), pid, vaddr / pageSize).frame * pageSize + vaddr % pageSize
      ensures OthersStay(old(M()), M(), Page(pid, vaddr / pageSize), victim)
      ensures VictimMoved(old(M()), M(), Page(pid, vaddr / pageSize), victim, swapEnabled)
      ensures victim.Some? <==> r.Some? && old(Where(M(), pid, vaddr / pageSize)) != Resident && !old(HasFreeFrame(M()))
      ensures victim.Some? ==> var f := FrameNamed(M(), Page(pid, vaddr / pageSize));
                IsVictim(replacement, old(frames[..]), kernel, f) && victim == Some(old(PageInFrame(M(), f)))
      ensures r.Some? && victim.None? && old(Where(M(), pid, vaddr / pageSize)) != Resident ==>
                FitChoice(fit == WorstFit, old(frames[..]), kernel, FrameNamed(M(), Page(pid, vaddr / pageSize)))
      ensures replacements == old(replacements) + (if victim.Some? then 1 else 0)
      ensures r.Some? ==> PteOf(M(), pid, vaddr / pageSize).dirty == (old(PteOf(M(), pid, vaddr / pageSize)).dirty || write)
      ensures r.Some? ==> Stamped(old(frames[..]), frames[..], FrameNamed(M(), Page(pid, vaddr / pageSize)), Tick(), old(Where(M(), pid, vaddr / pageSize)) != Resident)
      ensures r.Some? ==> var f := FrameNamed(M(), Page(pid, vaddr / pageSize));
                f < frames.Length && frames[f].dirty == (write || (if old(Where(M(), pid, vaddr / pageSize)) == Resident
                                                                   then old(frames[..])[f].dirty else old(DirtyInSwap(M(), pid, vaddr / pageSize))))
      ensures var resident := old(Where(M(), pid, vaddr / pageSize)) == Resident;
              && hits == old(hits) + (if r.Some? && resident then 1 else 0)
              && faults == old(faults) + (if r.Some? && !resident then 1 else 0)
    {
      hide Inv, OthersStay, VictimMoved, IsVictim, FitChoice, HasFreeFrame;
      var page := vaddr / pageSize;
      victim := None;
      NobodyMoved(M(), M(), Page(pid, page), swapEnabled);
      var i := FindPte(pid, page);
      if i.None? { return None, None; }
      ghost var m := M();
      if tables[pid][page].present {
        hits := hits + 1;
        Touch(pid, page, write);
        NobodyMoved(m, M(), Page(pid, page), swapEnabled);
      } else {
        faults := faults + 1;
        victim := BringIn(pid, page);
        ghost var m1 := M();
        Touch(pid, page, write);
        MovedOn(m, m1, M(), Page(pid, page), victim, swapEnabled);
      }
      r := Some(tables[pid][page].frame * pageSize + vaddr % pageSize);
    }

    /** Moves a resident page to swap: possible exactly when swap is on and a slot is free. */
    method SwapOutPage(pid: Pid, page: nat) returns (ok: bool)
      requires Valid()
      modifies this`tables, this`slots, this`swapOuts, this`dirtySwapOuts, frames
      ensures Valid()
      ensures ok <==> swapEnabled && old(Where(M(), pid, page)) == Resident && old(HasFreeSlot(M()))
      ensures !ok ==> M() == old(M())
      ensures ok ==> Where(M(), pid, page) == Swapped && OthersStay(old(M()), M(), Page(pid, page), None)
      ensures ok ==> var f := old(FrameNamed(M(), Page(pid, page)));
                FrameFreed(old(M()), M(), f) && SlotFilled(old(M()), M(), f, Page(pid, page))
    {
      hide Inv, OthersStay, FrameFreed, SlotFilled;
      if !swapEnabled { return false; }
      var i := FindPte(pid, page);
      if i.None? || !tables[pid][page].present { return false; }
      var slot := FindFreeSlot();
      if slot.None? { return false; }
      ghost var m := M();
      ResidentHeld(m, pid, page);
      var f := tables[pid][page].frame;
      WriteToSwap(pid, page, f, slot.value);
      EvictMoves(m, f, slot.value, slots[slot.value]);
      EvictFills(m, f, slot.value, slots[slot.value]);
      FirstEntryIs(m, f);
      MarkEvicted(pid, page, f, true, slot);
      ReleaseFrame(f);
      assert M() == Evicted(m, f, slot.value, slots[slot.value]);
      return true;
    }

    /** Brings a swapped page back with the dirty flag it left with; undoes SwapOutPage. The frame is
        a free one or that of the page the replacement algorithm selects. */
    method SwapInPage(pid: Pid, page: nat) returns (ok: bool, ghost victim: Option<Page>)
      requires Valid()
      modifies this, frames
      ensures Valid() && hits == old(hits) && faults == old(faults)
      ensures ok <==> old(Where(M(), pid, page)) == Swapped
      ensures !ok ==> M() == old(M())
      ensures ok ==> Where(M(), pid, page) == Resident
      ensures OthersStay(old(M()), M(), Page(pid, page), victim)
      ensures VictimMoved(old(M()), M(), Page(pid, page), victim, swapEnabled)
      ensures victim.Some? <==> ok && !old(HasFreeFrame(M()))
      ensures victim.Some? ==> var f := FrameNamed(M(), Page(pid, page));
                IsVictim(replacement, old(frames[..]), kernel, f) && victim == Some(old(PageInFrame(M(), f)))
      ensures ok && victim.None? ==> FitChoice(fit == WorstFit, old(frames[..]), kernel, FrameNamed(M(), Page(pid, page)))
      ensures replacements == old(replacements) + (if victim.Some? then 1 else 0)
      ensures ok ==> var f := FrameNamed(M(), Page(pid, page));
                Stamped(old(frames[..]), frames[..], f, Tick(), true) && frames[f].dirty == old(DirtyInSwap(M(), pid, page))
    {
      hide Inv, OthersStay, VictimMoved, IsVictim, FitChoice, HasFreeFrame;
      victim := None;
      NobodyMoved(M(), M(), Page(pid, page), swapEnabled);
      var i := FindPte(pid, page);
      if i.None? || !tables[pid][page].inSwap || tables[pid][page].present { return false, None; }
      ghost var m := M();
      SwappedStored(m, pid, page);
      victim := BringIn(pid, page);
      ok := true;
    }

    // ---- Allocation -----------------------------------------------------------------------------

    /** Gives a process pages 0, 1, ... in free frames while they last and then in frames it
        evicts. The new frames carry tick zero, so a victim may be one this very call has taken;
        the pages, frames and slots stay in bijection exactly under AllocationKeeps. */
    method Allocate(pid: Pid, size: nat) returns (base: nat, fs: seq<nat>)
      requires Valid()
      modifies this`tables, this`slots, this`swapOuts, this`dirtySwapOuts, frames
      ensures base == pid * 0x10000 && |fs| == PagesNeeded(size, pageSize)
      ensures Valid() <==> AllocationKeeps(old(M()), replacement, pid, |fs|)
      ensures old(TableOf(M(), pid)) == [] ==> (Valid() <==> !Repeats(fs))
      ensures |fs| <= |old(FreeFrames(frames[..], kernel))| ==> Granted(old(M()), M(), pid, fs)
      ensures Valid() && |fs| > |old(FreeFrames(frames[..], kernel))| ==>
                var v := fs[|fs| - 1];
                && kernel <= v < |old(M()).frames| && Granted(FrameEvicted(old(M()), v, swapEnabled, Tick()), M(), pid, fs)
                && OldestUsed(replacement, old(frames[..]), kernel, v)
      ensures FitOrder(old(M()), fit == WorstFit, fs)
      ensures pid in tables && |tables[pid]| == |old(TableOf(M(), pid))| + |fs|
      ensures forall i :: 0 <= i < |fs| ==> tables[pid][|old(TableOf(M(), pid))| + i] == NewPte(i, fs[i])
    {
      hide Inv, Allocating, AllocationKeeps, Granted, FrameEvicted, Repeats, HasFreeFrame, FitChoice, FitOrder, OldestUsed;
      ghost var m := M();
      var n := (size + pageSize - 1) / pageSize;
      fs := [];
      AllocationStarts(m, replacement, pid, swapEnabled, Tick());
      while |fs| < n
        invariant |fs| <= n
        invariant Allocating(m, M(), replacement, pid, fs, swapEnabled, Tick()) && FitOrder(m, fit == WorstFit, fs)
      {
        ghost var m1 := M();
        var f := GrantFrame(m, pid, fs);
        FitStep(m, m1, M(), replacement, pid, fs, swapEnabled, Tick(), f, fit == WorstFit);
        fs := fs + [f];
      }
      ghost var m1 := M();
      AllocatingShape(m, m1, replacement, pid, fs, swapEnabled, Tick());
      AllocationIff(m, m1, replacement, pid, fs, swapEnabled, Tick());
      if TableOf(m, pid) == [] { KeepsIffNoRepeat(m, m1, replacement, pid, fs, swapEnabled, Tick()); }
      AllocationGrants(m, m1, replacement, pid, fs, swapEnabled, Tick());
      tables := tables[pid := (if pid in tables then tables[pid] else []) + NewPtes(fs)];
      assert M() == WithTable(m1, pid, fs);
      base := pid * 0x10000;
    }

    /** One round of the allocation loop. */
    method GrantFrame(ghost m: Memory, pid: Pid, fs: seq<nat>) returns (f: nat)
      requires kernel < frames.Length && Allocating(m, M(), replacement, pid, fs, swapEnabled, Tick())
      modifies this`tables, this`slots, this`swapOuts, this`dirtySwapOuts, frames
      ensures Allocating(m, M(), replacement, pid, fs + [f], swapEnabled, Tick())
      ensures old(HasFreeFrame(M())) ==> FitChoice(fit == WorstFit, old(frames[..]), kernel, f)
    {
      hide Inv, Allocating, FrameEvicted, IsVictim;
      ghost var m0 := M();
      var r := FindFreeFrame();
      if r.Some? {
        f := r.value;
        StepFree(m, m0, replacement, pid, fs, swapEnabled, Tick(), f);
      } else {
        AllocatingShape(m, m0, replacement, pid, fs, swapEnabled, Tick());
        f := SelectVictim();
        StepVictim(m, m0, replacement, pid, fs, swapEnabled, Tick(), f);
        EvictFrame(f);
      }
      frames[f] := TakenFrame(frames[f], pid, |fs|);
      assert r.Some? ==> M() == Take(m0, pid, f, |fs|);
      assert r.None? ==> M() == Take(FrameEvicted(m0, f, swapEnabled, Tick()), pid, f, |fs|);
    }

    /** Frees everything a process has; no other process's pages move. */
    method Deallocate(pid: Pid)
      requires Valid()
      modifies this`tables, this`slots, frames
      ensures Valid() && pid !in tables && Withdrawn(old(M()), M(), pid)
      ensures forall b: Page :: b.pid != pid ==> Entry(M(), b) == old(Entry(M(), b))
    {
      ghost var m := M();
      var f := 0;
      while f < frames.Length
        invariant 0 <= f <= frames.Length && tables == old(tables) && slots == old(slots)
        invariant forall h :: f <= h < frames.Length ==> frames[h] == m.frames[h]
        invariant forall h :: 0 <= h < f ==>
          if m.frames[h].owner == pid && !m.frames[h].isKernel then frames[h].isFree && !frames[h].isKernel else frames[h] == m.frames[h]
      {
        if frames[f].owner == pid && !frames[f].isKernel {
          frames[f] := frames[f].(isFree := true, owner := INVALID_PID, page := 0, dirty := false, referenced := false);
        }
        f := f + 1;
      }
      var k := 0;
      ghost var freed := frames[..];
      while k < |slots|
        invariant 0 <= k <= |slots| == |m.slots| && tables == old(tables) && frames[..] == freed
        invariant forall h :: k <= h < |slots| ==> slots[h] == m.slots[h]
        invariant forall h :: 0 <= h < k ==> if m.slots[h].owner == pid then slots[h].isFree else slots[h] == m.slots[h]
      {
        if slots[k].owner == pid { slots := slots[k := EmptySlot(slots[k])]; }
        k := k + 1;
      }
      assert frames.Length == |m.frames|;
      tables := tables - {pid};
      ghost var m' := M();
      assert m'.frames == freed;
      assert Withdrawn(m, m', pid);
      WithdrawInv(m, m', pid);
    }
  }

  function KernelFrames(total: nat): nat { if total / 10 > 4 then total / 10 else 4 }

  function PagesNeeded(size: nat, pageSize: nat): nat
    requires pageSize >= 1
  {
    (size + pageSize - 1) / pageSize
  }

  /** A request for more pages than there are frames outside the kernel, on a fresh machine: two
      pages of the process end up in one frame. */
  method AskTooMuch(total: nat, size: nat, swapSlots: nat, pid: Pid, bytes: nat) returns (mm: Manager, fs: seq<nat>)
    requires size >= 1 && total > 4 && swapSlots <= NO_SLOT && PagesNeeded(bytes, size) > total - KernelFrames(total)
    ensures !Inv(mm.M()) && Repeats(fs) && TableOf(mm.M(), pid) == NewPtes(fs)
  {
    mm := new Manager(total, size, swapSlots);
    TooManyPages(mm.M(), mm.replacement, pid, PagesNeeded(bytes, size));
    var base;
    base, fs := mm.Allocate(pid, bytes);
  }
}
