/** Allocation with eviction, as allocate, selectVictimFrame and evictFrame of
    kernel/src/memory_manager.cpp do it, and exactly when it leaves the bijection of pages,
    frames and slots in place. */
module Allocation {
  import opened Collections
  import opened Paging

  datatype ReplacementAlgorithm = Fifo | Lru | Opt

  /** What the victim search compares: the load (Fifo) or the access (Lru; Opt does the same). */
  function Age(r: ReplacementAlgorithm, x: Frame): nat { if r == Fifo then x.loadedAt else x.lastAccess }

  ghost function FreeFrames(frames: seq<Frame>, kernel: nat): set<nat> {
    set f: nat | kernel <= f < |frames| && frames[f].isFree
  }

  ghost predicate HasFreeSlot(m: Memory) { exists k :: 0 <= k < |m.slots| && m.slots[k].isFree }

  ghost predicate HasFreeFrame(m: Memory) { exists f :: m.kernel <= f < |m.frames| && m.frames[f].isFree }

  // ---- Eviction, for every state ------------------------------------------------------------------

  function FirstFreeSlot(slots: seq<Slot>): (k: Option<nat>)
    ensures k.Some? ==> k.value < |slots| && slots[k.value].isFree && forall i :: 0 <= i < k.value ==> !slots[i].isFree
    ensures k.None? ==> forall i :: 0 <= i < |slots| ==> !slots[i].isFree
  {
    if slots == [] then None
    else if slots[0].isFree then Some(0)
    else match FirstFreeSlot(slots[1..]) case None => None case Some(k) => Some(k + 1)
  }

  /** The first entry of a page in a frame. */
  function FirstEntry(pt: seq<Pte>, page: nat, f: nat): (i: Option<nat>)
    ensures i.Some? ==> i.value < |pt| && pt[i.value].page == page && pt[i.value].frame == f
    ensures i.Some? ==> forall j :: 0 <= j < i.value ==> !(pt[j].page == page && pt[j].frame == f)
    ensures i.None? ==> forall j :: 0 <= j < |pt| ==> !(pt[j].page == page && pt[j].frame == f)
  {
    if pt == [] then None
    else if pt[0].page == page && pt[0].frame == f then Some(0)
    else match FirstEntry(pt[1..], page, f) case None => None case Some(i) => Some(i + 1)
  }

  predicate MaySwap(swap: bool, pid: Pid) { swap && pid != INVALID_PID && pid != KERNEL_PID }

  /** The entry of an evicted page: swapped, or lost when no slot is free, or only absent. */
  function Marked(p: Pte, maySwap: bool, k: Option<nat>): Pte {
    if !maySwap then p.(present := false)
    else if k.None? then p.(present := false, inSwap := false)
    else p.(present := false, inSwap := true, slot := k.value)
  }

  /** evictFrame in any state: the entry is looked for, and may not be there. */
  function FrameEvicted(m: Memory, f: nat, swap: bool, tick: nat): Memory
    requires f < |m.frames|
  {
    var x := m.frames[f];
    var k := FirstFreeSlot(m.slots);
    var i := FirstEntry(TableOf(m, x.owner), x.page, f);
    m.(slots := if MaySwap(swap, x.owner) && k.Some? then m.slots[k.value := Slot(false, x.owner, x.page, x.dirty, tick)] else m.slots,
       tables := if i.Some? then m.tables[x.owner := m.tables[x.owner][i.value := Marked(m.tables[x.owner][i.value], MaySwap(swap, x.owner), k)]] else m.tables,
       frames := m.frames[f := Released(x)])
  }

  ghost function Entry(m: Memory, a: Page): Option<Pte> {
    if HasPage(m, a.pid, a.number) then Some(PteOf(m, a.pid, a.number)) else None
  }

  /** Every page but a and the victim has the entry it had, so it is where it was. */
  ghost predicate OthersStay(m: Memory, m': Memory, a: Page, victim: Option<Page>) {
    forall b: Page :: b != a && Some(b) != victim ==> Entry(m', b) == Entry(m, b)
  }

  /** The slot an eviction uses. */
  function SlotFor(m: Memory, f: nat, swap: bool): nat
    requires f < |m.frames|
  {
    var k := FirstFreeSlot(m.slots);
    if MaySwap(swap, m.frames[f].owner) && k.Some? then k.value else NO_SLOT
  }

  /** The victim was resident and is resident no more; it is in swap if there was room. */
  ghost predicate VictimMoved(m: Memory, m': Memory, a: Page, victim: Option<Page>, swap: bool) {
    victim.Some? ==>
      var v := victim.value;
      && v != a && Where(m, v.pid, v.number) == Resident
      && Where(m', v.pid, v.number) == if MaySwap(swap, v.pid) && HasFreeSlot(m) then Swapped else Absent
  }

  /** Frame f is free and every other frame is as it was. */
  ghost predicate FrameFreed(m: Memory, m': Memory, f: nat) {
    && |m'.frames| == |m.frames| && f < |m.frames| && m'.frames[f].isFree
    && forall g :: 0 <= g < |m.frames| && g != f ==> m'.frames[g] == m.frames[g]
  }

  /** The page v of frame f went to the first free slot, with the dirty flag of its frame, or nowhere;
      every other slot is as it was. */
  ghost predicate SlotFilled(m: Memory, m': Memory, f: nat, v: Page) {
    && |m'.slots| == |m.slots| && f < |m.frames|
    && (Where(m', v.pid, v.number) != Swapped ==> m'.slots == m.slots)
    && (Where(m', v.pid, v.number) == Swapped ==>
          var k := SlotNamed(m', v);
          && k < |m.slots| && m.slots[k].isFree && (forall j :: 0 <= j < k ==> !m.slots[j].isFree)
          && (forall j :: 0 <= j < |m.slots| && j != k ==> m'.slots[j] == m.slots[j])
          && !m'.slots[k].isFree && m'.slots[k].dirty == m.frames[f].dirty)
  }

  lemma EvictMoves(m: Memory, f: nat, k: nat, x: Slot)
    requires Evictable(m, f, k, x) && HasPage(m, m.frames[f].owner, m.frames[f].page)
    ensures var m' := Evicted(m, f, k, x); var v := PageInFrame(m, f);
            && Inv(m') && v in Present(m) && OthersStay(m, m', v, None)
            && Where(m', v.pid, v.number) == if k == NO_SLOT then Absent else Swapped
  {
    EvictedPte(m, f, k, x);
    EvictInv(m, f, k, x);
  }

  lemma EvictFills(m: Memory, f: nat, k: nat, x: Slot)
    requires Evictable(m, f, k, x) && HasPage(m, m.frames[f].owner, m.frames[f].page)
    requires k < |m.slots| <= NO_SLOT && x.dirty == m.frames[f].dirty && forall j :: 0 <= j < k ==> !m.slots[j].isFree
    ensures var m' := Evicted(m, f, k, x); FrameFreed(m, m', f) && SlotFilled(m, m', f, PageInFrame(m, f))
  {
  }

  lemma FirstEntryIs(m: Memory, f: nat)
    requires Inv(m) && m.kernel <= f < |m.frames| && !m.frames[f].isFree
    ensures HasPage(m, m.frames[f].owner, m.frames[f].page) && PteOf(m, m.frames[f].owner, m.frames[f].page).present
    ensures FirstEntry(TableOf(m, m.frames[f].owner), m.frames[f].page, f) == Some(m.frames[f].page)
  {
    assert FrameOk(m, f);
    var pid, page := m.frames[f].owner, m.frames[f].page;
    var i := FirstEntry(m.tables[pid], page, f);
    assert PteOk(m, pid, page);
    if i.Some? { assert HasPage(m, pid, i.value) && PteOk(m, pid, i.value); }
  }

  /** In a good state eviction is the step Evicted, so the state stays good; the victim goes to
      swap exactly when swap is on, its owner may swap and a slot is free. */
  lemma FrameEvictedInv(m: Memory, f: nat, swap: bool, tick: nat)
    requires Inv(m) && m.kernel <= f < |m.frames| && !m.frames[f].isFree
    ensures var m' := FrameEvicted(m, f, swap, tick); var v := PageInFrame(m, f);
            && Inv(m') && m'.frames[f].isFree && |m'.slots| == |m.slots|
            && v in Present(m) && OthersStay(m, m', v, None)
            && Where(m', v.pid, v.number) == (if MaySwap(swap, v.pid) && HasFreeSlot(m) then Swapped else Absent)
            && FrameFreed(m, m', f) && SlotFilled(m, m', f, v)
  {
    FirstEntryIs(m, f);
    var k, x := SlotFor(m, f, swap), Slot(false, m.frames[f].owner, m.frames[f].page, m.frames[f].dirty, tick);
    EvictedPte(m, f, k, x);
    assert PteOk(m, m.frames[f].owner, m.frames[f].page);
    assert FrameEvicted(m, f, swap, tick) == Evicted(m, f, k, x);
    EvictMoves(m, f, k, x);
  }

  // ---- The victims of one allocation ----------------------------------------------------------------

  /** v is the first of the oldest frames. */
  ghost predicate IsVictim(r: ReplacementAlgorithm, frames: seq<Frame>, kernel: nat, v: nat) {
    && kernel <= v < |frames|
    && (forall f :: kernel <= f < |frames| ==> Age(r, frames[v]) <= Age(r, frames[f]))
    && (forall f :: kernel <= f < v ==> Age(r, frames[v]) < Age(r, frames[f]))
  }

  /** v is the first of the oldest used frames. */
  ghost predicate OldestUsed(r: ReplacementAlgorithm, frames: seq<Frame>, kernel: nat, v: nat) {
    && kernel <= v < |frames| && !frames[v].isFree
    && (forall f :: kernel <= f < |frames| && !frames[f].isFree ==> Age(r, frames[v]) <= Age(r, frames[f]))
    && (forall f :: kernel <= f < v && !frames[f].isFree ==> Age(r, frames[v]) < Age(r, frames[f]))
  }

  /** The frame a fit algorithm takes: no frame before f is free, or for the worst fit none after. */
  ghost predicate FitChoice(worst: bool, frames: seq<Frame>, kernel: nat, f: nat) {
    && kernel <= f < |frames| && frames[f].isFree
    && (!worst ==> forall g :: kernel <= g < f ==> !frames[g].isFree)
    && (worst ==> forall g :: f < g < |frames| ==> !frames[g].isFree)
  }

  /** Some page has age zero in a frame below every free one. */
  ghost predicate OlderBelow(m: Memory, r: ReplacementAlgorithm) {
    exists f :: m.kernel <= f < |m.frames| && !m.frames[f].isFree && Age(r, m.frames[f]) == 0
                && forall h :: h in FreeFrames(m.frames, m.kernel) ==> f < h
  }

  /** When an allocation of n pages keeps the invariant, read off the state at entry: nothing is
      asked for, or the process has no page yet and the free frames suffice, or they are one too
      few and the one victim is not among the frames just taken. */
  ghost predicate AllocationKeeps(m: Memory, r: ReplacementAlgorithm, pid: Pid, n: nat) {
    var free := FreeFrames(m.frames, m.kernel);
    n == 0 || (TableOf(m, pid) == [] && (n <= |free| || (n == |free| + 1 && (free == {} || OlderBelow(m, r)))))
  }

  lemma TakeOne(m: Memory, frames: seq<Frame>, pid: Pid, fs: seq<nat>, f: nat)
    requires TakenSoFar(m, frames, pid, fs) && m.kernel <= f < |frames| && frames[f].isFree
    ensures var frames' := frames[f := TakenFrame(frames[f], pid, |fs|)];
            && TakenSoFar(m, frames', pid, fs + [f])
            && FreeFrames(frames', m.kernel) == FreeFrames(frames, m.kernel) - {f}
  {
    assert f !in fs;
  }

  lemma FreeCount(m: Memory, frames: seq<Frame>, pid: Pid, fs: seq<nat>)
    requires TakenSoFar(m, frames, pid, fs) && FreeFrames(frames, m.kernel) == {}
    ensures forall f :: f in FreeFrames(m.frames, m.kernel) <==> f in fs
  {
    forall f | f in FreeFrames(m.frames, m.kernel) ensures f in fs { assert f !in FreeFrames(frames, m.kernel); }
  }

  /** The first victim is none of the frames taken exactly when there are none, or an older page
      lies below them all. */
  lemma VictimIsNew(m: Memory, r: ReplacementAlgorithm, frames: seq<Frame>, pid: Pid, fs: seq<nat>, v: nat)
    requires TakenSoFar(m, frames, pid, fs) && FreeFrames(frames, m.kernel) == {} && IsVictim(r, frames, m.kernel, v)
    ensures v !in fs <==> FreeFrames(m.frames, m.kernel) == {} || OlderBelow(m, r)
  {
    var free := FreeFrames(m.frames, m.kernel);
    FreeCount(m, frames, pid, fs);
    if v !in fs {
      assert !m.frames[v].isFree by { assert v !in free; }
      forall h | h in free ensures v < h && Age(r, m.frames[v]) == 0 { assert Age(r, frames[h]) == 0; }
      assert free != {} ==> OlderBelow(m, r);
    } else if f :| m.kernel <= f < |m.frames| && !m.frames[f].isFree && Age(r, m.frames[f]) == 0
                   && forall h :: h in free ==> f < h {
      OlderComesFirst(m, r, frames, pid, fs, v, f);
    }
  }

  lemma OlderComesFirst(m: Memory, r: ReplacementAlgorithm, frames: seq<Frame>, pid: Pid, fs: seq<nat>, v: nat, f: nat)
    requires TakenSoFar(m, frames, pid, fs) && IsVictim(r, frames, m.kernel, v)
    requires m.kernel <= f < |m.frames| && !m.frames[f].isFree && Age(r, m.frames[f]) == 0
    requires forall h :: h in FreeFrames(m.frames, m.kernel) ==> f < h
    ensures v !in fs
  {
    assert f !in fs;
    assert Age(r, frames[v]) <= Age(r, frames[f]) == 0;
    assert v in fs ==> v in FreeFrames(m.frames, m.kernel);
  }

  /** A frame taken again is the next victim once more. */
  lemma VictimAgain(r: ReplacementAlgorithm, frames: seq<Frame>, kernel: nat, v: nat, x: Frame)
    requires IsVictim(r, frames, kernel, v) && x.loadedAt == 0 && x.lastAccess == 0
    ensures IsVictim(r, frames[v := x], kernel, v)
  {
  }

  lemma OneVictim(r: ReplacementAlgorithm, frames: seq<Frame>, kernel: nat, v: nat, w: nat)
    requires IsVictim(r, frames, kernel, v) && IsVictim(r, frames, kernel, w)
    ensures v == w
  {
    assert Age(r, frames[v]) <= Age(r, frames[w]) <= Age(r, frames[v]);
  }

  // ---- The loop of allocate ---------------------------------------------------------------------------

  ghost predicate Repeats(fs: seq<nat>) { exists i, j :: 0 <= i < j < |fs| && fs[i] == fs[j] }

  /** The frames fs are taken so far: free ones while they last, then a victim. If that one is new
      the state is that of the eviction first and the taking after; otherwise, and with every
      further victim, a frame repeats. */
  ghost predicate Allocating(m0: Memory, m: Memory, r: ReplacementAlgorithm, pid: Pid, fs: seq<nat>, swap: bool, tick: nat) {
    && m.kernel == m0.kernel && |m.frames| == |m0.frames| && |TableOf(m, pid)| == |TableOf(m0, pid)|
    && (forall f :: m.kernel <= f < |m.frames| ==> !m.frames[f].isKernel)
    && (forall i :: 0 <= i < |fs| ==> m.kernel <= fs[i] < |m.frames|)
    && var free := FreeFrames(m0.frames, m0.kernel);
       if |fs| <= |free| then
         && m.tables == m0.tables && m.slots == m0.slots && TakenSoFar(m0, m.frames, pid, fs)
         && |FreeFrames(m.frames, m.kernel)| == |free| - |fs|
       else
         && FreeFrames(m.frames, m.kernel) == {} && IsVictim(r, m.frames, m.kernel, fs[|free|])
         && if |fs| == |free| + 1 && (free == {} || OlderBelow(m0, r)) then
              EvictedFirst(m0, m, pid, fs, fs[|free|], swap, tick) && OldestUsed(r, m0.frames, m0.kernel, fs[|free|])
            else Repeats(fs)
  }

  ghost predicate EvictedFirst(m0: Memory, m: Memory, pid: Pid, fs: seq<nat>, v: nat, swap: bool, tick: nat) {
    && m0.kernel <= v < |m0.frames| && !m0.frames[v].isFree
    && var m1 := FrameEvicted(m0, v, swap, tick);
       m.tables == m1.tables && m.slots == m1.slots && TakenSoFar(m1, m.frames, pid, fs)
  }

  function Take(m: Memory, pid: Pid, f: nat, page: nat): Memory
    requires f < |m.frames|
  {
    m.(frames := m.frames[f := TakenFrame(m.frames[f], pid, page)])
  }

  lemma StepFree(m0: Memory, m: Memory, r: ReplacementAlgorithm, pid: Pid, fs: seq<nat>, swap: bool, tick: nat, f: nat)
    requires Allocating(m0, m, r, pid, fs, swap, tick) && f in FreeFrames(m.frames, m.kernel)
    ensures Allocating(m0, Take(m, pid, f, |fs|), r, pid, fs + [f], swap, tick)
  {
    TakeOne(m0, m.frames, pid, fs, f);
  }

  /** The victim when all free frames are taken. */
  lemma StepFirstVictim(m0: Memory, m: Memory, r: ReplacementAlgorithm, pid: Pid, fs: seq<nat>, swap: bool, tick: nat, v: nat)
    requires Allocating(m0, m, r, pid, fs, swap, tick) && |fs| == |FreeFrames(m0.frames, m0.kernel)|
    requires FreeFrames(m.frames, m.kernel) == {} && IsVictim(r, m.frames, m.kernel, v)
    ensures Allocating(m0, Take(FrameEvicted(m, v, swap, tick), pid, v, |fs|), r, pid, fs + [v], swap, tick)
  {
    var m' := Take(FrameEvicted(m, v, swap, tick), pid, v, |fs|);
    VictimIsNew(m0, r, m.frames, pid, fs, v);
    VictimTaken(m, r, pid, v, |fs|, swap, tick);
    assert (fs + [v])[|fs|] == v;
    if v in fs {
      var i :| 0 <= i < |fs| && fs[i] == v;
      assert (fs + [v])[i] == (fs + [v])[|fs|];
    } else {
      assert v !in FreeFrames(m0.frames, m0.kernel) by { FreeCount(m0, m.frames, pid, fs); }
      EvictThenTake(m0, m, pid, fs, swap, tick, v);
      OldestAtEntry(m0, r, m.frames, pid, fs, v);
    }
  }

  /** A victim that was not just taken is the oldest of the frames used at entry. */
  lemma OldestAtEntry(m: Memory, r: ReplacementAlgorithm, frames: seq<Frame>, pid: Pid, fs: seq<nat>, v: nat)
    requires TakenSoFar(m, frames, pid, fs) && IsVictim(r, frames, m.kernel, v) && v !in fs
    requires v !in FreeFrames(m.frames, m.kernel)
    ensures OldestUsed(r, m.frames, m.kernel, v)
  {
    forall f | m.kernel <= f < |m.frames| && !m.frames[f].isFree ensures frames[f] == m.frames[f] { }
  }

  /** The free frames are taken in the order of the fit algorithm. */
  ghost predicate FitOrder(m: Memory, worst: bool, fs: seq<nat>) {
    var free := FreeFrames(m.frames, m.kernel);
    && (forall i, g :: 0 <= i < |fs| && g in free && (if worst then fs[i] < g else g < fs[i]) ==> g in fs[..i])
    && (|fs| >= |free| ==> forall g :: g in free ==> g in fs)
  }

  lemma FitStep(m0: Memory, m: Memory, m': Memory, r: ReplacementAlgorithm, pid: Pid, fs: seq<nat>, swap: bool, tick: nat, f: nat, worst: bool)
    requires Allocating(m0, m, r, pid, fs, swap, tick) && Allocating(m0, m', r, pid, fs + [f], swap, tick)
    requires FitOrder(m0, worst, fs) && (HasFreeFrame(m) ==> FitChoice(worst, m.frames, m.kernel, f))
    ensures FitOrder(m0, worst, fs + [f])
  {
    hide IsVictim, EvictedFirst, OldestUsed, OlderBelow, Repeats;
    var free, gs := FreeFrames(m0.frames, m0.kernel), fs + [f];
    if |fs| < |free| && |gs| >= |free| { FreeCount(m0, m'.frames, pid, gs); }
    forall g | g in free && (if worst then f < g else g < f) ensures g in fs {
      assert g !in fs && |fs| <= |free| ==> HasFreeFrame(m);
    }
    forall i, g | 0 <= i < |gs| && g in free && (if worst then gs[i] < g else g < gs[i]) ensures g in gs[..i] {
      assert gs[..i] == fs[..i];
    }
  }

  /** Evicting a frame that is not taken commutes with the taking. */
  lemma EvictThenTake(m0: Memory, m: Memory, pid: Pid, fs: seq<nat>, swap: bool, tick: nat, v: nat)
    requires m.tables == m0.tables && m.slots == m0.slots && TakenSoFar(m0, m.frames, pid, fs)
    requires v !in fs && m0.kernel <= v < |m0.frames| && !m0.frames[v].isFree
    ensures EvictedFirst(m0, Take(FrameEvicted(m, v, swap, tick), pid, v, |fs|), pid, fs + [v], v, swap, tick)
  {
    var m1, n := FrameEvicted(m0, v, swap, tick), FrameEvicted(m, v, swap, tick);
    assert m.frames[v] == m0.frames[v];
    assert TakenSoFar(m1, n.frames, pid, fs);
    TakeOne(m1, n.frames, pid, fs, v);
  }

  lemma VictimTaken(m: Memory, r: ReplacementAlgorithm, pid: Pid, v: nat, page: nat, swap: bool, tick: nat)
    requires FreeFrames(m.frames, m.kernel) == {} && IsVictim(r, m.frames, m.kernel, v)
    ensures var m' := Take(FrameEvicted(m, v, swap, tick), pid, v, page);
            && m'.kernel == m.kernel && |m'.frames| == |m.frames| && |TableOf(m', pid)| == |TableOf(m, pid)|
            && FreeFrames(m'.frames, m'.kernel) == {} && IsVictim(r, m'.frames, m'.kernel, v)
            && m'.frames == m.frames[v := TakenFrame(Released(m.frames[v]), pid, page)]
  {
    var x := TakenFrame(Released(m.frames[v]), pid, page);
    VictimAgain(r, m.frames, m.kernel, v, x);
    var m' := Take(FrameEvicted(m, v, swap, tick), pid, v, page);
    assert m'.frames == m.frames[v := x];
    forall f | m.kernel <= f < |m.frames| ensures !m.frames[f].isFree { assert f !in FreeFrames(m.frames, m.kernel); }
  }

  /** Every later victim is the first one again. */
  lemma StepNextVictim(m0: Memory, m: Memory, r: ReplacementAlgorithm, pid: Pid, fs: seq<nat>, swap: bool, tick: nat, v: nat)
    requires Allocating(m0, m, r, pid, fs, swap, tick) && |fs| > |FreeFrames(m0.frames, m0.kernel)|
    requires IsVictim(r, m.frames, m.kernel, v)
    ensures Allocating(m0, Take(FrameEvicted(m, v, swap, tick), pid, v, |fs|), r, pid, fs + [v], swap, tick)
  {
    var k := |FreeFrames(m0.frames, m0.kernel)|;
    OneVictim(r, m.frames, m.kernel, v, fs[k]);
    VictimTaken(m, r, pid, v, |fs|, swap, tick);
    assert (fs + [v])[k] == (fs + [v])[|fs|];
  }

  lemma StepVictim(m0: Memory, m: Memory, r: ReplacementAlgorithm, pid: Pid, fs: seq<nat>, swap: bool, tick: nat, v: nat)
    requires Allocating(m0, m, r, pid, fs, swap, tick) && !HasFreeFrame(m) && IsVictim(r, m.frames, m.kernel, v)
    ensures Allocating(m0, Take(FrameEvicted(m, v, swap, tick), pid, v, |fs|), r, pid, fs + [v], swap, tick)
  {
    assert FreeFrames(m.frames, m.kernel) == {};
    if |fs| <= |FreeFrames(m0.frames, m0.kernel)| {
      StepFirstVictim(m0, m, r, pid, fs, swap, tick, v);
    } else {
      StepNextVictim(m0, m, r, pid, fs, swap, tick, v);
    }
  }

  function WithTable(m: Memory, pid: Pid, fs: seq<nat>): Memory {
    m.(tables := m.tables[pid := TableOf(m, pid) + NewPtes(fs)])
  }

  lemma EvictedGrant(m0: Memory, m: Memory, pid: Pid, fs: seq<nat>, v: nat, swap: bool, tick: nat)
    requires Inv(m0) && m.kernel == m0.kernel && TableOf(m, pid) == [] && EvictedFirst(m0, m, pid, fs, v, swap, tick)
    ensures Granted(FrameEvicted(m0, v, swap, tick), WithTable(m, pid, fs), pid, fs) && Inv(WithTable(m, pid, fs))
  {
    FrameEvictedInv(m0, v, swap, tick);
    GrantInv(FrameEvicted(m0, v, swap, tick), WithTable(m, pid, fs), pid, fs);
  }

  /** An allocation keeps the invariant if and only if AllocationKeeps held when it began. */
  lemma AllocationIff(m0: Memory, m: Memory, r: ReplacementAlgorithm, pid: Pid, fs: seq<nat>, swap: bool, tick: nat)
    requires Inv(m0) && Allocating(m0, m, r, pid, fs, swap, tick)
    ensures Inv(WithTable(m, pid, fs)) <==> AllocationKeeps(m0, r, pid, |fs|)
  {
    hide Inv, EvictedFirst, TakenSoFar, IsVictim;
    var m', free := WithTable(m, pid, fs), FreeFrames(m0.frames, m0.kernel);
    if fs == [] {
      NothingTaken(m0, m.frames, pid);
      assert TableOf(m, pid) + NewPtes(fs) == TableOf(m0, pid);
      SameTables(m0, m', pid);
    } else if TableOf(m0, pid) != [] {
      SecondTableBreaks(m', pid, TableOf(m, pid), fs);
    } else if |fs| <= |free| {
      GrantInv(m0, m', pid, fs);
    } else if |fs| == |free| + 1 && (free == {} || OlderBelow(m0, r)) {
      EvictedGrant(m0, m, pid, fs, fs[|free|], swap, tick);
    } else {
      var i, j :| 0 <= i < j < |fs| && fs[i] == fs[j];
      assert m'.tables[pid] == NewPtes(fs);
      SharedFrameBreaks(m', pid, fs, i, j);
    }
  }

  /** What the process was given when the invariant is kept. */
  lemma AllocationGrants(m0: Memory, m: Memory, r: ReplacementAlgorithm, pid: Pid, fs: seq<nat>, swap: bool, tick: nat)
    requires Inv(m0) && Allocating(m0, m, r, pid, fs, swap, tick)
    ensures |fs| <= |FreeFrames(m0.frames, m0.kernel)| ==> Granted(m0, WithTable(m, pid, fs), pid, fs)
    ensures AllocationKeeps(m0, r, pid, |fs|) && |fs| > |FreeFrames(m0.frames, m0.kernel)| ==>
              var v := fs[|fs| - 1];
              && m0.kernel <= v < |m0.frames| && Granted(FrameEvicted(m0, v, swap, tick), WithTable(m, pid, fs), pid, fs)
              && OldestUsed(r, m0.frames, m0.kernel, v)
  {
    hide Inv, EvictedFirst, TakenSoFar, IsVictim;
    if AllocationKeeps(m0, r, pid, |fs|) && |fs| > |FreeFrames(m0.frames, m0.kernel)| {
      EvictedGrant(m0, m, pid, fs, fs[|fs| - 1], swap, tick);
    }
  }

  /** A first allocation goes wrong in one way: two pages are given the same frame. */
  lemma KeepsIffNoRepeat(m0: Memory, m: Memory, r: ReplacementAlgorithm, pid: Pid, fs: seq<nat>, swap: bool, tick: nat)
    requires Allocating(m0, m, r, pid, fs, swap, tick) && TableOf(m0, pid) == []
    ensures AllocationKeeps(m0, r, pid, |fs|) <==> !Repeats(fs)
  {
    hide FrameEvicted, IsVictim, OlderBelow;
  }

  lemma AllocationStarts(m: Memory, r: ReplacementAlgorithm, pid: Pid, swap: bool, tick: nat)
    requires Inv(m)
    ensures m.kernel < |m.frames| && Allocating(m, m, r, pid, [], swap, tick)
    ensures forall worst :: FitOrder(m, worst, [])
  {
    forall f | m.kernel <= f < |m.frames| ensures !m.frames[f].isKernel { assert FrameOk(m, f); }
  }

  lemma AllocatingShape(m0: Memory, m: Memory, r: ReplacementAlgorithm, pid: Pid, fs: seq<nat>, swap: bool, tick: nat)
    requires Allocating(m0, m, r, pid, fs, swap, tick)
    ensures |TableOf(m, pid)| == |TableOf(m0, pid)|
    ensures forall f :: m.kernel <= f < |m.frames| ==> !m.frames[f].isKernel
  {
  }

  lemma NothingTaken(m: Memory, frames: seq<Frame>, pid: Pid)
    requires TakenSoFar(m, frames, pid, [])
    ensures frames == m.frames
  {
  }

  lemma SameTables(m: Memory, m': Memory, pid: Pid)
    requires Inv(m) && m'.kernel == m.kernel && m'.frames == m.frames && m'.slots == m.slots
    requires m'.tables == m.tables[pid := TableOf(m, pid)]
    ensures Inv(m')
  {
    forall q, j ensures HasPage(m', q, j) <==> HasPage(m, q, j) { }
    forall q, j | HasPage(m', q, j) ensures PteOk(m', q, j) {
      assert HasPage(m, q, j);
      assert PteOk(m, q, j);
    }
    forall h | 0 <= h < |m'.frames| ensures FrameOk(m', h) { assert FrameOk(m, h); }
    forall h | 0 <= h < |m'.slots| ensures SlotOk(m', h) { assert SlotOk(m, h); }
  }

  // ---- When it fails ------------------------------------------------------------------------------------

  /** The frames from lo up to hi. */
  ghost function Span(lo: nat, hi: nat): (s: set<nat>)
    ensures forall f: nat :: f in s <==> lo <= f < hi
    ensures lo <= hi ==> |s| == hi - lo
    decreases hi
  {
    if hi <= lo then {} else Span(lo, hi - 1) + {hi - 1}
  }

  /** More pages than there are frames outside the kernel never fit: two entries share a frame. */
  lemma TooManyPages(m: Memory, r: ReplacementAlgorithm, pid: Pid, n: nat)
    requires Inv(m) && n > |m.frames| - m.kernel
    ensures !AllocationKeeps(m, r, pid, n)
  {
    var free, all := FreeFrames(m.frames, m.kernel), Span(m.kernel, |m.frames|);
    Subset(free, all);
    assert n > |free|;
    if f :| f in all && f !in free {
      Subset(free, all - {f});
    } else {
      assert m.kernel in all && m.kernel in free;
    }
  }

  /** With no page in memory the first allocation is good exactly if the frames suffice. */
  lemma FirstAllocation(m: Memory, r: ReplacementAlgorithm, pid: Pid, n: nat)
    requires Inv(m) && TableOf(m, pid) == [] && forall f :: m.kernel <= f < |m.frames| ==> m.frames[f].isFree
    ensures AllocationKeeps(m, r, pid, n) <==> n <= |m.frames| - m.kernel
  {
    assert FreeFrames(m.frames, m.kernel) == Span(m.kernel, |m.frames|);
    if n > |m.frames| - m.kernel { TooManyPages(m, r, pid, n); }
  }
}
