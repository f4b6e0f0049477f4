/** find_free_vaddr and the region bookkeeping of sys_mmap without MAP_FIXED
    (kernel/src/syscall_gate.cpp). Addresses and sizes are 32-bit and their sums wrap. */
module AddressSearch {

  const PAGE: nat := 0x1000
  const BASE: nat := 0x2000_0000
  const LIMIT: nat := 0xB000_0000
  const WORD: nat := 0x1_0000_0000

  /** A mapped range [start, end). */
  datatype Vma = Vma(start: nat, end: nat)

  ghost predicate Good(v: Vma) { v.start < v.end <= LIMIT && v.start % PAGE == 0 && v.end % PAGE == 0 }

  ghost predicate AllGood(vmas: seq<Vma>) { forall i :: 0 <= i < |vmas| ==> Good(vmas[i]) }

  predicate Meets(c: nat, size: nat, v: Vma) { c < v.end && c + size > v.start }

  ghost predicate Free(c: nat, size: nat, vmas: seq<Vma>) { forall i :: 0 <= i < |vmas| ==> !Meets(c, size, vmas[i]) }

  /** A page address; the range fits under the limit and meets no region. */
  ghost predicate Fits(c: nat, size: nat, vmas: seq<Vma>) {
    BASE <= c && c % PAGE == 0 && c + size <= LIMIT && Free(c, size, vmas)
  }

  /** The range ends past the last 32-bit address. */
  predicate Wraps(c: nat, size: nat) { c + size >= WORD }

  /** The wrapped sum ends the search. */
  predicate TooHigh(c: nat, size: nat) { (c + size) % WORD > LIMIT }

  function AlignUp(a: nat): nat { (a + 0xFFF) / PAGE * PAGE }

  /** No page starts between an address and its round-up. */
  lemma AlignedBelow(c: nat, a: nat)
    requires c % PAGE == 0 && c < AlignUp(a)
    ensures c < a
  {
  }

  lemma AlignedUp(a: nat)
    ensures a <= AlignUp(a) < a + PAGE && AlignUp(a) % PAGE == 0
  {
  }

  /** The test of the search, on the wrapped sum. */
  predicate Conflicts(c: nat, size: nat, v: Vma) { c < v.end && (c + size) % WORD > v.start }

  /** The first region that stands in the way, |vmas| if there is none. */
  function FirstInWay(c: nat, size: nat, vmas: seq<Vma>): (i: nat)
    ensures i <= |vmas| && (i < |vmas| ==> Conflicts(c, size, vmas[i])) && forall k :: 0 <= k < i ==> !Conflicts(c, size, vmas[k])
  {
    if vmas == [] || Conflicts(c, size, vmas[0]) then 0 else 1 + FirstInWay(c, size, vmas[1..])
  }

  /** No region ends in the last page, where rounding up would wrap. */
  predicate BelowTop(vmas: seq<Vma>) { forall i :: 0 <= i < |vmas| ==> vmas[i].end <= WORD - PAGE }

  /** What the search answers from a candidate on. */
  function Search(candidate: nat, size: nat, vmas: seq<Vma>): (r: nat)
    requires BelowTop(vmas) && candidate <= WORD - PAGE
    ensures r == 0 || candidate <= r <= WORD - PAGE
    decreases WORD - candidate
  {
    if TooHigh(candidate, size) then 0
    else
      var i := FirstInWay(candidate, size, vmas);
      if i == |vmas| then candidate else Search(AlignUp(vmas[i].end), size, vmas)
  }

  method FirstConflict(c: nat, size: nat, vmas: seq<Vma>) returns (i: nat)
    ensures i == FirstInWay(c, size, vmas)
  {
    i := 0;
    while i < |vmas| && !Conflicts(c, size, vmas[i])
      invariant 0 <= i <= |vmas| && FirstInWay(c, size, vmas) == i + FirstInWay(c, size, vmas[i..])
    {
      assert vmas[i..][0] == vmas[i] && vmas[i..][1..] == vmas[i + 1..];
      i := i + 1;
    }
  }

  /** Every page address below the round-up of a region's end meets it, or does not fit anyway. */
  lemma SkipsNothing(candidate: nat, size: nat, vmas: seq<Vma>, i: nat, c: nat)
    requires i < |vmas| && Conflicts(candidate, size, vmas[i]) && candidate < WORD && size < WORD
    requires candidate <= c < AlignUp(vmas[i].end)
    ensures !Fits(c, size, vmas)
  {
    if c % PAGE == 0 && c + size <= LIMIT {
      AlignedBelow(c, vmas[i].end);
      assert Meets(c, size, vmas[i]);
    }
  }

  /** From a page address on: no lower one fits; 0 only if none does; another answer fits exactly if
      its own end does not wrap, and if it does then none fits. */
  lemma {:induction false} SearchFinds(candidate: nat, size: nat, vmas: seq<Vma>)
    requires BelowTop(vmas) && size < WORD && BASE <= candidate <= WORD - PAGE && candidate % PAGE == 0
    requires forall c :: BASE <= c < candidate ==> !Fits(c, size, vmas)
    ensures var r := Search(candidate, size, vmas);
            && (forall c :: BASE <= c < r ==> !Fits(c, size, vmas))
            && (r == 0 || Wraps(r, size) ==> forall c :: !Fits(c, size, vmas))
            && (r != 0 ==> r % PAGE == 0 && (Fits(r, size, vmas) <==> !Wraps(r, size)))
    decreases WORD - candidate
  {
    if !TooHigh(candidate, size) {
      var i := FirstInWay(candidate, size, vmas);
      if i < |vmas| {
        forall c | candidate <= c < AlignUp(vmas[i].end) ensures !Fits(c, size, vmas) {
          SkipsNothing(candidate, size, vmas, i, c);
        }
        AlignedUp(vmas[i].end);
        SearchFinds(AlignUp(vmas[i].end), size, vmas);
      } else if !Wraps(candidate, size) {
        forall k | 0 <= k < |vmas| ensures !Meets(candidate, size, vmas[k]) { assert !Conflicts(candidate, size, vmas[k]); }
      }
    }
  }

  // ---- When the answer is right -----------------------------------------------------------------

  /** 0 if nothing fits, else the lowest page address that fits. */
  ghost predicate Right(r: nat, size: nat, vmas: seq<Vma>) {
    if r == 0 then forall c :: !Fits(c, size, vmas)
    else Fits(r, size, vmas) && forall c :: BASE <= c < r ==> !Fits(c, size, vmas)
  }

  /** Sizes for which no sum wraps: no address below the limit makes it wrap, or the very first test
      ends the search. */
  predicate SafeSize(size: nat) { size < WORD - LIMIT || LIMIT - BASE < size < WORD - BASE }

  lemma LimitAligned(a: nat)
    requires a <= LIMIT
    ensures AlignUp(a) <= LIMIT
  {
  }

  /** Regions that end by the limit never send the search past it. */
  lemma {:induction false} SearchStays(candidate: nat, size: nat, vmas: seq<Vma>)
    requires BelowTop(vmas) && candidate <= LIMIT && forall i :: 0 <= i < |vmas| ==> vmas[i].end <= LIMIT
    ensures Search(candidate, size, vmas) <= LIMIT
    decreases WORD - candidate
  {
    if !TooHigh(candidate, size) {
      var i := FirstInWay(candidate, size, vmas);
      if i < |vmas| {
        AlignedUp(vmas[i].end);
        LimitAligned(vmas[i].end);
        SearchStays(AlignUp(vmas[i].end), size, vmas);
      }
    }
  }

  lemma SafeIsRight(size: nat, vmas: seq<Vma>)
    requires SafeSize(size) && forall i :: 0 <= i < |vmas| ==> vmas[i].end <= LIMIT
    ensures Right(Search(BASE, size, vmas), size, vmas)
  {
    SearchFinds(BASE, size, vmas);
    SearchStays(BASE, size, vmas);
  }

  /** One region that fills the space. */
  function Filled(): seq<Vma> { [Vma(BASE, LIMIT)] }

  /** Of any other size nothing fits beside it, yet the search gives an address. */
  lemma UnsafeIsWrong(size: nat)
    requires !SafeSize(size) && size < WORD
    ensures AllGood(Filled()) && Search(BASE, size, Filled()) != 0 && !Right(Search(BASE, size, Filled()), size, Filled())
  {
    assert FirstInWay(BASE, size, Filled()) == if BASE + size < WORD then 0 else 1;
    assert AlignUp(LIMIT) == LIMIT;
    assert FirstInWay(LIMIT, size, Filled()) == 1;
    var r := Search(BASE, size, Filled());
    assert r == if BASE + size < WORD then LIMIT else BASE;
    assert Wraps(r, size);
  }

  /** The answer is right for every list of regions below the limit if and only if the size is below
      1.25 GiB, or above 2.25 GiB and below 3.5 GiB. */
  lemma RightIffSafe(size: nat)
    requires size < WORD
    ensures SafeSize(size) <==> forall vmas :: AllGood(vmas) ==> BelowTop(vmas) && Right(Search(BASE, size, vmas), size, vmas)
  {
    if SafeSize(size) {
      forall vmas | AllGood(vmas) ensures BelowTop(vmas) && Right(Search(BASE, size, vmas), size, vmas) { SafeIsRight(size, vmas); }
    } else {
      UnsafeIsWrong(size);
    }
  }

  /** From 3.5 GiB on the answer is an address whatever the regions, although nothing fits. */
  lemma {:induction false} TooLong(candidate: nat, size: nat, vmas: seq<Vma>)
    requires Wraps(BASE, size) && size < WORD && BASE <= candidate <= LIMIT && BelowTop(vmas)
    requires forall i :: 0 <= i < |vmas| ==> vmas[i].end <= LIMIT
    ensures Search(candidate, size, vmas) != 0 && forall c :: !Fits(c, size, vmas)
    decreases WORD - candidate
  {
    var i := FirstInWay(candidate, size, vmas);
    if i < |vmas| {
      AlignedUp(vmas[i].end);
      LimitAligned(vmas[i].end);
      TooLong(AlignUp(vmas[i].end), size, vmas);
    }
  }

  /** find_free_vaddr. */
  method FindFreeVaddr(size: nat, vmas: seq<Vma>) returns (r: nat)
    requires size < WORD && BelowTop(vmas)
    ensures r == Search(BASE, size, vmas)
    ensures SafeSize(size) && (forall i :: 0 <= i < |vmas| ==> vmas[i].end <= LIMIT) ==> Right(r, size, vmas)
    ensures r == 0 || Wraps(r, size) ==> forall c :: !Fits(c, size, vmas)
    ensures r != 0 ==> BASE <= r <= WORD - PAGE && r % PAGE == 0 && (Fits(r, size, vmas) <==> !Wraps(r, size))
    ensures forall c :: BASE <= c < r ==> !Fits(c, size, vmas)
  {
    SearchFinds(BASE, size, vmas);
    if SafeSize(size) && forall i :: 0 <= i < |vmas| ==> vmas[i].end <= LIMIT { SafeIsRight(size, vmas); }
    var candidate: nat := BASE;
    while (candidate + size) % WORD <= LIMIT
      invariant BASE <= candidate <= WORD - PAGE
      invariant Search(BASE, size, vmas) == Search(candidate, size, vmas)
      decreases WORD - candidate
    {
      var i := FirstConflict(candidate, size, vmas);
      if i == |vmas| { return candidate; }
      AlignedUp(vmas[i].end);
      candidate := AlignUp(vmas[i].end);
    }
    return 0;
  }

  ghost predicate Apart(vmas: seq<Vma>) {
    forall i, j :: 0 <= i < j < |vmas| ==> vmas[i].end <= vmas[j].start || vmas[j].end <= vmas[i].start
  }

  /** The regions of an address space: mmap puts the new one at the head of the list. */
  class AddressSpace {
    var vmas: seq<Vma>

    ghost predicate Valid()
      reads this
    {
      AllGood(vmas) && Apart(vmas)
    }

    constructor ()
      ensures Valid() && vmas == []
    {
      vmas := [];
    }

    /** sys_mmap: takes the lowest range of whole pages that fits. `granted` says whether the memory
        for the region, the frames of an anonymous mapping or the open file of another one are
        there. For a safe length the regions stay apart and under the limit, and the call fails
        exactly when nothing fits. */
    method Mmap(length: nat, granted: bool) returns (addr: nat)
      requires Valid() && length < WORD
      modifies this
      ensures addr == (if length == 0 || !granted then 0 else Search(BASE, Pages(length), old(vmas)))
      ensures vmas == if granted then Mapped(old(vmas), length) else old(vmas)
      ensures vmas == if addr == 0 then old(vmas) else [Vma(addr, (addr + Pages(length)) % WORD)] + old(vmas)
      ensures SafeLength(length) ==> Valid()
      ensures Valid() <==> addr == 0 || (Pages(length) > 0 && !Wraps(addr, Pages(length)))
      ensures SafeLength(length) && length > 0 && granted ==> Right(addr, Pages(length), old(vmas))
    {
      hide Search, Right, Fits, AllGood, Apart, Pages, SafeSize;
      MappedGood(vmas, length);
      if length == 0 { return 0; }
      var size := Pages(length);
      addr := FindFreeVaddr(size, vmas);
      if addr == 0 || !granted { return 0; }
      vmas := [Vma(addr, (addr + size) % WORD)] + vmas;
    }
  }

  /** The length in whole pages, as a 32-bit number: a length in the last page comes out as 0. */
  function Pages(length: nat): (size: nat)
    ensures size < WORD && size % PAGE == 0
    ensures 0 < length <= WORD - PAGE ==> length <= size < length + PAGE
    ensures WORD - PAGE < length < WORD ==> size == 0
  {
    AlignUp(length) % WORD
  }

  /** The regions after a mapping of some length. */
  function Mapped(vmas: seq<Vma>, length: nat): seq<Vma>
    requires BelowTop(vmas)
  {
    var addr := Search(BASE, Pages(length), vmas);
    if length == 0 || addr == 0 then vmas else [Vma(addr, (addr + Pages(length)) % WORD)] + vmas
  }

  /** Lengths that can be mapped safely: nothing, or at least a page and of a safe size. */
  predicate SafeLength(length: nat) { length == 0 || (Pages(length) > 0 && SafeSize(Pages(length))) }

  lemma EndsByLimit(vmas: seq<Vma>)
    requires AllGood(vmas)
    ensures BelowTop(vmas) && forall i :: 0 <= i < |vmas| ==> vmas[i].end <= LIMIT
  {
  }

  /** One good address space after a mapping. */
  lemma MappedGood(vmas: seq<Vma>, length: nat)
    requires AllGood(vmas) && Apart(vmas) && length < WORD
    ensures BelowTop(vmas)
    ensures var addr := Search(BASE, Pages(length), vmas);
            && (AllGood(Mapped(vmas, length)) && Apart(Mapped(vmas, length)) <==>
                length == 0 || addr == 0 || (Pages(length) > 0 && !Wraps(addr, Pages(length))))
            && (SafeLength(length) ==> AllGood(Mapped(vmas, length)) && Apart(Mapped(vmas, length)))
            && (SafeLength(length) && length > 0 ==> Right(addr, Pages(length), vmas))
  {
    hide Search, Fits, AllGood, Apart, Pages, SafeSize;
    EndsByLimit(vmas);
    var size := Pages(length);
    var addr := Search(BASE, size, vmas);
    SearchFinds(BASE, size, vmas);
    if addr != 0 { KeepsApart(addr, size, vmas); }
    if SafeLength(length) && length > 0 { SafeIsRight(size, vmas); }
  }

  /** A mapping keeps every good address space good if and only if its length is safe. */
  lemma MappedGoodIff(length: nat)
    requires length < WORD
    ensures SafeLength(length) <==>
            forall vmas :: AllGood(vmas) && Apart(vmas) ==> BelowTop(vmas) && AllGood(Mapped(vmas, length)) && Apart(Mapped(vmas, length))
  {
    hide Search, Fits, Mapped;
    if SafeLength(length) {
      forall vmas | AllGood(vmas) && Apart(vmas)
        ensures BelowTop(vmas) && AllGood(Mapped(vmas, length)) && Apart(Mapped(vmas, length))
      {
        MappedGood(vmas, length);
      }
    } else if Pages(length) == 0 {
      NothingMapped(length);
    } else {
      UnsafeMapped(length);
    }
  }

  /** A length in the last page: an empty region is entered. */
  lemma NothingMapped(length: nat)
    requires length > 0 && Pages(length) == 0
    ensures AllGood([]) && Apart([]) && !AllGood(Mapped([], length))
  {
    assert FirstInWay(BASE, 0, []) == 0;
    assert Mapped([], length) == [Vma(BASE, BASE)] && !Good(Mapped([], length)[0]);
  }

  lemma UnsafeMapped(length: nat)
    requires 0 < length < WORD && Pages(length) > 0 && !SafeSize(Pages(length))
    ensures AllGood(Filled()) && Apart(Filled()) && !(AllGood(Mapped(Filled(), length)) && Apart(Mapped(Filled(), length)))
  {
    hide Search, Mapped;
    var size := Pages(length);
    UnsafeIsWrong(size);
    SearchFinds(BASE, size, Filled());
    MappedGood(Filled(), length);
  }

  lemma KeepsApart(addr: nat, size: nat, vmas: seq<Vma>)
    requires AllGood(vmas) && Apart(vmas) && BASE <= addr < WORD && size < WORD && addr % PAGE == 0 && size % PAGE == 0
    requires !Wraps(addr, size) ==> Fits(addr, size, vmas)
    ensures var all := [Vma(addr, (addr + size) % WORD)] + vmas; (AllGood(all) && Apart(all) <==> size > 0 && !Wraps(addr, size))
  {
    var all := [Vma(addr, (addr + size) % WORD)] + vmas;
    if size > 0 && !Wraps(addr, size) {
      forall i, j | 0 <= i < j < |all| ensures all[i].end <= all[j].start || all[j].end <= all[i].start {
        if i == 0 {
          assert !Meets(addr, size, vmas[j - 1]);
        } else {
          assert all[i] == vmas[i - 1] && all[j] == vmas[j - 1];
        }
      }
    } else {
      assert !Good(all[0]);
    }
  }
}
