/** The frame allocator of kernel/src/pmm.cpp.

    A frame is named by its number (physical address divided by 4096). The bitmap is
    kept one boolean per frame; the source's 32-bit words are rows of 32 of them. */
module PhysicalMemory {

  const MAX_REFCOUNT := 255

  /** All frames whose bit is set. */
  function UsedSet(used: seq<bool>): set<nat> {
    set f | 0 <= f < |used| && used[f]
  }

  /** The frames the single-frame search can find: it only visits whole 32-bit words, so
      the frames of a last, partial word are never handed out one at a time. */
  function FreeSet(used: seq<bool>): set<nat> {
    set f | 0 <= f < |used| / 32 * 32 && !used[f]
  }

  ghost predicate IsLeast(f: nat, s: set<nat>) {
    f in s && forall g :: g in s ==> f <= g
  }

  /** `count` clear frames in a row, starting at `start`. */
  ghost predicate FreeRun(used: seq<bool>, start: nat, count: nat) {
    start + count <= |used| && forall f :: start <= f < start + count ==> !used[f]
  }

  /** What get_free_blocks can find: a single frame only in a whole word. */
  ghost predicate HasRun(used: seq<bool>, count: nat) {
    if count <= 1 then count == 1 && FreeSet(used) != {} else exists s: nat :: FreeRun(used, s, count)
  }

  lemma NoRun(used: seq<bool>, count: nat)
    requires count > 0 && forall s: nat :: !FreeRun(used, s, count)
    ensures !HasRun(used, count)
  {
    if count == 1 && FreeSet(used) != {} {
      var f :| f in FreeSet(used);
      OneFrameRun(used, f);
    }
  }

  lemma OneFrameRun(used: seq<bool>, s: nat)
    requires s < |used| / 32 * 32
    ensures FreeRun(used, s, 1) <==> s in FreeSet(used)
  {
    if s in FreeSet(used) { assert FreeRun(used, s, 1); }
    if FreeRun(used, s, 1) { assert !used[s]; }
  }

  /** Setting or clearing one bit changes the used set, and its size, by that frame alone. */
  lemma UsedSetUpdate(used: seq<bool>, f: nat, b: bool)
    requires f < |used|
    ensures UsedSet(used[f := b]) == if b then UsedSet(used) + {f} else UsedSet(used) - {f}
    ensures |UsedSet(used[f := b])| ==
            |UsedSet(used)| + (if b then 1 else 0) - (if used[f] then 1 else 0)
  {
    if b {
      assert UsedSet(used[f := b]) == UsedSet(used) + {f};
    } else {
      assert UsedSet(used[f := b]) == UsedSet(used) - {f};
    }
  }

  lemma FreeSetUpdate(used: seq<bool>, f: nat, b: bool)
    requires f < |used|
    ensures FreeSet(used[f := b]) ==
            if b then FreeSet(used) - {f}
            else if f < |used| / 32 * 32 then FreeSet(used) + {f} else FreeSet(used)
  {
  }

  /** The set bits never outnumber the frames, and they match in number only when every
      frame is taken. */
  lemma UsedSetBound(used: seq<bool>)
    ensures |UsedSet(used)| <= |used|
    ensures |UsedSet(used)| == |used| ==> forall f :: 0 <= f < |used| ==> used[f]
  {
    if used != [] {
      var n := |used| - 1;
      UsedSetBound(used[..n]);
      if used[n] {
        assert UsedSet(used) == UsedSet(used[..n]) + {n};
      } else {
        assert UsedSet(used) == UsedSet(used[..n]);
      }
      if |UsedSet(used)| == |used| {
        forall f | 0 <= f < |used| ensures used[f] {
          if f < n { assert used[..n][f]; }
        }
      }
    }
  }

  class Pmm {
    const maxFrames: nat
    const bitmap: array<bool>
    const refcounts: array<nat>
    var usedFrames: int

    ghost predicate Valid()
      reads this, bitmap, refcounts
    {
      && bitmap.Length == refcounts.Length == maxFrames < 0x10_0000
      && usedFrames == |UsedSet(bitmap[..])|
      && (forall f :: 0 <= f < maxFrames ==> refcounts[f] <= MAX_REFCOUNT)
      && (forall f :: 0 <= f < maxFrames && !bitmap[f] ==> refcounts[f] == 0)
    }

    /** init sets the bits of whole words; those of a last, partial word keep what memory held.
        All frames are counted as used, which is right exactly if those bits were set. */
    constructor (frames: nat, held: seq<bool>)
      requires frames < 0x10_0000 && |held| == frames
      ensures fresh(bitmap) && fresh(refcounts) && maxFrames == frames && bitmap.Length == refcounts.Length == frames
      ensures forall f :: 0 <= f < frames ==> bitmap[f] == (f < frames / 32 * 32 || held[f]) && refcounts[f] == 0
      ensures Valid() <==> forall f :: frames / 32 * 32 <= f < frames ==> held[f]
    {
      maxFrames := frames;
      bitmap := new bool[frames](i requires 0 <= i < frames => i < frames / 32 * 32 || held[i]);
      refcounts := new nat[frames](_ => 0);
      usedFrames := frames;
      new;
      UsedSetBound(bitmap[..]);
      if forall f :: 0 <= f < frames ==> bitmap[f] { UsedSetFull(bitmap[..]); }
      assert forall f :: 0 <= f < frames ==> bitmap[..][f] == bitmap[f];
    }

    static lemma UsedSetFull(used: seq<bool>)
      requires forall f :: 0 <= f < |used| ==> used[f]
      ensures |UsedSet(used)| == |used|
    {
      if used != [] {
        var n := |used| - 1;
        UsedSetFull(used[..n]);
        assert UsedSet(used) == UsedSet(used[..n]) + {n};
      }
    }

    /** Word by word, skipping full words. */
    method GetFirstFreeFrame() returns (found: bool, frame: nat)
      requires Valid()
      ensures found <==> FreeSet(bitmap[..]) != {}
      ensures found ==> IsLeast(frame, FreeSet(bitmap[..]))
    {
      ghost var free := FreeSet(bitmap[..]);
      for i := 0 to maxFrames / 32
        invariant forall f :: 0 <= f < 32 * i ==> bitmap[f]
      {
        if exists f :: 32 * i <= f < 32 * i + 32 && !bitmap[f] {
          for j := 0 to 32
            invariant forall f :: 0 <= f < 32 * i + j ==> bitmap[f]
          {
            if !bitmap[32 * i + j] {
              assert 32 * i + j in free;
              return true, 32 * i + j;
            }
          }
          assert false;
        }
      }
      return false, 0;
    }

    /** alloc_frame. Result 0 is the null pointer (so frame 0 cannot be handed out usefully). */
    method AllocFrame() returns (frame: nat)
      requires Valid()
      modifies this`usedFrames, bitmap, refcounts
      ensures Valid()
      ensures FreeSet(old(bitmap[..])) == {} ==>
                frame == 0 && bitmap[..] == old(bitmap[..]) && refcounts[..] == old(refcounts[..])
                && usedFrames == old(usedFrames)
      ensures FreeSet(old(bitmap[..])) != {} ==>
                IsLeast(frame, FreeSet(old(bitmap[..])))
                && bitmap[..] == old(bitmap[..])[frame := true]
                && refcounts[..] == old(refcounts[..])[frame := 1]
                && usedFrames == old(usedFrames) + 1
    {
      if maxFrames - usedFrames == 0 {
        UsedSetBound(bitmap[..]);
        assert FreeSet(bitmap[..]) == {};
        return 0;
      }
      var found, f := GetFirstFreeFrame();
      if !found { return 0; }
      UsedSetUpdate(bitmap[..], f, true);
      bitmap[f] := true;
      usedFrames := usedFrames + 1;
      refcounts[f] := 1;
      assert bitmap[..] == old(bitmap[..])[f := true];
      return f;
    }

    /** free_frame and dec_ref: drop one reference; the last one returns the frame. Freeing a
        free frame makes the counter wrong. */
    method FreeFrame(frame: nat)
      requires Valid()
      modifies this`usedFrames, bitmap, refcounts
      ensures Valid() <==> (frame < maxFrames ==> old(bitmap[frame]))
      ensures maxFrames <= frame ==>
                bitmap[..] == old(bitmap[..]) && refcounts[..] == old(refcounts[..]) && usedFrames == old(usedFrames)
      ensures frame < maxFrames && old(refcounts[frame]) > 1 ==>
                bitmap[..] == old(bitmap[..])
                && refcounts[..] == old(refcounts[..])[frame := old(refcounts[frame]) - 1]
                && usedFrames == old(usedFrames)
      ensures frame < maxFrames && old(refcounts[frame]) <= 1 ==>
                bitmap[..] == old(bitmap[..])[frame := false]
                && refcounts[..] == old(refcounts[..])[frame := 0]
                && usedFrames == (old(usedFrames) - 1) % 0x1_0000_0000
    {
      if frame >= maxFrames { return; }
      if refcounts[frame] > 1 {
        refcounts[frame] := refcounts[frame] - 1;
        return;
      }
      UsedSetUpdate(bitmap[..], frame, false);
      refcounts[frame] := 0;
      bitmap[frame] := false;
      UsedSetBound(bitmap[..]);
      usedFrames := (usedFrames - 1) % 0x1_0000_0000;
      assert bitmap[..] == old(bitmap[..])[frame := false];
    }

    /** inc_ref saturates at 255. It does not look at the bit, so a free frame can get a count. */
    method IncRef(frame: nat)
      requires Valid()
      modifies refcounts
      ensures Valid() <==> (frame < maxFrames ==> bitmap[frame])
      ensures refcounts[..] ==
              if frame < maxFrames && old(refcounts[frame]) < MAX_REFCOUNT
              then old(refcounts[..])[frame := old(refcounts[frame]) + 1]
              else old(refcounts[..])
    {
      if frame < maxFrames && refcounts[frame] < MAX_REFCOUNT {
        refcounts[frame] := refcounts[frame] + 1;
      }
    }

    /** get_free_blocks for two or more frames: the lowest run of `count` clear frames. */
    method GetFreeBlocks(count: nat) returns (found: bool, start: nat)
      requires Valid()
      ensures found <==> HasRun(bitmap[..], count)
      ensures found ==> 0 < count && FreeRun(bitmap[..], start, count)
      ensures found ==> forall s :: 0 <= s < start ==> !FreeRun(bitmap[..], s, count)
    {
      if count == 0 { return false, 0; }
      if count == 1 {
        found, start := GetFirstFreeFrame();
        forall s: nat | found && s < start ensures !FreeRun(bitmap[..], s, 1) {
          OneFrameRun(bitmap[..], s);
        }
        return;
      }
      var current := 0;
      start := 0;
      ghost var used := bitmap[..];
      for i := 0 to maxFrames
        invariant 0 <= current < count && current <= i
        invariant current > 0 ==> start == i - current
        invariant forall f :: i - current <= f < i ==> !bitmap[f]
        invariant current < i ==> bitmap[i - current - 1]
        invariant forall s: nat :: s < i - current ==> !FreeRun(used, s, count)
      {
        if !bitmap[i] {
          if current == 0 { start := i; }
          current := current + 1;
          if current == count {
            assert FreeRun(used, start, count);
            return true, start;
          }
        } else {
          forall s: nat | s < i + 1 ensures !FreeRun(used, s, count) {
            if i - current <= s && s + count <= |used| {
              assert used[i];
            }
          }
          current := 0;
        }
      }
      forall s: nat ensures !FreeRun(used, s, count) { }
      return false, 0;
    }

    /** alloc_blocks takes the lowest run and leaves its reference counts alone. A single frame is
        searched for word by word, as in alloc_frame. Result 0 is the null pointer: a run from
        frame 0 on is taken and reported as a failure. */
    method AllocBlocks(count: nat) returns (start: nat, ghost taken: bool)
      requires Valid() && count < 0x1_0000_0000
      modifies this`usedFrames, bitmap
      ensures Valid()
      ensures taken <==> HasRun(old(bitmap[..]), count)
      ensures !taken ==> start == 0 && bitmap[..] == old(bitmap[..]) && usedFrames == old(usedFrames)
      ensures taken ==> FreeRun(old(bitmap[..]), start, count) && forall s :: 0 <= s < start ==> !FreeRun(old(bitmap[..]), s, count)
      ensures taken ==> usedFrames == old(usedFrames) + count
      ensures taken ==> forall f :: 0 <= f < maxFrames ==>
                bitmap[f] == (old(bitmap[f]) || start <= f < start + count)
      ensures start == 0 <==> !taken || FreeRun(old(bitmap[..]), 0, count)
    {
      taken := false;
      UsedSetBound(bitmap[..]);
      if (maxFrames - usedFrames) * 4096 < count * 4096 % 0x1_0000_0000 {
        forall s: nat ensures !FreeRun(bitmap[..], s, count) {
          if FreeRun(bitmap[..], s, count) { FreeRunCount(bitmap[..], s, count); }
        }
        NoRun(bitmap[..], count);
        return 0, false;
      }
      var found, first := GetFreeBlocks(count);
      if !found { return 0, false; }
      ghost var was := bitmap[..];
      for i := 0 to count
        invariant Valid() && usedFrames == old(usedFrames) + i
        invariant forall f :: 0 <= f < maxFrames ==> bitmap[f] == (was[f] || first <= f < first + i)
      {
        UsedSetUpdate(bitmap[..], first + i, true);
        ghost var pre := bitmap[..];
        bitmap[first + i] := true;
        assert bitmap[..] == pre[first + i := true];
        usedFrames := usedFrames + 1;
      }
      return first, true;
    }

    /** A run of clear frames is counted among the free ones. */
    static lemma FreeRunCount(used: seq<bool>, start: nat, count: nat)
      requires FreeRun(used, start, count)
      ensures |UsedSet(used)| + count <= |used|
      decreases count
    {
      if count == 0 {
        UsedSetBound(used);
      } else {
        UsedSetUpdate(used, start, true);
        FreeRunCount(used[start := true], start + 1, count - 1);
      }
    }
  }
}
