/** The block cache and the free-block accounting of kernel/src/fs_driver.cpp. Block 0 holds the
    superblock, which the driver writes past the cache, so the claims are about blocks from 1 on.
    The journal, transactions, inode bitmap and statistics are not modelled. */
module BlockCache {
  import opened Collections

  type Block = seq<nat>

  datatype CacheEntry = CacheEntry(data: Block, dirty: bool, lastAccess: nat)

  function Zeros(n: nat): Block { seq(n, _ => 0) }

  /** Data cut or padded to the block size. */
  function Padded(data: Block, n: nat): (r: Block)
    ensures |r| == n && forall i :: 0 <= i < n ==> r[i] == if i < |data| then data[i] else 0
  {
    seq(n, i requires 0 <= i < n => if i < |data| then data[i] else 0)
  }

  function ClearBits(bits: seq<bool>): nat {
    if bits == [] then 0 else ClearBits(bits[..|bits| - 1]) + if bits[|bits| - 1] then 0 else 1
  }

  lemma {:induction false} ClearBitsUpdate(bits: seq<bool>, i: nat, b: bool)
    requires i < |bits|
    ensures ClearBits(bits[i := b]) == ClearBits(bits) - (if bits[i] then 0 else 1) + if b then 0 else 1
    decreases |bits|
  {
    var n := |bits| - 1;
    if i < n {
      ClearBitsUpdate(bits[..n], i, b);
      assert bits[i := b][..n] == bits[..n][i := b];
    } else {
      assert bits[i := b][..n] == bits[..n];
    }
  }

  lemma {:induction false} AllClear(bits: seq<bool>)
    requires forall i :: 0 <= i < |bits| ==> !bits[i]
    ensures ClearBits(bits) == |bits|
    decreases |bits|
  {
    if bits != [] { AllClear(bits[..|bits| - 1]); }
  }

  class Driver {
    const blockSize: nat
    const firstData: nat
    var disk: seq<Block>
    var bitmap: seq<bool>
    var freeBlocks: int
    var cache: map<nat, CacheEntry>
    var maxCache: nat
    var accesses: nat

    /** The free count is right, and the cache is about blocks of the disk. */
    ghost predicate Sized()
      reads this
    {
      |bitmap| == |disk| && freeBlocks == ClearBits(bitmap) && forall b :: b in cache ==> b < |disk|
    }

    /** Besides, cached data is what the disk holds, and free blocks hold zeros. */
    ghost predicate Valid()
      reads this
    {
      Sized() && Coherent() && (forall b :: 1 <= b < |disk| && !bitmap[b] ==> disk[b] == Zeros(blockSize))
    }

    ghost predicate Coherent()
      reads this
    {
      forall b :: b in cache ==> b < |disk| && (b >= 1 ==> cache[b].data == disk[b])
    }

    /** The volume as a plain array of blocks. */
    ghost function Plain(): seq<Block> reads this { if disk == [] then [] else disk[1..] }

    /** The blocks allocBlock may hand out. */
    ghost function Free(): set<nat> reads this { FreeIn(bitmap, firstData) }

    static ghost function FreeIn(bits: seq<bool>, first: nat): set<nat> { set b: nat | first <= b < |bits| && !bits[b] }

    /** format: the layout is wiped after it is computed, so no block is reserved. */
    constructor (total: nat, size: nat)
      ensures Valid() && |disk| == total && firstData == 0 && freeBlocks == total
      ensures forall b :: 0 <= b < total ==> disk[b] == Zeros(size) && !bitmap[b]
    {
      blockSize, firstData := size, 0;
      disk := seq(total, _ => Zeros(size));
      bitmap := seq(total, _ => false);
      freeBlocks := total;
      cache, maxCache, accesses := map[], 64, 0;
      new;
      AllClear(bitmap);
    }

    /** Drops the entry used longest ago, writing it back if it is dirty. */
    method EvictLru()
      requires Coherent()
      modifies this`disk, this`cache
      ensures |disk| == |old(disk)| && Plain() == old(Plain()) && Coherent()
      ensures old(cache) == map[] ==> cache == map[]
      ensures old(cache) != map[] ==>
                exists v: nat :: && Oldest(old(cache), v) && cache == old(cache) - {v}
                            && disk == if old(cache)[v].dirty then old(disk)[v := old(cache)[v].data] else old(disk)
    {
      if cache == map[] { return; }
      var victim :| victim in cache;
      var todo := cache.Keys - {victim};
      while todo != {}
        invariant todo <= cache.Keys && victim in cache && cache == old(cache) && disk == old(disk)
        invariant forall b :: b in cache && b !in todo ==> cache[victim].lastAccess <= cache[b].lastAccess
        decreases |todo|
      {
        var b :| b in todo;
        if cache[b].lastAccess < cache[victim].lastAccess { victim := b; }
        todo := todo - {b};
      }
      if cache[victim].dirty { disk := disk[victim := cache[victim].data]; }
      assert Oldest(cache, victim);
      cache := cache - {victim};
    }

    static ghost predicate Oldest(cache: map<nat, CacheEntry>, v: nat) {
      v in cache && forall b :: b in cache ==> cache[v].lastAccess <= cache[b].lastAccess
    }

    /** The cache after the entry e was put in for a block it did not have: if it was full the entry
        used longest ago is gone. */
    static ghost predicate Placed(was: map<nat, CacheEntry>, now: map<nat, CacheEntry>, b: nat, e: CacheEntry, max: nat) {
      if |was| < max || was == map[] then now == was[b := e]
      else exists v: nat :: Oldest(was, v) && now == (was - {v})[b := e]
    }

    static lemma MakeRoom(was: map<nat, CacheEntry>, now: map<nat, CacheEntry>, b: nat, e: CacheEntry, max: nat)
      requires if |was| < max || was == map[] then now == was else exists v: nat :: Oldest(was, v) && now == was - {v}
      ensures Placed(was, now[b := e], b, e, max)
    {
    }

    /** A cache that held no more than it may holds no more than it may. */
    static lemma PlacedFits(was: map<nat, CacheEntry>, now: map<nat, CacheEntry>, b: nat, e: CacheEntry, max: nat)
      requires Placed(was, now, b, e, max) && |was| <= max && max >= 1 && b !in was
      ensures |now| <= max && b in now && now[b] == e
      ensures forall c :: c in now && c != b ==> c in was && now[c] == was[c]
    {
      if |was| < max || was == map[] {
        assert now.Keys == was.Keys + {b};
        assert |now| == |now.Keys| && |was| == |was.Keys|;
      } else {
        var v: nat :| Oldest(was, v) && now == (was - {v})[b := e];
        assert now.Keys == (was.Keys - {v}) + {b};
        assert |now| == |now.Keys| && |was| == |was.Keys|;
      }
    }

    /** Puts an entry into the cache, making room first. */
    method Insert(b: nat, e: CacheEntry)
      requires Coherent() && b < |disk| && (b >= 1 ==> e.data == disk[b])
      modifies this`disk, this`cache
      ensures |disk| == |old(disk)| && Plain() == old(Plain()) && Coherent() && b in cache && cache[b] == e
      ensures Placed(old(cache), cache, b, e, maxCache)
    {
      if |cache| >= maxCache { EvictLru(); }
      PlainAt(b);
      cache := cache[b := e];
    }

    lemma PlainAt(b: nat)
      ensures 1 <= b < |disk| ==> Plain()[b - 1] == disk[b]
    {
    }

    /** readBlock: what the cache or else the disk holds, which is what the plain array holds. */
    method ReadBlock(b: nat) returns (r: Option<Block>)
      requires Valid()
      modifies this`disk, this`cache, this`accesses
      ensures Valid() && |disk| == |old(disk)| && Plain() == old(Plain())
      ensures r.None? <==> b >= |disk|
      ensures 1 <= b < |disk| ==> r == Some(disk[b])
      ensures b < |disk| ==> r == Some(if b in old(cache) then old(cache)[b].data else old(disk)[b])
      ensures accesses == old(accesses) + (if b < |disk| then 1 else 0)
      ensures b >= |disk| ==> cache == old(cache)
      ensures b in old(cache) ==> cache == old(cache)[b := old(cache)[b].(lastAccess := accesses)]
      ensures b < |disk| && b !in old(cache) ==> Placed(old(cache), cache, b, CacheEntry(old(disk)[b], false, accesses), maxCache)
      ensures old(|cache|) <= maxCache && maxCache >= 1 ==> |cache| <= maxCache
    {
      hide Placed, Oldest, ClearBits;
      if b >= |disk| { return None; }
      if b in cache {
        var hit := ReadCached(b);
        assert cache.Keys == old(cache).Keys && |cache| == |cache.Keys| && |old(cache)| == |old(cache).Keys|;
        return Some(hit);
      }
      accesses := accesses + 1;
      var data := disk[b];
      Insert(b, CacheEntry(data, false, accesses));
      FromPlain(old(disk), old(Plain()));
      if |old(cache)| <= maxCache && maxCache >= 1 { PlacedFits(old(cache), cache, b, CacheEntry(data, false, accesses), maxCache); }
      return Some(data);
    }

    /** The read of a block that is in the cache. */
    method ReadCached(b: nat) returns (r: Block)
      requires b in cache
      modifies this`cache, this`accesses
      ensures r == old(cache)[b].data && accesses == old(accesses) + 1
      ensures cache == old(cache)[b := old(cache)[b].(lastAccess := accesses)]
    {
      accesses := accesses + 1;
      cache := cache[b := cache[b].(lastAccess := accesses)];
      return cache[b].data;
    }

    /** Equal plain arrays are equal blocks from 1 on. */
    lemma FromPlain(was: seq<Block>, plain: seq<Block>)
      requires |was| == |disk| && Plain() == plain && plain == if was == [] then [] else was[1..]
      ensures forall b :: 1 <= b < |disk| ==> disk[b] == was[b]
    {
      forall b | 1 <= b < |disk| ensures disk[b] == was[b] { assert Plain()[b - 1] == disk[b] && was[1..][b - 1] == was[b]; }
    }

    /** writeBlock: a plain store, cut or padded to the block size. A store of anything but zeros
        to a free block breaks the rule that free blocks hold zeros. */
    method WriteBlock(b: nat, data: Block) returns (ok: bool)
      requires Valid()
      modifies this`disk, this`cache, this`accesses
      ensures Sized() && Coherent() && |disk| == |old(disk)|
      ensures Valid() <==> (1 <= b < |disk| ==> bitmap[b] || Padded(data, blockSize) == Zeros(blockSize))
      ensures ok <==> b < |disk|
      ensures ok ==> b in cache && cache[b].data == Padded(data, blockSize)
      ensures accesses == old(accesses) + (if ok then 1 else 0)
      ensures !ok ==> cache == old(cache)
      ensures b in old(cache) ==> cache == old(cache)[b := CacheEntry(Padded(data, blockSize), true, accesses)]
      ensures ok && b !in old(cache) ==> Placed(old(cache), cache, b, CacheEntry(Padded(data, blockSize), true, accesses), maxCache)
      ensures !ok ==> Plain() == old(Plain())
      ensures ok && b >= 1 ==> Plain() == old(Plain())[b - 1 := Padded(data, blockSize)]
      ensures ok && b == 0 ==> Plain() == old(Plain())
    {
      hide ClearBits, Oldest, Placed;
      if b >= |disk| { return false; }
      var padded := Padded(data, blockSize);
      accesses := accesses + 1;
      if b !in cache {
        if |cache| >= maxCache { EvictLru(); }
        FromPlain(old(disk), old(Plain()));
        MakeRoom(old(cache), cache, b, CacheEntry(padded, true, accesses), maxCache);
      }
      cache := cache[b := CacheEntry(padded, true, accesses)];
      disk := disk[b := padded];
      return true;
    }

    /** allocBlock: the first free block, filled with zeros; 0 when there is none, and also when it
        is block 0 that is handed out. The cache is not told: it still agrees with the disk exactly if
        it has no other data of the block. */
    method AllocBlock() returns (b: nat)
      requires Sized()
      modifies this`disk, this`bitmap, this`freeBlocks
      ensures Sized() && |disk| == |old(disk)| && (old(Valid()) ==> Valid())
      ensures old(Free()) == {} ==> b == 0 && bitmap == old(bitmap) && disk == old(disk)
      ensures old(Free()) != {} ==> b in old(Free()) && forall i :: i in old(Free()) ==> b <= i
      ensures old(Free()) != {} ==> b < |disk| && bitmap == old(bitmap)[b := true] && disk == old(disk)[b := Zeros(blockSize)]
      ensures Free() == old(Free()) - {b}
      ensures old(Coherent()) ==> (Coherent() <==> old(Free()) == {} || b == 0 || b !in cache || cache[b].data == Zeros(blockSize))
      ensures old(Valid()) ==> Plain() == old(Plain())
    {
      var i := firstData;
      while i < |disk|
        invariant firstData <= i
        invariant forall j :: firstData <= j < i && j < |disk| ==> bitmap[j]
      {
        if !bitmap[i] {
          assert i in Free();
          ClearBitsUpdate(bitmap, i, true);
          bitmap := bitmap[i := true];
          freeBlocks := freeBlocks - 1;
          disk := disk[i := Zeros(blockSize)];
          return i;
        }
        i := i + 1;
      }
      assert Free() == {};
      return 0;
    }

    /** freeBlock: the block reads as zeros from now on. */
    method FreeBlock(b: nat)
      requires Valid()
      modifies this`disk, this`bitmap, this`freeBlocks, this`cache
      ensures Valid() && |disk| == |old(disk)|
      ensures var freed := firstData <= b < |disk| && old(bitmap)[b];
              && bitmap == (if freed then old(bitmap)[b := false] else old(bitmap))
              && Plain() == (if freed && b >= 1 then old(Plain())[b - 1 := Zeros(blockSize)] else old(Plain()))
              && cache == (if freed then old(cache) - {b} else old(cache))
    {
      if b >= |disk| || b < firstData || !bitmap[b] { return; }
      ClearBitsUpdate(bitmap, b, false);
      bitmap := bitmap[b := false];
      freeBlocks := freeBlocks + 1;
      disk := disk[b := Zeros(blockSize)];
      cache := cache - {b};
    }

    /** allocBlocks: the lowest free blocks, or none at all. While block 0 is free it is taken, its
        number is read as a failure, and it stays taken. */
    method AllocBlocks(count: nat) returns (r: seq<nat>)
      requires Valid()
      modifies this`disk, this`bitmap, this`freeBlocks, this`cache
      ensures Valid() && |disk| == |old(disk)| && Plain() == old(Plain())
      ensures |r| == if 0 !in old(Free()) && count <= |old(Free())| then count else 0
      ensures count > 0 && r == [] ==> bitmap == if 0 in old(Free()) then old(bitmap)[0 := true] else old(bitmap)
      ensures forall i :: 0 <= i < |r| ==> r[i] in old(Free()) && r[i] > 0
      ensures forall i, j :: 0 <= i < j < |r| ==> r[i] < r[j]
      ensures forall i, b :: 0 <= i < |r| && b in old(Free()) && b < r[i] ==> b in r
      ensures count == 0 || r != [] ==> |bitmap| == |old(bitmap)| && forall b :: 0 <= b < |bitmap| ==> bitmap[b] == (old(bitmap)[b] || b in r)
    {
      hide ClearBits, Taken, FreeIn;
      r := [];
      NoneTaken(bitmap, firstData);
      while |r| < count
        invariant |r| <= count && Valid() && |disk| == |old(disk)| && Plain() == old(Plain())
        invariant Taken(old(bitmap), firstData, bitmap, r)
      {
        ghost var bits := bitmap;
        TakenParts(old(bitmap), firstData, bits, r);
        var b := AllocBlock();
        if b == 0 {
          NoneIsZero(old(bitmap), firstData, bits, r);
          FromPlain(old(disk), old(Plain()));
          ghost var failed := bitmap;
          GiveBack(r);
          Restored(old(bitmap), firstData, bits, r, failed, bitmap);
          return [];
        }
        TakeNext(old(bitmap), firstData, bits, r, b);
        r := r + [b];
      }
      TakenParts(old(bitmap), firstData, bitmap, r);
    }

    /** The blocks r are the lowest of those that were free, in order, and nothing else changed. */
    static ghost predicate Taken(was: seq<bool>, first: nat, bits: seq<bool>, r: seq<nat>) {
      && |bits| == |was| && (forall b :: 0 <= b < |bits| ==> bits[b] == (was[b] || b in r))
      && (forall i :: 0 <= i < |r| ==> first <= r[i] < |was| && !was[r[i]] && r[i] > 0)
      && (forall i, j :: 0 <= i < j < |r| ==> r[i] < r[j])
      && (r != [] ==> forall b :: first <= b < r[|r| - 1] && !was[b] ==> b in r)
      && |FreeIn(bits, first)| == |FreeIn(was, first)| - |r|
    }

    static lemma NoneTaken(was: seq<bool>, first: nat)
      ensures Taken(was, first, was, [])
    {
    }

    /** What callers are told of the blocks taken. */
    static lemma TakenParts(was: seq<bool>, first: nat, bits: seq<bool>, r: seq<nat>)
      requires Taken(was, first, bits, r)
      ensures |bits| == |was| && (forall b :: 0 <= b < |bits| ==> bits[b] == (was[b] || b in r))
      ensures forall i :: 0 <= i < |r| ==> r[i] in FreeIn(was, first) && r[i] > 0
      ensures forall i, j :: 0 <= i < j < |r| ==> r[i] < r[j]
      ensures forall i, b :: 0 <= i < |r| && b in FreeIn(was, first) && b < r[i] ==> b in r
      ensures |FreeIn(bits, first)| == |FreeIn(was, first)| - |r|
      ensures r != [] ==> 0 !in FreeIn(was, first)
    {
      assert r != [] && 0 in FreeIn(was, first) ==> 0 in r;
    }

    static lemma TakeNext(was: seq<bool>, first: nat, bits: seq<bool>, r: seq<nat>, b: nat)
      requires Taken(was, first, bits, r) && b > 0 && b in FreeIn(bits, first) && forall i :: i in FreeIn(bits, first) ==> b <= i
      ensures Taken(was, first, bits[b := true], r + [b])
    {
      assert b !in r && !was[b];
      assert r != [] && b < r[|r| - 1] ==> b in r;
      assert forall i :: 0 <= i < |r| ==> r[i] <= r[|r| - 1];
      assert FreeIn(bits[b := true], first) == FreeIn(bits, first) - {b};
      forall i | first <= i < b && !was[i] ensures i in r { assert i !in FreeIn(bits, first); }
    }

    /** The blocks handed out in this call are above block 0. */
    static lemma NoneIsZero(was: seq<bool>, first: nat, bits: seq<bool>, r: seq<nat>)
      requires Taken(was, first, bits, r)
      ensures forall k :: 0 <= k < |r| ==> 1 <= r[k] < |was| && first <= r[k] && !was[r[k]]
      ensures 0 in FreeIn(bits, first) <==> 0 in FreeIn(was, first)
    {
    }

    /** Giving back undoes the taking, but for block 0. */
    static lemma Restored(was: seq<bool>, first: nat, bits: seq<bool>, r: seq<nat>, failed: seq<bool>, now: seq<bool>)
      requires Taken(was, first, bits, r) && |now| == |failed| == |was|
      requires failed == if 0 in FreeIn(was, first) then bits[0 := true] else bits
      requires forall b :: 0 <= b < |now| ==> now[b] == (failed[b] && b !in r)
      ensures now == if 0 in FreeIn(was, first) then was[0 := true] else was
    {
      var want := if 0 in FreeIn(was, first) then was[0 := true] else was;
      forall b | 0 <= b < |now| ensures now[b] == want[b] { }
    }

    method GiveBack(r: seq<nat>)
      requires Valid()
      requires forall k :: 0 <= k < |r| ==> 1 <= r[k] < |disk| && firstData <= r[k]
      requires forall k :: 0 <= k < |r| ==> disk[r[k]] == Zeros(blockSize)
      modifies this`disk, this`bitmap, this`freeBlocks, this`cache
      ensures Valid() && |disk| == |old(disk)| && Plain() == old(Plain())
      ensures |bitmap| == |old(bitmap)| && forall b :: 0 <= b < |bitmap| ==> bitmap[b] == (old(bitmap)[b] && b !in r)
    {
      hide ClearBits;
      var k := 0;
      while k < |r|
        invariant 0 <= k <= |r| && Valid() && |disk| == |old(disk)| && Plain() == old(Plain())
        invariant forall k :: 0 <= k < |r| ==> disk[r[k]] == Zeros(blockSize)
        invariant |bitmap| == |old(bitmap)| && forall b :: 0 <= b < |bitmap| ==> bitmap[b] == (old(bitmap)[b] && b !in r[..k])
      {
        PlainAt(r[k]);
        ghost var before := disk;
        FreeBlock(r[k]);
        FromPlain(before, Plain());
        assert r[..k + 1] == r[..k] + [r[k]];
        k := k + 1;
      }
      assert r[..k] == r;
    }

    /** sync: writes dirty entries back, in whatever order, and the superblock to block 0. */
    method Sync(superblock: Block)
      requires Valid()
      modifies this`disk, this`cache
      ensures Valid() && |disk| == |old(disk)| && Plain() == old(Plain())
      ensures |disk| > 0 ==> disk[0] == superblock
      ensures cache.Keys == old(cache).Keys && forall b :: b in cache ==> cache[b] == old(cache)[b].(dirty := false)
    {
      hide ClearBits;
      var todo := cache.Keys;
      while todo != {}
        invariant todo <= cache.Keys == old(cache).Keys && Coherent()
        invariant |disk| == |old(disk)| && forall b :: 1 <= b < |disk| ==> disk[b] == old(disk)[b]
        invariant forall b :: b in cache ==> cache[b] == if b in todo then old(cache)[b] else old(cache)[b].(dirty := false)
        decreases |todo|
      {
        var b :| b in todo;
        if cache[b].dirty {
          disk := disk[b := cache[b].data];
          cache := cache[b := cache[b].(dirty := false)];
        } else {
          assert cache[b] == cache[b].(dirty := false);
        }
        todo := todo - {b};
      }
      if |disk| > 0 { disk := disk[0 := superblock]; }
    }

    method InvalidateCache()
      requires Valid()
      modifies this`cache
      ensures Valid() && cache == map[]
    {
      cache := map[];
    }

    /** Shrinks the cache by the entries used longest ago, and by no more than needed. */
    method SetCacheSize(max: nat)
      requires Valid()
      modifies this`disk, this`cache, this`maxCache
      ensures Valid() && |disk| == |old(disk)| && Plain() == old(Plain()) && maxCache == max
      ensures |cache| == (if |old(cache)| > max then max else |old(cache)|) && Newest(old(cache), cache)
    {
      hide Oldest, Newest, ClearBits;
      maxCache := max;
      AllNewest(cache);
      while |cache| > max
        invariant Valid() && |disk| == |old(disk)| && Plain() == old(Plain()) && Newest(old(cache), cache)
        invariant (|cache| >= max || cache == old(cache)) && maxCache == max
        decreases |cache|
      {
        ghost var before, was := disk, cache;
        EvictLru();
        NewestEvicted(old(cache), was, cache);
        FromPlain(before, Plain());
      }
    }

    /** A part of the cache, and no entry in it is older than one left out. */
    static ghost predicate Newest(was: map<nat, CacheEntry>, now: map<nat, CacheEntry>) {
      && (forall b :: b in now ==> b in was && now[b] == was[b])
      && forall b, v :: b in now && v in was && v !in now ==> was[v].lastAccess <= was[b].lastAccess
    }

    static lemma AllNewest(was: map<nat, CacheEntry>)
      ensures Newest(was, was)
    {
    }

    static lemma NewestEvicted(was: map<nat, CacheEntry>, mid: map<nat, CacheEntry>, now: map<nat, CacheEntry>)
      requires Newest(was, mid) && mid != map[] && exists v: nat :: Oldest(mid, v) && now == mid - {v}
      ensures Newest(was, now) && |now| == |mid| - 1
    {
      var v: nat :| Oldest(mid, v) && now == mid - {v};
      assert now.Keys == mid.Keys - {v} && |now| == |now.Keys| && |mid| == |mid.Keys|;
    }
  }

  /** What was written to the first free block is read back after the block has been allocated,
      although allocBlock clears it: the cache still has the old data. */
  method StaleRead(d: Driver, b: nat, data: Block) returns (r: Block)
    requires d.Valid() && b in d.Free() && b > 0 && forall i :: i in d.Free() ==> b <= i
    requires Padded(data, d.blockSize) != Zeros(d.blockSize)
    modifies d
    ensures b < |d.disk| && d.disk[b] == Zeros(d.blockSize) && d.bitmap == old(d.bitmap)[b := true]
    ensures r == Padded(data, d.blockSize) && !d.Coherent()
  {
    var ok := d.WriteBlock(b, data);
    var got := d.AllocBlock();
    r := d.ReadCached(b);
  }
}
