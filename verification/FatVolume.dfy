/** The FAT16 driver of kernel/src/fat16.cpp as the operations of one mounted volume. The disk
    is an array of sectors whose reads and writes succeed. The state is the FAT in memory, the
    disk and the shared sector buffer `dma`; `layout` is the witness of the invariant. */
module FatVolume {
  import opened Collections
  import opened FatTypes
  import opened FatSpec
  import opened FatSteps
  import opened FatImage
  import opened FatNames
  import opened FatWriting
  import opened FatOps
  import opened FatEntries
  import opened FatReading

  /** A chain as free_chain walks it. */
  ghost predicate IsChain(fat: seq<nat>, start: nat, cs: seq<nat>) {
    && NoDup(cs) && (forall i :: 0 <= i < |cs| ==> 2 <= cs[i] < |fat|)
    && (forall i, j :: 0 <= i && j == i + 1 && j < |cs| ==> fat[cs[i]] == cs[j])
    && (if cs == [] then start < 2 else cs[0] == start && END_MARK <= fat[cs[|cs| - 1]])
  }

  /** The walk along cs stands at position i. */
  ghost predicate Walking(fat: seq<nat>, cs: seq<nat>, i: nat, cluster: nat) {
    && i <= |cs|
    && if i < |cs| then cluster == cs[i] && 2 <= cluster < |fat| && cluster < END_MARK
       else cluster < 2 || END_MARK <= cluster
  }

  lemma WalkStart(fat: seq<nat>, start: nat, cs: seq<nat>)
    requires IsChain(fat, start, cs) && |fat| <= MAX_FAT_ENTRIES
    ensures Walking(fat, cs, 0, start)
  {
  }

  lemma FatSmall(g: Geometry, v: Vol)
    requires SizesOk(g, v)
    ensures |v.fat| <= MAX_FAT_ENTRIES && g.spc >= 1
  {
  }

  lemma WalkEnd(fat: seq<nat>, cs: seq<nat>, i: nat, cluster: nat)
    requires Walking(fat, cs, i, cluster) && !(2 <= cluster < END_MARK)
    ensures i == |cs|
  {
  }

  /** The position of the i-th cluster's first sector in a chain. */
  function Start(g: Geometry, i: nat): nat { i * g.spc }

  lemma StartAt(g: Geometry, cs: seq<nat>, i: nat)
    requires i <= |cs|
    ensures Start(g, i) == |Sectors(g, cs[..i])|
  {
    SectorsLen(g, cs[..i]);
  }

  lemma StartNext(g: Geometry, i: nat)
    ensures Start(g, i + 1) == Start(g, i) + g.spc
  {
  }

  lemma StartEnds(g: Geometry, cs: seq<nat>)
    ensures Start(g, 0) == 0 && Start(g, |cs|) == |Sectors(g, cs)|
  {
    SectorsLen(g, cs);
  }

  /** The scan goes on from slot a to slot b. */
  ghost predicate Skips(es: seq<Entry>, key: Bytes, a: nat, b: nat) { Find(es, key, a) == Find(es, key, b) }

  ghost predicate Finds(es: seq<Entry>, key: Bytes, a: nat, k: int) { Find(es, key, a) == k }

  lemma SkipsNone(es: seq<Entry>, key: Bytes)
    ensures Skips(es, key, 0, 0)
  {
  }

  lemma FindEnd(es: seq<Entry>, key: Bytes, a: nat)
    requires Skips(es, key, a, |es|)
    ensures Finds(es, key, a, -1)
  {
  }

  lemma ChainIsChain(g: Geometry, v: Vol, L: Layout, f: nat)
    requires Shape(g, v, L) && IsRegion(L, f)
    ensures IsChain(v.fat, f, Chain(L, f))
  {
    if f in L.chains {
      ChainsApart(g, v, L, f, f);
      assert ChainOk(v.fat, L.own, f, L.chains[f]);
    }
  }

  /** alloc_cluster ignores the number of clusters on the disk: the lowest free entry of the FAT names
      a cluster on a disk of n sectors exactly if some free entry does. With only spare entries
      free it hands out a cluster past the end. */
  lemma AllocOnDiskIff(g: Geometry, fat: seq<nat>, n: nat, c: nat)
    requires c in FreeClusters(fat) && forall d :: d in FreeClusters(fat) ==> c <= d
    ensures c in OnDisk(g, FreeClusters(fat), n) <==> OnDisk(g, FreeClusters(fat), n) != {}
  {
    hide FreeClusters, Lba;
    if d :| d in OnDisk(g, FreeClusters(fat), n) { LbaGrows(g, c, d); }
  }

  datatype UnlinkOutcome = Missing | Forbidden | Removed

  datatype ReadOutcome = NotFound | Broken | Data(bytes: Bytes)

  datatype WriteOutcome = Written | Refused | DiskFull | DirectoryFull

  /** The slot k is number `index` of the sector `sector` of a directory. */
  ghost predicate Located(ds: seq<int>, k: int, sector: nat, index: nat) {
    0 <= k < 16 * |ds| && sector == ds[k / 16] && index == k % 16
  }

  lemma LocatedAt(ds: seq<int>, at: nat, sector: nat, index: nat)
    requires at < |ds| && ds[at] == sector && index < 16
    ensures Located(ds, 16 * at + index, sector, index)
  {
    assert (16 * at + index) / 16 == at;
  }

  lemma LocatedEntry(g: Geometry, v: Vol, L: Layout, d: nat, k: int, sector: nat, index: nat)
    requires Shape(g, v, L) && d in L.dirs && Located(Home(g, L, d), k, sector, index)
    ensures k >= 0 && InTable(g, v, L, d, k) && RootLba(g) <= sector < |v.disk| && index < 16
    ensures Table(g, v, L, d)[k] == EntryAt(v.disk[sector], index)
  {
    hide Home, NoDup, Slots, SizesOk, ChainsOk;
    RegionOk(g, v, L, d);
    SlotsAt(v.disk, Home(g, L, d), k / 16, k % 16);
  }

  lemma SubdirectoryFacts(g: Geometry, v: Vol, L: Layout, d: nat)
    requires Inv(g, v, L) && d in L.dirs && d != 0
    ensures Shape(g, v, L) && SizesOk(g, v) && Chain(L, d) != [] && IsChain(v.fat, d, Chain(L, d))
    ensures Home(g, L, d) == Sectors(g, Chain(L, d)) && Table(g, v, L, d) == Slots(v.disk, Home(g, L, d))
  {
    hide TablesOk;
    ChainIsChain(g, v, L, d);
  }

  lemma NoneChecked(es: seq<Entry>)
    ensures AllUsed(es, 0)
  {
  }

  lemma FirstZero(es: seq<Entry>, n: nat)
    requires AllUsed(es, |es|) && n > 0
    ensures FirstFree(es + ZeroEntries(n), |es|)
  {
    assert !Used((es + ZeroEntries(n))[|es|]) by { assert (es + ZeroEntries(n))[|es|] == ZeroEntries(n)[0]; }
  }

  lemma NotExtended(g: Geometry, v: Vol, L: Layout, d: nat)
    ensures Extended(g, v, L, v, L, d, 0)
  {
  }

  /** A scan for an unused slot finds one exactly if there is one. */
  lemma ScanResult(disk: seq<Sector>, ds: seq<int>, found: bool, k: int)
    requires if found then FirstFree(Slots(disk, ds), k) else AllUsed(Slots(disk, ds), 16 * |ds|)
    ensures found <==> HasUnused(Slots(disk, ds))
  {
    hide EntryAt;
  }

  lemma FindNone(g: Geometry, v: Vol, L: Layout, d: nat, key: Bytes)
    requires Inv(g, v, L) && d in L.dirs && SlotOf(g, v, L, d, key) < 0
    ensures SlotOf(g, v, L, d, key) == -1
    ensures Clusters(g, v, L, d, key) == [] && !NamesDirectory(g, v, L, d, key)
    ensures !CannotModify(g, v, L, d, key) && !CannotDelete(g, v, L, d, key)
  {
    SlotFound(g, v, L, d, key, -1);
  }

  /** What is known of the entry that lookup found, if it is not a directory. */
  lemma EntryChain(g: Geometry, v: Vol, L: Layout, d: nat, key: Bytes, k: nat)
    requires Inv(g, v, L) && InTable(g, v, L, d, k) && SlotOf(g, v, L, d, key) == k && !NamesDirectory(g, v, L, d, key)
    ensures var e := Table(g, v, L, d)[k];
            && FileEntry(e) && IsChain(v.fat, First(e), Chain(L, First(e))) && |v.fat| <= MAX_FAT_ENTRIES
            && (First(e) < 2 ==> Chain(L, First(e)) == [])
            && Clusters(g, v, L, d, key) == Chain(L, First(e))
            && (CannotModify(g, v, L, d, key) <==> ModifyProtected(e))
            && (CannotDelete(g, v, L, d, key) <==> DeleteProtected(e))
  {
    var e := Table(g, v, L, d)[k];
    SlotFound(g, v, L, d, key, k);
    EntryHere(g, v, L, d, k);
    hide Table, TablesOk;
    assert IsRegion(L, First(e));
    ChainIsChain(g, v, L, First(e));
  }

  class Volume {
    const g: Geometry
    const fat: array<nat>
    const disk: array<Sector>
    var dma: Sector
    ghost var layout: Layout

    ghost function V(): Vol
      reads fat, disk
    {
      Vol(fat[..], disk[..])
    }

    ghost predicate Valid()
      reads this, fat, disk
    {
      Inv(g, V(), layout) && Synced(g, V())
    }

    ghost function Contained(): imap<FileName, Bytes>
      reads this, fat, disk
    {
      Files(g, V(), layout)
    }

    /** The entry of every name of every directory. */
    ghost function Listing(): imap<FileName, Entry>
      reads this, fat, disk
    {
      Entries(g, V(), layout)
    }

    /** init: reads the FAT from its first copy. */
    constructor (geo: Geometry, d: array<Sector>, ghost L: Layout)
      requires Inv(geo, Vol(LoadFat(geo, d[..]), d[..]), L)
      ensures Valid() && fresh(fat) && disk == d && g == geo && layout == L
      ensures fat[..] == LoadFat(geo, d[..])
    {
      g, disk, dma, layout := geo, d, Zeros(512), L;
      var total := if geo.fatSize * 256 > MAX_FAT_ENTRIES then MAX_FAT_ENTRIES else geo.fatSize * 256;
      var table := new nat[total];
      fat := table;
      new;
      var s := 0;
      while s < geo.fatSize && 256 * s < total
        invariant 0 <= s <= geo.fatSize && fat == table && d[..] == old(d[..]) && layout == L
        invariant fat[..256 * s] == LoadFat(geo, d[..])[..256 * s]
      {
        LoadFatSector(s);
        s := s + 1;
      }
      assert fat[..256 * s] == fat[..] && LoadFat(geo, d[..])[..256 * s] == LoadFat(geo, d[..]);
    }

    method LoadFatSector(s: nat)
      requires GeoOk(g) && fat.Length == Total(g) && s < g.fatSize && RootLba(g) <= disk.Length
      requires fat[..256 * s] == LoadFat(g, disk[..])[..256 * s]
      modifies this`dma, fat
      ensures fat[..256 * (s + 1)] == LoadFat(g, disk[..])[..256 * (s + 1)]
    {
      hide LoadFat, Word, RootLba, CopyLba;
      ghost var image := LoadFat(g, disk[..]);
      CopyBelowRoot(g, 0, s);
      dma := disk[g.reserved + s];
      var i := 0;
      while i < 256 && 256 * s + i < fat.Length
        invariant 0 <= i <= 256 && fat[..256 * s + i] == image[..256 * s + i] && dma == disk[g.reserved + s]
        invariant disk[..] == old(disk[..])
      {
        WordRead(g, disk[..], s, i);
        var entry := 256 * s + i;
        fat[entry] := Word(dma, i);
        assert fat[..entry + 1] == image[..entry] + [image[entry]];
        i := i + 1;
      }
    }

    // ---- The FAT --------------------------------------------------------------------------------

    /** Takes the lowest free cluster; 0 exactly when there is none. */
    method AllocCluster() returns (c: nat)
      requires |fat[..]| <= MAX_FAT_ENTRIES
      modifies fat
      ensures c == 0 ==> fat[..] == old(fat[..]) && forall i :: 2 <= i < fat.Length ==> fat[i] != FREE_CLUSTER
      ensures c != 0 ==> 2 <= c < fat.Length && old(fat[c]) == FREE_CLUSTER && fat[..] == old(fat[..])[c := END_OF_CHAIN]
      ensures c != 0 ==> forall i :: 2 <= i < c ==> old(fat[i]) != FREE_CLUSTER
    {
      var i := 2;
      while i < fat.Length
        invariant 2 <= i && fat[..] == old(fat[..])
        invariant forall j :: 2 <= j < i && j < fat.Length ==> fat[j] != FREE_CLUSTER
      {
        if fat[i] == FREE_CLUSTER {
          fat[i] := END_OF_CHAIN;
          return i;
        }
        i := i + 1;
      }
      return 0;
    }

    /** Frees the clusters of a chain and no others. */
    method FreeChain(start: nat, ghost cs: seq<nat>)
      requires fat.Length <= MAX_FAT_ENTRIES && IsChain(fat[..], start, cs)
      modifies fat
      ensures fat[..] == Zeroed(old(fat[..]), cs)
    {
      var cluster := start;
      ghost var i := 0;
      while 2 <= cluster < END_MARK
        invariant 0 <= i <= |cs|
        invariant if i < |cs| then cluster == cs[i] else cluster < 2 || END_MARK <= cluster
        invariant forall c :: 0 <= c < fat.Length ==> fat[c] == if c in cs[..i] then FREE_CLUSTER else old(fat[c])
        decreases |cs| - i
      {
        assert cs[i] !in cs[..i];
        var next := fat[cluster];
        fat[cluster] := FREE_CLUSTER;
        cluster := next;
        assert cs[..i + 1] == cs[..i] + [cs[i]];
        i := i + 1;
      }
      assert cs[..i] == cs;
    }

    /** Writes the FAT to all its copies and touches nothing else. */
    method FlushFat()
      requires SizesOk(g, V())
      modifies this`dma, disk
      ensures Synced(g, V()) && AgreeOff(g, old(disk[..]), disk[..], [])
      ensures forall f, s :: 0 <= f < g.numFats && 0 <= s < g.fatSize ==> CopyOk(g, fat[..], disk[..], f, s)
    {
      var s := 0;
      while s < g.fatSize
        invariant 0 <= s <= g.fatSize && AgreeOff(g, old(disk[..]), disk[..], []) && SizesOk(g, V())
        invariant CopiesOk(g, V(), s)
      {
        FillFatSector(s);
        WriteCopies(s);
        s := s + 1;
      }
      FlushedIsSynced(g, V());
    }

    method WriteCopies(s: nat)
      requires SizesOk(g, V()) && s < g.fatSize && dma == FatSector(fat[..], s) && CopiesOk(g, V(), s)
      modifies disk
      ensures SizesOk(g, V()) && AgreeOff(g, old(disk[..]), disk[..], [])
      ensures CopiesOk(g, V(), s + 1)
    {
      var f := 0;
      while f < g.numFats
        invariant 0 <= f <= g.numFats && AgreeOff(g, old(disk[..]), disk[..], []) && SizesOk(g, V())
        invariant CopiesOk(g, V(), s)
        invariant forall e :: 0 <= e < f ==> CopyOk(g, fat[..], disk[..], e, s)
      {
        PutCopy(f, s);
        f := f + 1;
      }
    }

    method FillFatSector(s: nat)
      requires SizesOk(g, V()) && s < g.fatSize
      modifies this`dma
      ensures dma == FatSector(fat[..], s)
    {
      ghost var want := FatSector(fat[..], s);
      var i := 0;
      while i < 256
        invariant 0 <= i <= 256
        invariant forall b :: 0 <= b < 2 * i ==> dma[b] == want[b]
      {
        SectorBytes(fat[..], s, i);
        hide FatSector;
        var w := fat[256 * s + i];
        dma := dma[2 * i := (w % 256) as Byte][2 * i + 1 := (w / 256) as Byte];
        i := i + 1;
      }
    }

    method PutCopy(f: nat, s: nat)
      requires SizesOk(g, V()) && f < g.numFats && s < g.fatSize && dma == FatSector(fat[..], s)
      modifies disk
      ensures AgreeOff(g, old(disk[..]), disk[..], [])
      ensures CopyOk(g, fat[..], disk[..], f, s)
      ensures forall e, t :: 0 <= e < g.numFats && 0 <= t < g.fatSize && (e != f || t != s) ==>
                (CopyOk(g, fat[..], old(disk[..]), e, t) ==> CopyOk(g, fat[..], disk[..], e, t))
    {
      CopyBelowRoot(g, f, s);
      CopyPut(g, V(), f, s);
      hide SizesOk, FatSector, CopyLba, CopyOk;
      disk[CopyLba(g, f, s)] := dma;
    }

    // ---- Directories ----------------------------------------------------------------------------

    /** Looks for a name in one sector: its index, 16 when the scan goes on, -1 when it stops. */
    method ScanSector(x: nat, name: Bytes, ghost es: seq<Entry>, ghost b: nat) returns (r: int)
      requires x < disk.Length && Lacks(name, 0) && b + 16 <= |es|
      requires es[b..b + 16] == SectorSlots(disk[x]) && Skips(es, UpperAll(name), 0, b)
      modifies this`dma
      ensures -1 <= r <= 16
      ensures r == 16 ==> Skips(es, UpperAll(name), 0, b + 16)
      ensures r < 16 ==> Finds(es, UpperAll(name), 0, if r == -1 then -1 else b + r)
    {
      dma := disk[x];
      var i := 0;
      while i < 16
        invariant 0 <= i <= 16 && dma == disk[x]
        invariant Skips(es, UpperAll(name), 0, b + i)
      {
        var e := EntryAt(dma, i);
        assert es[b..b + 16][i] == e;
        if e[0] == 0 { return -1; }
        if e[0] != DELETED && Attr(e) % 16 == 0 {
          var same := MatchFilename(e, name);
          if same { return i; }
        }
        i := i + 1;
      }
      return 16;
    }

    /** n sectors from lba on are the sectors of a directory from its j-th on. */
    ghost predicate IsRun(lba: nat, n: nat, ds: seq<int>, j: nat)
      reads disk
    {
      j + n <= |ds| && lba + n <= disk.Length && ds[j..j + n] == Run(lba, n)
    }

    method ScanRun(lba: nat, n: nat, name: Bytes, ghost ds: seq<int>, ghost j: nat)
      returns (stop: bool, found: bool, sector: nat, index: nat, ghost k: int)
      requires Lacks(name, 0) && IsRun(lba, n, ds, j) && Skips(Slots(disk[..], ds), UpperAll(name), 0, 16 * j)
      modifies this`dma
      ensures !stop ==> Skips(Slots(disk[..], ds), UpperAll(name), 0, 16 * (j + n))
      ensures stop ==> Finds(Slots(disk[..], ds), UpperAll(name), 0, k) && (found <==> k >= 0)
      ensures stop && found ==> Located(ds, k, sector, index)
    {
      hide Skips, Finds, Slots, SectorSlots, Located;
      ghost var es, key := Slots(disk[..], ds), UpperAll(name);
      var s := 0;
      while s < n
        invariant 0 <= s <= n
        invariant Skips(es, key, 0, 16 * (j + s))
      {
        ghost var at := j + s;
        assert ds[j..j + n][s] == lba + s;
        SlotsOfSector(disk[..], ds, at);
        var r := ScanSector(lba + s, name, es, 16 * at);
        if r == -1 { return true, false, 0, 0, -1; }
        if r < 16 {
          LocatedAt(ds, at, lba + s, r);
          return true, true, lba + s, r, 16 * at + r;
        }
        s := s + 1;
      }
      return false, false, 0, 0, -1;
    }

    /** Looks a name up: finds its slot exactly when a visible entry has that name. */
    method FindDirEntry(dir: nat, name: Bytes) returns (found: bool, sector: nat, index: nat, ghost k: int)
      requires Inv(g, V(), layout) && dir in layout.dirs && Lacks(name, 0)
      modifies this`dma
      ensures k == Find(Table(g, V(), layout, dir), UpperAll(name), 0) && (found <==> k >= 0)
      ensures found ==> Located(Home(g, layout, dir), k, sector, index)
    {
      if dir == 0 {
        ghost var ds := Home(g, layout, 0);
        assert ds[..RootCount(g)] == ds;
        var stop;
        stop, found, sector, index, k := ScanRun(RootLba(g), RootCount(g), name, ds, 0);
        if !stop { found, k := false, -1; FindEnd(Slots(disk[..], ds), UpperAll(name), 0); }
      } else {
        ChainIsChain(g, V(), layout, dir);
        found, sector, index, k := FindInChain(dir, name, layout.chains[dir]);
      }
    }

    method FindInChain(dir: nat, name: Bytes, ghost cs: seq<nat>) returns (found: bool, sector: nat, index: nat, ghost k: int)
      requires SizesOk(g, V()) && Lacks(name, 0) && cs != [] && IsChain(fat[..], dir, cs)
      modifies this`dma
      ensures Finds(Slots(disk[..], Sectors(g, cs)), UpperAll(name), 0, k) && (found <==> k >= 0)
      ensures found ==> Located(Sectors(g, cs), k, sector, index)
    {
      hide SizesOk, Skips, Finds, Slots, Sectors, Located, IsChain, IsRun, Lba, Walking, Start;
      ghost var es, key := Slots(disk[..], Sectors(g, cs)), UpperAll(name);
      ghost var i: nat := 0;
      StartEnds(g, cs);
      SkipsNone(es, key);
      FatSmall(g, V());
      var cluster: nat := dir;
      WalkStart(fat[..], dir, cs);
      while 2 <= cluster < END_MARK
        invariant Walking(fat[..], cs, i, cluster) && Skips(es, key, 0, 16 * Start(g, i))
        decreases |cs| - i
      {
        var stop;
        ClusterRun(cs, i, cluster);
        stop, found, sector, index, k := ScanRun(Lba(g, cluster), g.spc, name, Sectors(g, cs), Start(g, i));
        if stop { return; }
        cluster, i := NextCluster(dir, cs, i, cluster);
      }
      WalkEnd(fat[..], cs, i, cluster);
      StartEnds(g, cs);
      FindEnd(es, key, 0);
      return false, 0, 0, -1;
    }

    /** Follows one link of a chain. */
    method NextCluster(ghost start: nat, ghost cs: seq<nat>, ghost i: nat, cluster: nat) returns (next: nat, ghost j: nat)
      requires IsChain(fat[..], start, cs) && Walking(fat[..], cs, i, cluster) && i < |cs| && fat.Length <= MAX_FAT_ENTRIES
      ensures j == i + 1 && Walking(fat[..], cs, j, next)
    {
      j := i + 1;
      assert j < |cs| ==> fat[..][cs[i]] == cs[j];
      next := fat[cluster];
    }

    /** The i-th cluster of a chain is a run of the chain's sectors. */
    lemma ClusterRun(cs: seq<nat>, i: nat, cluster: nat)
      requires SizesOk(g, V()) && Walking(fat[..], cs, i, cluster) && 2 <= cluster < END_MARK
      ensures i < |cs| && 0 <= Lba(g, cluster)
      ensures IsRun(Lba(g, cluster), g.spc, Sectors(g, cs), Start(g, i))
      ensures Start(g, i + 1) == Start(g, i) + g.spc
    {
      hide Sectors, Start;
      SectorsAt(g, cs, i);
      StartAt(g, cs, i);
      StartNext(g, i);
      ClustersApart(g, cs[i], cs[i], Lba(g, cs[i]));
    }

    /** The first slot of a sector that is not used, 16 when all are. */
    method FreeInSector(x: nat, ghost es: seq<Entry>, ghost b: nat) returns (r: nat)
      requires x < disk.Length && b + 16 <= |es| && es[b..b + 16] == SectorSlots(disk[x]) && AllUsed(es, b)
      modifies this`dma
      ensures r <= 16 && AllUsed(es, b + r) && (r < 16 ==> !Used(es[b + r]))
    {
      dma := disk[x];
      r := 0;
      while r < 16
        invariant 0 <= r <= 16 && dma == disk[x] && AllUsed(es, b + r)
      {
        var e := EntryAt(dma, r);
        assert es[b..b + 16][r] == e;
        if e[0] == 0 || e[0] == DELETED { return; }
        r := r + 1;
      }
    }

    method FreeInRun(lba: nat, n: nat, ghost ds: seq<int>, ghost j: nat)
      returns (found: bool, sector: nat, index: nat, ghost k: int)
      requires IsRun(lba, n, ds, j) && AllUsed(Slots(disk[..], ds), 16 * j)
      modifies this`dma
      ensures !found ==> AllUsed(Slots(disk[..], ds), 16 * (j + n))
      ensures found ==> Located(ds, k, sector, index) && FirstFree(Slots(disk[..], ds), k)
    {
      hide Slots, SectorSlots, Located, AllUsed;
      ghost var es := Slots(disk[..], ds);
      var s := 0;
      while s < n
        invariant 0 <= s <= n && AllUsed(es, 16 * (j + s))
      {
        ghost var at := j + s;
        assert ds[j..j + n][s] == lba + s;
        SlotsOfSector(disk[..], ds, at);
        var r := FreeInSector(lba + s, es, 16 * at);
        if r < 16 {
          LocatedAt(ds, at, lba + s, r);
          return true, lba + s, r, 16 * at + r;
        }
        s := s + 1;
      }
      return false, 0, 0, -1;
    }

    method FreeInChain(dir: nat, ghost cs: seq<nat>)
      returns (found: bool, sector: nat, index: nat, last: nat, ghost k: int)
      requires SizesOk(g, V()) && cs != [] && IsChain(fat[..], dir, cs)
      modifies this`dma
      ensures !found ==> AllUsed(Slots(disk[..], Sectors(g, cs)), 16 * |Sectors(g, cs)|) && last == cs[|cs| - 1]
      ensures found ==> Located(Sectors(g, cs), k, sector, index) && FirstFree(Slots(disk[..], Sectors(g, cs)), k)
    {
      hide SizesOk, FirstFree, Slots, Sectors, IsRun, Located, Lba, Start;
      ghost var ds, i: nat := Sectors(g, cs), 0;
      var cluster: nat := dir;
      StartEnds(g, cs);
      FatSmall(g, V());
      WalkStart(fat[..], dir, cs);
      found, sector, index, last, k := false, 0, 0, dir, -1;
      while 2 <= cluster < END_MARK
        invariant Walking(fat[..], cs, i, cluster)
        invariant i > 0 ==> last == cs[i - 1]
        invariant AllUsed(Slots(disk[..], ds), 16 * Start(g, i))
        decreases |cs| - i
      {
        ClusterRun(cs, i, cluster);
        found, sector, index, k := FreeInRun(Lba(g, cluster), g.spc, ds, Start(g, i));
        if found { return; }
        last := cluster;
        cluster, i := NextCluster(dir, cs, i, cluster);
      }
      StartEnds(g, cs);
      return false, 0, 0, last, -1;
    }

    /** Fills n sectors with zeros. */
    method ZeroSectors(lba: nat, n: nat)
      requires lba + n <= disk.Length
      modifies this`dma, disk
      ensures forall x :: 0 <= x < disk.Length ==> disk[x] == if lba <= x < lba + n then Zeros(512) else old(disk[x])
    {
      dma := Zeros(512);
      var s := 0;
      while s < n
        invariant 0 <= s <= n && dma == Zeros(512)
        invariant forall x :: 0 <= x < disk.Length ==> disk[x] == if lba <= x < lba + s then Zeros(512) else old(disk[x])
      {
        disk[lba + s] := dma;
        s := s + 1;
      }
    }

    method ClearCluster(c: nat)
      requires SizesOk(g, V()) && 2 <= c < fat.Length
      modifies this`dma, disk
      ensures AgreeOff(g, old(disk[..]), disk[..], ClusterSectors(g, c)) && ZeroCluster(g, disk[..], c)
      ensures forall x :: 0 <= x < disk.Length && x < RootLba(g) ==> disk[x] == old(disk[x])
    {
      ClustersApart(g, c, c, Lba(g, c));
      ZeroSectors(Lba(g, c), g.spc);
      forall x | RootLba(g) <= x < disk.Length && x !in ClusterSectors(g, c) ensures disk[x] == old(disk[x]) {
        InClusterSectors(g, c, x);
      }
    }

    /** Takes a cluster and links it after the chain cs, whose last cluster is prev (0: none). */
    method LinkCluster(prev: nat, ghost cs: seq<nat>) returns (c: nat)
      requires SizesOk(g, V()) && (if cs == [] then prev == 0 else prev == cs[|cs| - 1] && 2 <= prev < fat.Length)
      modifies fat
      ensures c == 0 ==> fat[..] == old(fat[..]) && FreeClusters(fat[..]) == {}
      ensures c != 0 ==> 2 <= c < fat.Length && old(fat[c]) == FREE_CLUSTER && fat[..] == Linked(old(fat[..]), cs, c)
      ensures c != 0 <==> FreeClusters(old(fat[..])) != {}
      ensures c != 0 ==> c in FreeClusters(old(fat[..])) && forall d :: d in FreeClusters(old(fat[..])) ==> c <= d
    {
      c := AllocCluster();
      assert c != 0 ==> c in FreeClusters(old(fat[..]));
      if c != 0 && prev != 0 { fat[prev] := c; }
    }

    /** Adds a cluster to a directory without a slot to spare. */
    method ExtendDir(dir: nat, prev: nat) returns (ok: bool, sector: nat, ghost c: nat)
      requires Shape(g, V(), layout) && Synced(g, V()) && dir in layout.dirs && dir != 0
      requires Chain(layout, dir) != [] && prev == Chain(layout, dir)[|Chain(layout, dir)| - 1]
      modifies this, fat, disk
      ensures Synced(g, V()) && Extended(g, old(V()), old(layout), V(), layout, dir, c)
      ensures ok <==> c != 0
      ensures ok <==> FreeClusters(old(fat[..])) != {}
      ensures ok ==> sector == Lba(g, c)
    {
      hide Synced, ChainsOk, NamesOk, Linked, AgreeOff, ZeroCluster, FreeClusters;
      ghost var v, L := V(), layout;
      LastInRange(g, v, L, dir);
      var cluster := LinkCluster(prev, Chain(layout, dir));
      c := cluster;
      if cluster == 0 { return false, 0, 0; }
      AppendShape(g, v, L, dir, c, v.disk);
      FlushFat();
      ghost var flushed := disk[..];
      ClustersApart(g, c, c, Lba(g, c));
      ok, sector := true, Lba(g, cluster);
      ClearCluster(cluster);
      AgreeTwice(g, v.disk, flushed, disk[..], ClusterSectors(g, c));
      layout := Appended(layout, dir, c);
      SyncedFrame(g, fat[..], flushed, disk[..]);
    }

    /** Finds a slot for a new entry; extends a full subdirectory by one cluster. */
    method FindFreeDirEntry(dir: nat) returns (ok: bool, sector: nat, index: nat, ghost k: int, ghost c: nat)
      requires Valid() && dir in layout.dirs
      modifies this, fat, disk
      ensures Valid() && Extended(g, old(V()), old(layout), V(), layout, dir, c)
      ensures ok <==> HasSlot(g, old(V()), old(layout), dir)
      ensures c != 0 <==> ok && !HasUnused(Table(g, old(V()), old(layout), dir))
      ensures dir == 0 || !ok ==> c == 0
      ensures ok ==> Located(Home(g, layout, dir), k, sector, index) && FirstFree(Table(g, V(), layout, dir), k)
    {
      if dir == 0 {
        ok, sector, index, k := FindFreeInRoot();
        c := 0;
      } else {
        ok, sector, index, k, c := FindFreeInSubdirectory(dir);
      }
    }

    method FindFreeInRoot() returns (ok: bool, sector: nat, index: nat, ghost k: int)
      requires Inv(g, V(), layout) && 0 in layout.dirs
      modifies this`dma
      ensures ok <==> HasUnused(Table(g, V(), layout, 0))
      ensures ok ==> Located(Home(g, layout, 0), k, sector, index) && FirstFree(Table(g, V(), layout, 0), k)
    {
      hide TablesOk, ChainsOk, Slots, FirstFree, AllUsed, HasUnused;
      ghost var ds := Home(g, layout, 0);
      assert ds[..RootCount(g)] == ds;
      NoneChecked(Slots(disk[..], ds));
      ok, sector, index, k := FreeInRun(RootLba(g), RootCount(g), ds, 0);
      ScanResult(disk[..], ds, ok, k);
    }

    method FindFreeInSubdirectory(dir: nat) returns (ok: bool, sector: nat, index: nat, ghost k: int, ghost c: nat)
      requires Valid() && dir in layout.dirs && dir != 0
      modifies this, fat, disk
      ensures Valid() && Extended(g, old(V()), old(layout), V(), layout, dir, c)
      ensures ok <==> HasUnused(Table(g, old(V()), old(layout), dir)) || FreeClusters(old(fat[..])) != {}
      ensures c != 0 <==> ok && !HasUnused(Table(g, old(V()), old(layout), dir))
      ensures ok ==> Located(Home(g, layout, dir), k, sector, index) && FirstFree(Table(g, V(), layout, dir), k)
    {
      hide Inv, Shape, Synced, SizesOk, IsChain, Home, Sectors, Table, FreeClusters, Slots, FirstFree, AllUsed, HasUnused, Extended, Located, Lba;
      c := 0;
      ghost var v, L := V(), layout;
      SubdirectoryFacts(g, v, L, dir);
      var last;
      ok, sector, index, last, k := FreeInChain(dir, Chain(layout, dir));
      ScanResult(disk[..], Home(g, L, dir), ok, k);
      NotExtended(g, v, L, dir);
      if !ok {
        index := 0;
        ok, sector, c := ExtendDir(dir, last);
        ExtendedInv(g, v, L, V(), layout, dir, c);
        if ok {
          k := 16 * |Home(g, L, dir)|;
          FullExtension(g, v, L, V(), layout, dir, c);
        }
      }
    }

    lemma FullExtension(g: Geometry, v: Vol, L: Layout, v': Vol, L': Layout, d: nat, c: nat)
      requires Inv(g, v, L) && Extended(g, v, L, v', L', d, c) && c != 0 && 0 <= Lba(g, c) && !HasUnused(Table(g, v, L, d))
      ensures var k := 16 * |Home(g, L, d)|;
              Located(Home(g, L', d), k, Lba(g, c), 0) && FirstFree(Table(g, v', L', d), k)
    {
      hide Inv, Table;
      ExtensionSlot(g, v, L, v', L', d, c);
    }

    lemma ExtensionSlot(g: Geometry, v: Vol, L: Layout, v': Vol, L': Layout, d: nat, c: nat)
      requires Inv(g, v, L) && Extension(g, v, L, v', L', d, c) && 0 <= Lba(g, c)
      requires AllUsed(Table(g, v, L, d), |Table(g, v, L, d)|)
      ensures var k := 16 * |Home(g, L, d)|;
              Located(Home(g, L', d), k, Lba(g, c), 0) && FirstFree(Table(g, v', L', d), k)
    {
      hide Inv, Slots, Lba, Home, Located, FirstFree, AllUsed, Appended, Linked, AppendDisk, Shape;
      InvSizes(g, v, L);
      FatSmall(g, v);
      AppendTable(g, v, L, d, c, v'.disk, d);
      AppendHome(g, v, L, d, c, d);
      FirstZero(Table(g, v, L, d), 16 * g.spc);
      LocatedAt(Home(g, L', d), |Home(g, L, d)|, Lba(g, c), 0);
    }

    // ---- Writing --------------------------------------------------------------------------------

    method FillBuffer(data: Bytes, n: nat, count: nat)
      requires count <= 512 && n + count <= |data|
      modifies this`dma
      ensures dma == data[n..n + count] + Zeros(512 - count)
    {
      dma := Zeros(512);
      var b := 0;
      while b < count
        invariant 0 <= b <= count && dma == data[n..n + b] + Zeros(512 - b)
      {
        dma := dma[b := data[n + b]];
        b := b + 1;
      }
    }

    /** Fills one cluster with the data from byte n on, the rest of the last sector with zeros. */
    method WriteCluster(c: nat, data: Bytes, n: nat) returns (m: nat)
      requires SizesOk(g, V()) && 2 <= c < fat.Length && n < |data|
      modifies this`dma, disk
      ensures Filled(g, old(disk[..]), disk[..], c, data, n, m) && n < m
    {
      ClustersApart(g, c, c, Lba(g, c));
      var lba := Lba(g, c);
      assert lba + g.spc <= disk.Length && g.spc > 0;
      hide SizesOk, Lba, Contents, StartsWith;
      m := n;
      StartsWithNone(Contents(disk[..], Run(lba, 0)), data, n);
      var s := 0;
      while s < g.spc && m < |data|
        invariant 0 <= s <= g.spc && n <= m <= |data| && (s > 0 ==> n < m)
        invariant AgreeOff(g, old(disk[..]), disk[..], Run(lba, g.spc))
        invariant m < |data| ==> m - n == 512 * s
        invariant StartsWith(Contents(disk[..], Run(lba, s)), data[n..m])
      {
        assert Run(lba, g.spc)[s] == lba + s;
        m := WriteSector(lba, s, data, n, m);
        s := s + 1;
      }
      RunPrefix(disk[..], lba, s, g.spc, data[n..m]);
    }

    method WriteSector(lba: nat, s: nat, data: Bytes, ghost n: nat, m: nat) returns (m': nat)
      requires s < g.spc && lba + g.spc <= disk.Length && n <= m < |data| && m - n == 512 * s
      requires StartsWith(Contents(disk[..], Run(lba, s)), data[n..m])
      modifies this`dma, disk
      ensures disk[..] == old(disk[..])[lba + s := disk[lba + s]]
      ensures m < m' <= |data| && (m' < |data| ==> m' - m == 512)
      ensures StartsWith(Contents(disk[..], Run(lba, s + 1)), data[n..m'])
    {
      hide Contents, StartsWith, Run;
      var count := if m + 512 > |data| then |data| - m else 512;
      FillBuffer(data, m, count);
      DataWritten(disk[..], lba, s, data, n, m, count, dma);
      disk[lba + s] := dma;
      m' := m + count;
    }

    /** Allocates, links and fills one more cluster of a file being written. */
    method GrowChain(prev: nat, data: Bytes, n: nat, ghost cs: seq<nat>, ghost v0: Vol, ghost L0: Layout) returns (c: nat, m: nat)
      requires Writing(g, v0, L0, V(), layout, cs, data, n) && n < |data|
      requires if cs == [] then prev == 0 else prev == cs[|cs| - 1]
      modifies this, fat, disk
      ensures c == 0 ==> V() == old(V()) && layout == old(layout) && FreeClusters(fat[..]) == {}
      ensures c != 0 ==> n < m && Writing(g, v0, L0, V(), layout, cs + [c], data, m)
      ensures c != 0 ==> c in FreeClusters(old(fat[..])) && forall d :: d in FreeClusters(old(fat[..])) ==> c <= d
    {
      hide Writing, SizesOk, Linked, Filled, FreeClusters;
      ghost var v, L := V(), layout;
      WritingEnd(g, v0, L0, v, L, cs, data, n);
      c := LinkCluster(prev, cs);
      m := n;
      if c != 0 {
        LinkedSizes(g, v, cs, c);
        m := WriteCluster(c, data, n);
        WriteStep(g, v0, L0, v, L, cs, data, n, c, disk[..], m);
        layout := Appended(layout, ChainName(cs, c), c);
      }
    }

    /** Writes data to the lowest free clusters: succeeds exactly when they suffice, and otherwise
        gives back what it took. */
    method WriteChain(data: Bytes) returns (ok: bool, first: nat, ghost cs: seq<nat>)
      requires Inv(g, V(), layout)
      modifies this, fat, disk
      ensures ok ==> Writing(g, old(V()), old(layout), V(), layout, cs, data, |data|) && first == if cs == [] then 0 else cs[0]
      ensures !ok ==> Inv(g, V(), layout) && FileMap(g, V(), layout) == FileMap(g, old(V()), old(layout))
      ensures !ok ==> Synced(g, V()) && fat[..] == old(fat[..]) && layout.dirs == old(layout).dirs && Listing() == old(Listing())
      ensures ok <==> |data| <= Capacity(g, old(fat[..]))
      ensures ok ==> Needs(g, |data|, |cs|) && Lowest(cs, FreeClusters(old(fat[..])))
    {
      hide Writing, Inv, FileMap, Capacity, Needs, Lowest, FreeClusters, Entries;
      ghost var v0, L0 := V(), layout;
      WritingStart(g, v0, L0, data);
      LowestNone(FreeClusters(v0.fat));
      var prev: nat, n: nat := 0, 0;
      first, cs := 0, [];
      while n < |data|
        invariant Writing(g, v0, L0, V(), layout, cs, data, n)
        invariant if cs == [] then prev == 0 && first == 0 else prev == cs[|cs| - 1] && first == cs[0] && first != 0
        invariant MoreThan(g, |data|, |cs|) && Lowest(cs, FreeClusters(v0.fat))
        decreases |data| - n
      {
        ClustersFull(g, v0, L0, V(), layout, cs, data, n);
        ghost var fat1 := fat[..];
        WritingTaken(g, v0, L0, V(), layout, cs, data, n);
        var c, m := GrowChain(prev, data, n, cs, v0, L0);
        if c == 0 {
          CapacityTaken(g, v0, L0, V(), layout, cs, data, n);
          GiveBack(first, cs, data, n, v0, L0);
          return false, 0, [];
        }
        WritingStarts(g, v0, L0, V(), layout, cs + [c], data, m);
        LowestGrows(v0.fat, fat1, cs, c);
        if first == 0 { first := c; }
        prev, n, cs := c, m, cs + [c];
      }
      CapacityTaken(g, v0, L0, V(), layout, cs, data, n);
      WritingWhole(g, v0, L0, V(), layout, cs, data, n);
      ClustersFull(g, v0, L0, V(), layout, cs, data, n);
      ok := true;
    }

    /** Disk full: frees the clusters taken so far. */
    method GiveBack(first: nat, ghost cs: seq<nat>, ghost data: Bytes, ghost n: nat, ghost v0: Vol, ghost L0: Layout)
      requires Writing(g, v0, L0, V(), layout, cs, data, n)
      requires if cs == [] then first == 0 else first == cs[0] && first != 0
      modifies this, fat, disk
      ensures Inv(g, V(), layout) && FileMap(g, V(), layout) == FileMap(g, v0, L0)
      ensures Synced(g, V()) && fat[..] == v0.fat && layout.dirs == L0.dirs && Listing() == Entries(g, v0, L0)
    {
      hide Writing, FileMap, Inv, Zeroed, Synced, Entries;
      ghost var v, L := V(), layout;
      WritingIsChain(g, v0, L0, v, L, cs, data, n);
      WriteUndone(g, v0, L0, v, L, cs, data, n);
      UndoneEntries(g, v0, L0, v, L, cs, data, n);
      if first != 0 { FreeChain(first, cs); }
      layout := if cs == [] then L else Dropped(L, cs[0]);
      assert V() == v.(fat := v0.fat);
      ghost var before := V();
      FlushFat();
      FlushStep(g, before, layout, disk[..]);
      FlushEntries(g, before, layout, disk[..]);
    }

    // ---- Entries --------------------------------------------------------------------------------

    method LoadEntry(dir: nat, sector: nat, index: nat, ghost k: int) returns (e: Entry)
      requires Shape(g, V(), layout) && dir in layout.dirs && Located(Home(g, layout, dir), k, sector, index)
      modifies this`dma
      ensures k >= 0 && InTable(g, V(), layout, dir, k) && e == Table(g, V(), layout, dir)[k]
      ensures RootLba(g) <= sector < disk.Length
    {
      LocatedEntry(g, V(), layout, dir, k, sector, index);
      hide Shape, InTable, Table, Located;
      dma := disk[sector];
      e := EntryAt(dma, index);
    }

    /** Rewrites one slot of a sector. */
    method StoreEntry(dir: nat, sector: nat, index: nat, e: Entry, ghost k: int)
      requires GeoOk(g) && Located(Home(g, layout, dir), k, sector, index) && RootLba(g) <= sector < disk.Length
      modifies this`dma, disk
      ensures V() == PutSlot(g, old(V()), layout, dir, k, e)
      ensures Synced(g, old(V())) ==> Synced(g, V())
    {
      ghost var was := disk[..];
      dma := disk[sector];
      dma := PutEntry(dma, index, e);
      disk[sector] := dma;
      if Synced(g, Vol(fat[..], was)) { SyncedFrame(g, fat[..], was, disk[..]); }
    }

    // ---- Unlink ---------------------------------------------------------------------------------

    /** Removes one file: its name disappears, its clusters become free, nothing else changes. */
    method Unlink(dir: nat, name: Bytes) returns (out: UnlinkOutcome)
      requires Valid() && dir in layout.dirs && Lacks(name, 0)
      requires !NamesDirectory(g, V(), layout, dir, UpperAll(name))
      modifies this, fat, disk
      ensures Valid() && layout.dirs == old(layout).dirs
      ensures out == Missing <==> SlotOf(g, old(V()), old(layout), dir, UpperAll(name)) == -1
      ensures out == Forbidden <==> CannotDelete(g, old(V()), old(layout), dir, UpperAll(name))
      ensures out != Removed ==> V() == old(V()) && layout == old(layout)
      ensures out == Removed ==> Contained() == old(Contained()) - {FileName(dir, UpperAll(name))}
      ensures out == Removed ==> Listing() == old(Listing()) - {FileName(dir, UpperAll(name))}
      ensures out == Removed ==> fat[..] == Zeroed(old(fat[..]), Clusters(g, old(V()), old(layout), dir, UpperAll(name)))
    {
      hide TablesOk, Synced, Files, PutSlot, Entries;
      ghost var v, L, key := V(), layout, UpperAll(name);
      var found, sector, index, k := FindDirEntry(dir, name);
      if !found { FindNone(g, v, L, dir, key); return Missing; }
      var e := LoadEntry(dir, sector, index, k);
      if DeleteProtected(e) { return Forbidden; }
      EntryChain(g, v, L, dir, key, k);
      EraseByName(g, v, L, dir, key, k);
      EraseEntries(g, v, L, dir, key, k);
      StoreEntry(dir, sector, index, Deleted(e), k);
      layout := ErasedLayout(layout, First(e));
      if First(e) >= 2 {
        FreeChain(First(e), Chain(L, First(e)));
        assert V() == Erased(g, v, L, dir, k);
        FlushVolume();
      } else {
        assert V() == Erased(g, v, L, dir, k) by { assert Zeroed(v.fat, []) == v.fat; }
      }
      return Removed;
    }

    method FlushVolume()
      requires Inv(g, V(), layout)
      modifies this`dma, disk
      ensures Valid() && Contained() == old(Contained()) && FileMap(g, V(), layout) == old(FileMap(g, V(), layout))
      ensures AgreeOff(g, old(disk[..]), disk[..], []) && Listing() == old(Listing())
    {
      hide Entries;
      ghost var v := V();
      FlushFat();
      FlushStep(g, v, layout, disk[..]);
      FlushEntries(g, v, layout, disk[..]);
    }

    // ---- Write ----------------------------------------------------------------------------------

    /** The first half of a write: an old file of that name goes, unless it is protected. */
    method RemoveOld(dir: nat, name: Bytes) returns (refused: bool)
      requires Valid() && dir in layout.dirs && Lacks(name, 0)
      requires !NamesDirectory(g, V(), layout, dir, UpperAll(name))
      modifies this, fat, disk
      ensures Inv(g, V(), layout) && layout.dirs == old(layout).dirs
      ensures refused <==> CannotModify(g, old(V()), old(layout), dir, UpperAll(name))
      ensures refused ==> V() == old(V()) && layout == old(layout)
      ensures !refused ==> Contained() == old(Contained()) - {FileName(dir, UpperAll(name))}
      ensures !refused ==> Listing() == old(Listing()) - {FileName(dir, UpperAll(name))}
      ensures !refused ==> SlotOf(g, V(), layout, dir, UpperAll(name)) == -1
      ensures !refused ==> fat[..] == Zeroed(old(fat[..]), Clusters(g, old(V()), old(layout), dir, UpperAll(name)))
      ensures SlotOf(g, old(V()), old(layout), dir, UpperAll(name)) == -1 ==> V() == old(V()) && layout == old(layout)
      ensures !refused && SlotOf(g, old(V()), old(layout), dir, UpperAll(name)) != -1 ==> HasUnused(Table(g, V(), layout, dir))
    {
      hide TablesOk, Synced, Files, PutSlot, HasUnused, Entries;
      ghost var v, L, key := V(), layout, UpperAll(name);
      var found, sector, index, k := FindDirEntry(dir, name);
      if !found {
        FindNone(g, v, L, dir, key);
        MissingFile(g, v, L, dir, key);
        MissingEntry(g, v, L, dir, key);
        assert Zeroed(v.fat, []) == v.fat;
        return false;
      }
      var e := LoadEntry(dir, sector, index, k);
      EntryChain(g, v, L, dir, key, k);
      if ModifyProtected(e) { return true; }
      EraseByName(g, v, L, dir, key, k);
      EraseEntries(g, v, L, dir, key, k);
      ErasedSlot(g, v, L, dir, k);
      if First(e) >= 2 { FreeChain(First(e), Chain(L, First(e))); }
      assert fat[..] == Zeroed(v.fat, Chain(L, First(e)));
      StoreEntry(dir, sector, index, Deleted(e), k);
      layout := ErasedLayout(layout, First(e));
      assert V() == Erased(g, v, L, dir, k) by { SameDiskPut(g, v, fat[..], L, dir, k, Deleted(e)); }
      return false;
    }

    /** Writes a whole file. On success the volume holds exactly what it held and the new file;
        if the disk or the directory is full, it holds what it held without the old file. */
    method WriteFileInDir(dir: nat, name: Bytes, data: Bytes, stamp: Bytes) returns (out: WriteOutcome)
      requires Valid() && dir in layout.dirs && GoodName(name) && |data| < 0x1_0000_0000 && |stamp| == 4
      requires !NamesDirectory(g, V(), layout, dir, UpperAll(name))
      modifies this, fat, disk
      ensures Valid() && layout.dirs == old(layout).dirs
      ensures out == Refused <==> CannotModify(g, old(V()), old(layout), dir, UpperAll(name))
      ensures out == Refused ==> V() == old(V()) && layout == old(layout)
      ensures out == DiskFull <==> out != Refused && |data| > RoomFor(g, old(V()), old(layout), dir, UpperAll(name))
      ensures out == DirectoryFull <==> out != Refused && out != DiskFull && NoEntryLeft(g, old(V()), old(layout), dir, UpperAll(name), |data|)
      ensures out == Written ==> Contained() == old(Contained())[FileName(dir, UpperAll(name)) := data]
      ensures out == Written ==> Removable(g, V(), layout, dir, UpperAll(name))
      ensures out == Written ==>
                var n := FileName(dir, UpperAll(name));
                && n in Listing() && Listing() == old(Listing())[n := Listing()[n]]
                && NewEntry(Listing()[n], name, 0x20, stamp, Clusters(g, V(), layout, dir, UpperAll(name)), |data|)
      ensures out == Written ==>
                var cs := Clusters(g, V(), layout, dir, UpperAll(name));
                && Needs(g, |data|, |cs|)
                && Lowest(cs, FreeClusters(Zeroed(old(fat[..]), Clusters(g, old(V()), old(layout), dir, UpperAll(name)))))
      ensures out == Written && (dir == 0 || HasUnused(Table(g, old(V()), old(layout), dir)) || SlotOf(g, old(V()), old(layout), dir, UpperAll(name)) != -1) ==>
                Zeroed(fat[..], Clusters(g, V(), layout, dir, UpperAll(name))) ==
                Zeroed(old(fat[..]), Clusters(g, old(V()), old(layout), dir, UpperAll(name)))
      ensures out == DiskFull || out == DirectoryFull ==>
                && Contained() == old(Contained()) - {FileName(dir, UpperAll(name))}
                && Listing() == old(Listing()) - {FileName(dir, UpperAll(name))}
      ensures out == DiskFull ==> fat[..] == Zeroed(old(fat[..]), Clusters(g, old(V()), old(layout), dir, UpperAll(name)))
    {
      hide Inv, Synced, Files, Writing, FileMap, Clusters, CannotModify, SlotOf, Removable, Capacity, Zeroed, HasSlot, HasUnused, Needs, Lowest, FreeClusters, Table, Entries, NewEntry;
      ghost var files, n, list := Contained(), FileName(dir, UpperAll(name)), Listing();
      var refused := RemoveOld(dir, name);
      if refused { return Refused; }
      ghost var v1, L1 := V(), layout;
      var ok, first;
      ghost var cs;
      ok, first, cs := WriteChain(data);
      if !ok { SameFiles(g, v1, L1, V(), layout); return DiskFull; }
      WritingFiles(g, v1, L1, V(), layout, cs, data, |data|);
      FlushAfterWrite(cs, data, v1, L1);
      RoomAfterWrite(g, v1, L1, V(), layout, cs, data, dir);
      ok := HookFile(dir, name, data, stamp, first, cs, v1, L1);
      if !ok { return DirectoryFull; }
      PutBack(files, n, data);
      PutBack(list, n, Listing()[n]);
      return Written;
    }

    method FlushAfterWrite(ghost cs: seq<nat>, ghost data: Bytes, ghost v1: Vol, ghost L1: Layout)
      requires Writing(g, v1, L1, V(), layout, cs, data, |data|)
      modifies this`dma, disk
      ensures Writing(g, v1, L1, V(), layout, cs, data, |data|) && Synced(g, V())
    {
      hide Writing, Synced;
      ghost var v := V();
      WritingEnd(g, v1, L1, v, layout, cs, data, |data|);
      FlushFat();
      FlushWriting(g, v1, L1, v, layout, cs, data, |data|, disk[..]);
    }

    /** The second half of a write: an entry for the chain just written. */
    method HookFile(dir: nat, name: Bytes, data: Bytes, stamp: Bytes, first: nat, ghost cs: seq<nat>, ghost v1: Vol, ghost L1: Layout)
      returns (ok: bool)
      requires Synced(g, V()) && Writing(g, v1, L1, V(), layout, cs, data, |data|)
      requires dir in L1.dirs && SlotOf(g, v1, L1, dir, UpperAll(name)) == -1
      requires GoodName(name) && |data| < 0x1_0000_0000 && |stamp| == 4 && first == if cs == [] then 0 else cs[0]
      modifies this, fat, disk
      ensures Valid() && layout.dirs == old(layout).dirs
      ensures ok <==> HasSlot(g, old(V()), old(layout), dir)
      ensures !ok ==> Contained() == Files(g, v1, L1) && Listing() == Entries(g, v1, L1)
      ensures ok ==> Contained() == Files(g, v1, L1)[FileName(dir, UpperAll(name)) := data]
      ensures ok ==>
                var n := FileName(dir, UpperAll(name));
                && n in Listing() && Listing() == Entries(g, v1, L1)[n := Listing()[n]]
                && NewEntry(Listing()[n], name, 0x20, stamp, cs, |data|)
      ensures ok ==> Removable(g, V(), layout, dir, UpperAll(name)) && Clusters(g, V(), layout, dir, UpperAll(name)) == cs
      ensures ok && (dir == 0 || HasUnused(Table(g, v1, L1, dir))) ==> Zeroed(fat[..], Clusters(g, V(), layout, dir, UpperAll(name))) == v1.fat
    {
      hide Inv, Synced, Files, Writing, FileMap, SlotOf, Removable, Clusters, Table, Home, PutSlot, FirstFree, Located, Extended, Zeroed, EntryFor, HasSlot, HasUnused, Entries, NewEntry;
      ghost var v2, L2 := V(), layout;
      WritingIsChain(g, v1, L1, v2, L2, cs, data, |data|);
      WritingFiles(g, v1, L1, v2, L2, cs, data, |data|);
      var sector, index;
      ghost var k, c;
      ok, sector, index, k, c := FindFreeDirEntry(dir);
      ghost var v3, L3 := V(), layout;
      ExtendedFiles(g, v2, L2, v3, L3, dir, c);
      WritingEntries(g, v1, L1, v2, L2, cs, data, |data|);
      ExtendedEntries(g, v2, L2, v3, L3, dir, c);
      if !ok { return; }
      FreeSlotAt(g, v3, L3, dir, k, sector, index);
      assert k < |Table(g, v3, L3, dir)|;
      var packed := FormatName(name);
      ChainFirst(g, v1, L1, v2, L2, cs, data, |data|);
      var e := MakeEntry(packed, ATTR_ARCHIVE, stamp, first, |data|);
      FileEntryFor(name, stamp, cs, |data|, e);
      FileHooked(g, v1, L1, v2, L2, cs, data, v3, L3, dir, c, k, e);
      StoreEntry(dir, sector, index, e, k);
      layout := Hooked(layout, e, Place(dir, k));
      WritingTable(g, v1, L1, v2, L2, cs, data, dir);
      if c == 0 { assert fat[..] == v2.fat; }
    }

    /** In the root, writing a new file and unlinking it gives back exactly the clusters taken; so
        does a write that runs out of space. */
    method WriteThenUnlink(name: Bytes, data: Bytes, stamp: Bytes) returns (out: WriteOutcome)
      requires Valid() && GoodName(name) && |data| < 0x1_0000_0000 && |stamp| == 4
      requires SlotOf(g, V(), layout, 0, UpperAll(name)) == -1
      modifies this, fat, disk
      ensures Valid() && Contained() == old(Contained())
      ensures out == Written || out == DiskFull ==> fat[..] == old(fat[..])
    {
      hide SizesOk, ChainsOk, TablesOk, Synced, Files;
      ghost var v, L, key := V(), layout, UpperAll(name);
      FindNone(g, v, L, 0, key);
      MissingFile(g, v, L, 0, key);
      assert Zeroed(v.fat, []) == v.fat;
      out := WriteFileInDir(0, name, data, stamp);
      if out == Written {
        var gone := Unlink(0, name);
        assert gone == Removed;
        TakeBack(Files(g, v, L), FileName(0, key), data);
      }
    }

    // ---- Rename ---------------------------------------------------------------------------------

    /** Moves an entry to another name or directory: a file's bytes move with it, everything else
        stays. Refuses when the source is missing, the target exists or has no room. */
    method Rename(dir: nat, name: Bytes, dir': nat, name': Bytes) returns (ok: bool)
      requires Valid() && dir in layout.dirs && dir' in layout.dirs && Lacks(name, 0) && GoodName(name')
      modifies this, fat, disk
      ensures Valid() && layout.dirs == old(layout).dirs
      ensures !ok ==> V() == old(V()) && layout == old(layout)
      ensures ok <==> SlotOf(g, old(V()), old(layout), dir, UpperAll(name)) >= 0
                      && SlotOf(g, old(V()), old(layout), dir', UpperAll(name')) == -1 && HasSlot(g, old(V()), old(layout), dir')
      ensures ok ==> Contained() == Renaming(old(Contained()), FileName(dir, UpperAll(name)), FileName(dir', UpperAll(name')))
      ensures ok ==> EntryMoved(old(Listing()), Listing(), FileName(dir, UpperAll(name)), FileName(dir', UpperAll(name')), name')
      ensures ok && HasUnused(Table(g, old(V()), old(layout), dir')) ==> fat[..] == old(fat[..])
      ensures ok ==> SlotOf(g, V(), layout, dir, UpperAll(name)) == -1 && SlotOf(g, V(), layout, dir', UpperAll(name')) >= 0
      ensures ok ==> (NamesDirectory(g, V(), layout, dir', UpperAll(name')) <==> NamesDirectory(g, old(V()), old(layout), dir, UpperAll(name)))
      ensures ok && (HasUnused(Table(g, old(V()), old(layout), dir')) || !LeadsTo(g, old(V()), old(layout), dir, UpperAll(name), dir')) ==>
                Clusters(g, V(), layout, dir', UpperAll(name')) == Clusters(g, old(V()), old(layout), dir, UpperAll(name))
    {
      hide Synced, Files, SlotOf, TablesOk, ChainsOk, SizesOk, FirstFree, Extended, Located, Table, HasSlot, HasUnused, Entries, EntryMoved, Clusters, NamesDirectory, LeadsTo;
      ghost var v, L, key, key' := V(), layout, UpperAll(name), UpperAll(name');
      var found, sector, index, k := FindSlot(dir, name);
      if !found { return false; }
      var there, sector', index', k' := FindSlot(dir', name');
      if there { return false; }
      ghost var c;
      ok, sector', index', k', c := FindFreeDirEntry(dir');
      ghost var v1, L1 := V(), layout;
      ExtendedFiles(g, v, L, v1, L1, dir', c);
      if !ok { return; }
      SameLookup(g, v, L, v1, L1, dir', c, dir, key);
      SameLookup(g, v, L, v1, L1, dir', c, dir', key');
      ExtendedLocated(g, v, L, v1, L1, dir', c, dir, k, sector, index);
      ExtendedEntries(g, v, L, v1, L1, dir', c);
      MoveEntry(dir, key, sector, index, k, dir', name', sector', index', k');
      RenameResult(g, v, L, v1, L1, V(), layout, dir, key, dir', name', c);
    }

    method FindSlot(dir: nat, name: Bytes) returns (found: bool, sector: nat, index: nat, ghost k: int)
      requires Inv(g, V(), layout) && dir in layout.dirs && Lacks(name, 0)
      modifies this`dma
      ensures k == SlotOf(g, V(), layout, dir, UpperAll(name)) && (found <==> k >= 0) && k >= -1
      ensures found ==> Located(Home(g, layout, dir), k, sector, index)
    {
      found, sector, index, k := FindDirEntry(dir, name);
      if !found { FindNone(g, V(), layout, dir, UpperAll(name)); }
    }

    method MoveEntry(dir: nat, ghost key: Bytes, sector: nat, index: nat, ghost k: int,
                     dir': nat, name': Bytes, sector': nat, index': nat, ghost k': int)
      requires Valid() && dir in layout.dirs && dir' in layout.dirs && GoodName(name')
      requires Located(Home(g, layout, dir), k, sector, index) && SlotOf(g, V(), layout, dir, key) == k
      requires Located(Home(g, layout, dir'), k', sector', index') && FirstFree(Table(g, V(), layout, dir'), k')
      requires SlotOf(g, V(), layout, dir', UpperAll(name')) == -1
      modifies this, fat, disk
      ensures Valid() && layout.dirs == old(layout).dirs
      ensures Contained() == Renaming(old(Contained()), FileName(dir, key), FileName(dir', UpperAll(name')))
      ensures EntryMoved(old(Listing()), Listing(), FileName(dir, key), FileName(dir', UpperAll(name')), name')
      ensures layout.chains == old(layout).chains && fat[..] == old(fat[..])
    {
      hide Synced, Files, SlotOf, TablesOk, ChainsOk, NamesOk, FirstFree, Located, PutSlot, Table, Home, Entries, EntryMoved;
      ghost var v, L := V(), layout;
      var e := LoadEntry(dir, sector, index, k);
      FreeSlotAt(g, v, L, dir', k', sector', index');
      var packed := FormatName(name');
      var x := Renamed(e, packed);
      RenamedMovable(g, v, L, dir, k, key, dir', k', name', e, x);
      MoveStep(g, v, L, dir, k, key, dir', k', x);
      MovedFiles(g, v, L, dir, k, key, x);
      MoveEntries(g, v, L, dir, k, key, dir', k', x);
      MovedOnce(g, v, L, dir, k, key, dir', name', e, x);
      MoveSectors(dir, sector, index, k, dir', sector', index', k', e, x);
      layout := MovedLayout(L, dir', k', x);
      FlushVolume();
    }

    method MoveSectors(dir: nat, sector: nat, index: nat, ghost k: int, dir': nat, sector': nat, index': nat, ghost k': int, e: Entry, x: Entry)
      requires GeoOk(g) && 0 <= k < |Table(g, V(), layout, dir)| && e == Table(g, V(), layout, dir)[k] && k' >= 0
      requires Located(Home(g, layout, dir), k, sector, index) && RootLba(g) <= sector < disk.Length
      requires Located(Home(g, layout, dir'), k', sector', index') && RootLba(g) <= sector' < disk.Length
      modifies this`dma, disk
      ensures V() == Moved(g, old(V()), layout, dir, k, dir', k', x)
    {
      hide Table, Home;
      if sector == sector' {
        dma := disk[sector];
        dma := PutEntry(dma, index, Deleted(e));
        dma := PutEntry(dma, index', x);
        disk[sector] := dma;
      } else {
        StoreEntry(dir, sector, index, Deleted(e), k);
        StoreEntry(dir', sector', index', x, k');
      }
    }

    // ---- Mkdir ----------------------------------------------------------------------------------

    /** Makes an empty directory: no file changes; the new entry names a directory c that was none
        before and holds no file. */
    method Mkdir(dir: nat, name: Bytes, stamp: Bytes) returns (ok: bool, c: nat)
      requires Valid() && dir in layout.dirs && GoodName(name) && |stamp| == 4
      modifies this, fat, disk
      ensures Valid() && Contained() == old(Contained())
      ensures !ok ==> layout.dirs == old(layout).dirs
      ensures ok <==> SlotOf(g, old(V()), old(layout), dir, UpperAll(name)) == -1
                      && |FreeClusters(old(fat[..]))| >= (if HasUnused(Table(g, old(V()), old(layout), dir)) then 1 else 2)
                      && (HasUnused(Table(g, old(V()), old(layout), dir)) || dir != 0)
      ensures ok ==> c !in old(layout).dirs && layout.dirs == old(layout).dirs + {c}
      ensures ok ==> NamesDirectory(g, V(), layout, dir, UpperAll(name)) && Clusters(g, V(), layout, dir, UpperAll(name)) == [c]
      ensures ok ==> DirectoryMade(old(Listing()), Listing(), dir, name, stamp, c)
      ensures !ok ==> Listing() == old(Listing())
      ensures ok && HasUnused(Table(g, old(V()), old(layout), dir)) ==>
                Lowest([c], FreeClusters(old(fat[..]))) && Zeroed(fat[..], [c]) == old(fat[..])
    {
      hide Synced, Files, SlotOf, TablesOk, ChainsOk, FirstFree, Extended, Located, Table, Clusters, NamesDirectory, HasUnused, FreeClusters, Entries, DirectoryMade, Lowest, Zeroed;
      ghost var v, L, key := V(), layout, UpperAll(name);
      c := 0;
      var found, sector, index, k := FindSlot(dir, name);
      if found { return false, 0; }
      ghost var x;
      ok, sector, index, k, x := FindFreeDirEntry(dir);
      ghost var v1, L1 := V(), layout;
      ExtendedFiles(g, v, L, v1, L1, dir, x);
      ExtendedFree(g, v, L, v1, L1, dir, x);
      ExtendedEntries(g, v, L, v1, L1, dir, x);
      if !ok { return; }
      SameLookup(g, v, L, v1, L1, dir, x, dir, key);
      FreeSlotAt(g, v1, L1, dir, k, sector, index);
      ok, c := MakeDirectory(dir, name, stamp, sector, index, k);
    }

    method MakeDirectory(dir: nat, name: Bytes, stamp: Bytes, sector: nat, index: nat, ghost k: int) returns (ok: bool, c: nat)
      requires Valid() && dir in layout.dirs && GoodName(name) && |stamp| == 4
      requires Located(Home(g, layout, dir), k, sector, index) && RootLba(g) <= sector < disk.Length
      requires FirstFree(Table(g, V(), layout, dir), k) && SlotOf(g, V(), layout, dir, UpperAll(name)) == -1
      modifies this, fat, disk
      ensures Valid() && Contained() == old(Contained())
      ensures !ok ==> layout == old(layout)
      ensures ok <==> FreeClusters(old(fat[..])) != {}
      ensures ok ==> c !in old(layout).dirs && layout.dirs == old(layout).dirs + {c}
      ensures ok ==> NamesDirectory(g, V(), layout, dir, UpperAll(name)) && Clusters(g, V(), layout, dir, UpperAll(name)) == [c]
      ensures ok ==> DirectoryMade(old(Listing()), Listing(), dir, name, stamp, c)
      ensures !ok ==> Listing() == old(Listing())
      ensures ok ==> Lowest([c], FreeClusters(old(fat[..]))) && Zeroed(fat[..], [c]) == old(fat[..])
    {
      hide Synced, Files, SlotOf, Inv, FirstFree, Table, Clusters, NamesDirectory, PutSlot, Home, MkdirDisk, DirEntryFor, SomeKey, SizesOk, Entries, DirectoryMade;
      ghost var v, L := V(), layout;
      DirInRange(g, v, L, dir);
      c := AllocCluster();
      assert c != 0 <==> FreeClusters(v.fat) != {} by { assert c != 0 ==> c in FreeClusters(v.fat); }
      if c == 0 { return false, 0; }
      ok := true;
      OneTaken(v.fat, c);
      var packed := FormatName(name);
      var e := MakeEntry(packed, ATTR_DIRECTORY, stamp, c, 0);
      DirEntryFields(name, stamp, c, e);
      StoreEntry(dir, sector, index, e, k);
      SameDiskPut(g, v, v.fat[c := END_OF_CHAIN], L, dir, k, e);
      FlushAndInit(dir, c, v, L, k, e);
      MkdirDone(g, v, L, dir, k, e, c, disk[..]);
      MkdirListing(g, v, L, dir, name, stamp, k, e, c, disk[..]);
      layout := WithDir(Appended(layout, c, c), c);
    }

    method FlushAndInit(dir: nat, c: nat, ghost v: Vol, ghost L: Layout, ghost k: nat, ghost e: Entry)
      requires SizesOk(g, v) && 2 <= c < |v.fat| && dir < 0x1_0000 && c < 0x1_0000
      requires V() == Vol(v.fat[c := END_OF_CHAIN], PutSlot(g, v, L, dir, k, e).disk)
      modifies this`dma, disk
      ensures fat[..] == old(fat[..]) && Synced(g, V()) && MkdirDisk(g, v, L, dir, k, e, c, disk[..])
    {
      hide Synced, DirCluster, DirSector, SizesOk, PutSlot, MkdirDisk;
      PutKeepsSize(g, v, L, dir, k, e, c);
      FlushFat();
      FlushedSizes(g, Vol(v.fat[c := END_OF_CHAIN], PutSlot(g, v, L, dir, k, e).disk), disk[..]);
      ghost var flushed := disk[..];
      InitDirectory(c, dir);
      SyncedFrame(g, fat[..], flushed, disk[..]);
      MkdirDiskIs(g, v, L, dir, k, e, c, flushed, disk[..]);
    }

    /** Writes the entries "." and ".." and clears the rest of the cluster. */
    method InitDirectory(c: nat, parent: nat)
      requires SizesOk(g, V()) && 2 <= c < fat.Length && c < 0x1_0000 && parent < 0x1_0000
      modifies this`dma, disk
      ensures DirCluster(g, disk[..], c, parent)
      ensures forall x :: 0 <= x < disk.Length && !InCluster(g, c, x) ==> disk[x] == old(disk[x])
      ensures forall x :: 0 <= x < disk.Length && x < RootLba(g) ==> disk[x] == old(disk[x])
    {
      ClustersApart(g, c, c, Lba(g, c));
      var lba := Lba(g, c);
      assert lba + g.spc <= disk.Length && g.spc >= 1 && RootLba(g) <= lba;
      hide SizesOk, DirSector, Lba;
      dma := Zeros(512);
      dma := PutEntry(dma, 0, DotEntry(1, c));
      dma := PutEntry(dma, 1, DotEntry(2, parent));
      assert dma == DirSector(c, parent) by { DirSectorIs(c, parent); }
      disk[lba] := dma;
      ZeroSectors(lba + 1, g.spc - 1);
    }

    // ---- Read -----------------------------------------------------------------------------------

    method CopyOut(x: nat, start: nat, count: nat) returns (part: Bytes)
      requires x < disk.Length && start + count <= 512
      modifies this`dma
      ensures part == disk[x][start..start + count]
    {
      dma := disk[x];
      part := [];
      var b := 0;
      while b < count
        invariant 0 <= b <= count && dma == disk[x] && part == disk[x][start..start + b]
      {
        part := part + [dma[start + b]];
        b := b + 1;
      }
    }

    /** Reads what is wanted of a run of sectors that starts at the j-th of ds. */
    method ReadRun(lba: nat, n: nat, offset: nat, want: nat, out0: Bytes, cur0: nat, ghost ds: seq<int>, ghost j: nat)
      returns (out: Bytes, cur: nat)
      requires IsRun(lba, n, ds, j) && Reading(Contents(disk[..], ds), out0, cur0, offset, want, j)
      modifies this`dma
      ensures Reading(Contents(disk[..], ds), out, cur, offset, want, j + n)
    {
      hide Progress, Contents;
      ghost var all := Contents(disk[..], ds);
      out, cur := out0, cur0;
      var s := 0;
      while s < n && |out| < want
        invariant 0 <= s <= n && Reading(all, out, cur, offset, want, j + s)
      {
        assert ds[j..j + n][s] == lba + s;
        ContentsAt(disk[..], ds, j + s);
        out := ReadSector(lba + s, offset, want, out, cur, all);
        cur, s := cur + 512, s + 1;
      }
    }

    method ReadSector(x: nat, offset: nat, want: nat, out0: Bytes, cur: nat, ghost all: Bytes) returns (out: Bytes)
      requires x < disk.Length && cur + 512 <= |all| && all[cur..cur + 512] == disk[x]
      requires Progress(all, out0, cur, offset, want) && |out0| < want
      modifies this`dma
      ensures Progress(all, out, cur + 512, offset, want)
    {
      hide Progress;
      out := out0;
      if offset > cur && offset - cur >= 512 {
        ProgressSkip(all, out, cur, offset, want);
        return;
      }
      var start := if offset > cur then offset - cur else 0;
      var count := if |out| + 512 - start > want then want - |out| else 512 - start;
      var part := CopyOut(x, start, count);
      ProgressCopy(all, out, cur, offset, want, disk[x], start, count);
      out := out + part;
    }

    /** Copies from a cluster of the chain on until enough is read or the chain ends. */
    method ReadOn(first: nat, start: nat, cur0: nat, offset: nat, want: nat, ghost cs: seq<nat>, ghost i0: nat) returns (out: Bytes)
      requires SizesOk(g, V()) && IsChain(fat[..], first, cs) && Walking(fat[..], cs, i0, start)
      requires Reading(Contents(disk[..], Sectors(g, cs)), [], cur0, offset, want, Start(g, i0))
      modifies this`dma
      ensures out == Slice(Contents(disk[..], Sectors(g, cs)), offset, want)
    {
      hide SizesOk, Reading, Contents, Sectors, IsChain, IsRun, Lba, Walking, Start, Slice;
      FatSmall(g, V());
      ghost var all, i: nat := Contents(disk[..], Sectors(g, cs)), i0;
      var cluster: nat, cur: nat := start, cur0;
      out := [];
      while |out| < want && 2 <= cluster < END_MARK
        invariant Walking(fat[..], cs, i, cluster) && Reading(all, out, cur, offset, want, Start(g, i))
        decreases |cs| - i
      {
        ClusterRun(cs, i, cluster);
        out, cur := ReadRun(Lba(g, cluster), g.spc, offset, want, out, cur, Sectors(g, cs), Start(g, i));
        cluster, i := NextCluster(first, cs, i, cluster);
      }
      ReadDone(g, fat[..], cs, i, cluster, all, out, cur, offset, want);
    }

    /** fat16_read below the entry: seeks cluster by cluster, then copies. */
    method ReadChainAt(first: nat, offset: nat, want: nat, ghost cs: seq<nat>) returns (out: Bytes)
      requires SizesOk(g, V()) && IsChain(fat[..], first, cs)
      modifies this`dma
      ensures out == Slice(Contents(disk[..], Sectors(g, cs)), offset, want)
    {
      hide SizesOk, IsChain, Contents, Sectors, Slice, Walking, Start, Progress;
      var cluster, cur, i := SeekCluster(first, offset, want, cs);
      out := ReadOn(first, cluster, cur, offset, want, cs, i);
    }

    method SeekCluster(first: nat, offset: nat, ghost want: nat, ghost cs: seq<nat>) returns (cluster: nat, cur: nat, ghost i: nat)
      requires SizesOk(g, V()) && IsChain(fat[..], first, cs)
      ensures Walking(fat[..], cs, i, cluster) && cur == 512 * Start(g, i)
      ensures Progress(Contents(disk[..], Sectors(g, cs)), [], cur, offset, want)
    {
      hide SizesOk, IsChain, Walking, Start;
      FatSmall(g, V());
      cluster, cur, i := first, 0, 0;
      WalkStart(fat[..], first, cs);
      StartEnds(g, cs);
      while 2 <= cluster < END_MARK && cur + g.spc * 512 <= offset
        invariant Walking(fat[..], cs, i, cluster) && cur == 512 * Start(g, i) && cur <= offset
        decreases |cs| - i
      {
        ClusterRun(cs, i, cluster);
        cluster, i := NextCluster(first, cs, i, cluster);
        cur := cur + g.spc * 512;
      }
      SeekProgress(g, disk[..], cs, i, offset, want, fat[..], cluster);
    }

    /** fat16_read: exactly the wanted slice of the file, for every offset and length whose sum fits
        32 bits, and otherwise exactly when the file fills its last cluster. */
    method Fat16Read(dir: nat, name: Bytes, offset: nat, size: nat) returns (r: ReadOutcome)
      requires Valid() && dir in layout.dirs && Lacks(name, 0) && offset < 0x1_0000_0000 && size < 0x1_0000_0000
      modifies this`dma
      ensures Valid() && V() == old(V())
      ensures FileName(dir, UpperAll(name)) in Contained() ==>
                r == Data(ReadBack(Contained()[FileName(dir, UpperAll(name))], AllBytes(g, V(), layout, dir, UpperAll(name)), offset, size))
      ensures FileName(dir, UpperAll(name)) in Contained() ==>
                (r == Data(Slice(Contained()[FileName(dir, UpperAll(name))], offset, size)) <==>
                 offset + size < 0x1_0000_0000 || offset >= |Contained()[FileName(dir, UpperAll(name))]|
                 || |Contained()[FileName(dir, UpperAll(name))]| == |AllBytes(g, V(), layout, dir, UpperAll(name))|)
      ensures FileName(dir, UpperAll(name)) !in Contained() ==>
                r == if NamesDirectory(g, V(), layout, dir, UpperAll(name)) then Data([]) else NotFound
    {
      hide Inv, Shape, SizesOk, Synced, Files, Contents, Sectors, NamesDirectory, ReadBack, AllBytes, Table, Find, IsChain, Home, Located, Slice, Visible;
      ghost var v, L, key := V(), layout, UpperAll(name);
      InvSizes(g, v, L);
      var found, sector, index, k := FindDirEntry(dir, name);
      ReadSpec(g, v, L, dir, key, offset, size);
      if !found { return NotFound; }
      var e := LoadEntry(dir, sector, index, k);
      if offset >= Size(e) { return Data([]); }
      var want := if (offset + size) % 0x1_0000_0000 > Size(e) then Size(e) - offset else size;
      var out := ReadChainAt(First(e), offset, want, Chain(layout, First(e)));
      return Data(out);
    }

    /** read_file below the entry: from the start, until the chain ends or max bytes are read. */
    method ReadWhole(first: nat, size: nat, max: nat, ghost cs: seq<nat>) returns (out: Bytes)
      requires SizesOk(g, V()) && IsChain(fat[..], first, cs)
      modifies this`dma
      ensures out == Slice(Contents(disk[..], Sectors(g, cs)), 0, if max < size then max else size)
    {
      hide SizesOk, Reading, Contents, Sectors, IsChain, IsRun, Lba, Walking, Start, Slice;
      ghost var all := Contents(disk[..], Sectors(g, cs));
      var want := if max < size then max else size;
      var cluster: nat, cur: nat := first, 0;
      ghost var i: nat := 0;
      out := [];
      FatSmall(g, V());
      WalkStart(fat[..], first, cs);
      StartEnds(g, cs);
      ReadingStart(all, want);
      while 2 <= cluster < END_MARK && |out| < max
        invariant Walking(fat[..], cs, i, cluster) && Reading(all, out, cur, 0, want, Start(g, i))
        decreases |cs| - i
      {
        ClusterRun(cs, i, cluster);
        out, cur := ReadRun(Lba(g, cluster), g.spc, 0, want, out, cur, Sectors(g, cs), Start(g, i));
        cluster, i := NextCluster(first, cs, i, cluster);
      }
      ReadDone(g, fat[..], cs, i, cluster, all, out, cur, 0, want);
    }

    /** read_file: the start of a root file. */
    method ReadFile(name: Bytes, max: nat) returns (r: ReadOutcome)
      requires Valid() && Lacks(name, 0) && max < 0x1_0000_0000
      modifies this`dma
      ensures Valid() && V() == old(V())
      ensures FileName(0, UpperAll(name)) in Contained() ==>
                r == Data(Slice(Contained()[FileName(0, UpperAll(name))], 0, max))
      ensures FileName(0, UpperAll(name)) !in Contained() ==>
                r == if NamesDirectory(g, V(), layout, 0, UpperAll(name)) then Data([]) else NotFound
    {
      hide Inv, Shape, SizesOk, Synced, Files, Contents, Sectors, NamesDirectory, ReadBack, AllBytes, Table, Find, IsChain, Home, Located, Slice, Visible;
      ghost var v, L, key := V(), layout, UpperAll(name);
      InvSizes(g, v, L);
      var found, sector, index, k := FindDirEntry(0, name);
      ReadSpec(g, v, L, 0, key, 0, max);
      if !found { return NotFound; }
      var e := LoadEntry(0, sector, index, k);
      SliceNone(Contents(v.disk, Sectors(g, Chain(layout, First(e)))));
      var out := ReadWhole(First(e), Size(e), max, Chain(layout, First(e)));
      return Data(out);
    }

    /** read_file_offset below the entry: skips whole clusters by count, then copies. */
    method ReadSkipping(first: nat, offset: nat, want: nat, ghost cs: seq<nat>) returns (r: ReadOutcome)
      requires SizesOk(g, V()) && IsChain(fat[..], first, cs)
      modifies this`dma
      ensures r == if offset / (g.spc * 512) > |cs| then Broken else Data(Slice(Contents(disk[..], Sectors(g, cs)), offset, want))
    {
      hide SizesOk, IsChain, Contents, Sectors, Slice, Progress, Start, Walking;
      FatSmall(g, V());
      var clusterSize := g.spc * 512;
      DivIsNat(offset, clusterSize);
      var ok, cluster, i := SkipClusters(first, offset / clusterSize, cs);
      if !ok { return Broken; }
      SkipPosition(g, cs, i, offset);
      SeekProgress(g, disk[..], cs, i, offset, want, fat[..], cluster);
      var inCluster := offset % clusterSize;
      var out := ReadOn(first, cluster, offset - inCluster, offset, want, cs, i);
      return Data(out);
    }

    method SkipClusters(first: nat, count: nat, ghost cs: seq<nat>) returns (ok: bool, cluster: nat, ghost i: nat)
      requires fat.Length <= MAX_FAT_ENTRIES && IsChain(fat[..], first, cs)
      ensures ok <==> count <= |cs|
      ensures ok ==> i == count <= |cs| && Walking(fat[..], cs, i, cluster)
    {
      hide IsChain;
      WalkStart(fat[..], first, cs);
      cluster, i := first, 0;
      var n := 0;
      while n < count
        invariant Walking(fat[..], cs, i, cluster) && n == i <= count
      {
        if cluster < 2 || END_MARK <= cluster { return false, cluster, i; }
        cluster, i := NextCluster(first, cs, i, cluster);
        n := n + 1;
      }
      return true, cluster, i;
    }

    /** read_file_offset: the wanted slice of a root file. */
    method ReadFileOffset(name: Bytes, offset: nat, size: nat) returns (r: ReadOutcome)
      requires Valid() && Lacks(name, 0) && offset < 0x1_0000_0000 && size < 0x1_0000_0000
      modifies this`dma
      ensures Valid() && V() == old(V())
      ensures FileName(0, UpperAll(name)) in Contained() ==>
                r == Data(ReadBack(Contained()[FileName(0, UpperAll(name))], AllBytes(g, V(), layout, 0, UpperAll(name)), offset, size))
      ensures FileName(0, UpperAll(name)) in Contained() ==>
                (r == Data(Slice(Contained()[FileName(0, UpperAll(name))], offset, size)) <==>
                 offset + size < 0x1_0000_0000 || offset >= |Contained()[FileName(0, UpperAll(name))]|
                 || |Contained()[FileName(0, UpperAll(name))]| == |AllBytes(g, V(), layout, 0, UpperAll(name))|)
      ensures FileName(0, UpperAll(name)) !in Contained() ==>
                r == if NamesDirectory(g, V(), layout, 0, UpperAll(name)) then Data([]) else NotFound
    {
      hide Inv, Shape, SizesOk, Synced, Files, Contents, Sectors, NamesDirectory, ReadBack, AllBytes, Table, Find, IsChain, Home, Located, Slice, Visible;
      ghost var v, L, key := V(), layout, UpperAll(name);
      InvSizes(g, v, L);
      var found, sector, index, k := FindDirEntry(0, name);
      ReadSpec(g, v, L, 0, key, offset, size);
      if !found { return NotFound; }
      var e := LoadEntry(0, sector, index, k);
      if offset >= Size(e) { return Data([]); }
      var want := if (offset + size) % 0x1_0000_0000 > Size(e) then Size(e) - offset else size;
      EntryReaches(g, v, L, 0, k, offset);
      r := ReadSkipping(First(e), offset, want, Chain(layout, First(e)));
    }

    /** After a successful write every read of the file gives that slice of the data. */
    method WriteThenRead(dir: nat, name: Bytes, data: Bytes, stamp: Bytes, offset: nat, size: nat)
      returns (out: WriteOutcome, r: ReadOutcome)
      requires Valid() && dir in layout.dirs && GoodName(name) && |data| < 0x1_0000_0000 && |stamp| == 4
      requires !NamesDirectory(g, V(), layout, dir, UpperAll(name)) && offset < 0x1_0000_0000 && size < 0x1_0000_0000
      modifies this, fat, disk
      ensures out == Written && (offset + size < 0x1_0000_0000 || offset >= |data|) ==> r == Data(Slice(data, offset, size))
      ensures out == Written ==> Contained() == old(Contained())[FileName(dir, UpperAll(name)) := data]
    {
      hide Inv, Synced, Files, AllBytes, ReadBack;
      r := NotFound;
      out := WriteFileInDir(dir, name, data, stamp);
      if out == Written { r := Fat16Read(dir, name, offset, size); }
    }
  }

  lemma SameDiskPut(g: Geometry, v: Vol, fat: seq<nat>, L: Layout, d: nat, k: nat, e: Entry)
    ensures PutSlot(g, v.(fat := fat), L, d, k, e) == PutSlot(g, v, L, d, k, e).(fat := fat)
  {
  }

  /** No entry for a new name: every slot of the directory is used, and it is the root or the data
      takes the last free cluster. */
  ghost predicate NoEntryLeft(g: Geometry, v: Vol, L: Layout, d: nat, key: Bytes, len: nat) {
    && SlotOf(g, v, L, d, key) == -1 && !HasUnused(Table(g, v, L, d))
    && (d == 0 || Needs(g, len, |FreeClusters(v.fat)|))
  }

  /** How many bytes a file of that name could take: the old file's clusters count as free. */
  ghost function RoomFor(g: Geometry, v: Vol, L: Layout, d: nat, key: Bytes): nat {
    Capacity(g, Zeroed(v.fat, Clusters(g, v, L, d, key)))
  }

  /** The name is that of a file that unlink will remove. */
  ghost predicate Removable(g: Geometry, v: Vol, L: Layout, d: nat, key: Bytes) {
    SlotOf(g, v, L, d, key) >= 0 && !NamesDirectory(g, v, L, d, key) && !CannotDelete(g, v, L, d, key)
  }

  lemma SameFiles(g: Geometry, v: Vol, L: Layout, v': Vol, L': Layout)
    requires FileMap(g, v', L') == FileMap(g, v, L)
    ensures Files(g, v', L') == Files(g, v, L)
  {
    hide FileMap;
  }

  lemma WritingFiles(g: Geometry, v0: Vol, L0: Layout, v: Vol, L: Layout, cs: seq<nat>, data: Bytes, n: nat)
    requires Writing(g, v0, L0, v, L, cs, data, n)
    ensures Files(g, v, L) == Files(g, v0, L0) && L.dirs == L0.dirs && Inv(g, v, L)
  {
    hide FileMap, Inv, SameTables, Holds, Zeroed;
  }

  lemma WritingTable(g: Geometry, v0: Vol, L0: Layout, v: Vol, L: Layout, cs: seq<nat>, data: Bytes, d: nat)
    requires Writing(g, v0, L0, v, L, cs, data, |data|) && d in L0.dirs
    ensures Table(g, v, L, d) == Table(g, v0, L0, d)
  {
    hide FileMap, Inv, Holds, Zeroed, Table;
  }

  lemma PutBack<T>(files: imap<FileName, T>, n: FileName, data: T)
    ensures (files - {n})[n := data] == files[n := data]
  {
  }

  lemma ExtendedFiles(g: Geometry, v: Vol, L: Layout, v': Vol, L': Layout, d: nat, c: nat)
    requires Inv(g, v, L) && Extended(g, v, L, v', L', d, c)
    ensures Inv(g, v', L') && Files(g, v', L') == Files(g, v, L) && L'.dirs == L.dirs
    ensures c == 0 ==> v' == v && L' == L
  {
    hide Inv, FileMap;
    ExtendedInv(g, v, L, v', L', d, c);
  }

  /** An extension takes one free cluster. */
  lemma ExtendedFree(g: Geometry, v: Vol, L: Layout, v': Vol, L': Layout, d: nat, c: nat)
    requires Inv(g, v, L) && Extended(g, v, L, v', L', d, c)
    ensures |FreeClusters(v'.fat)| == |FreeClusters(v.fat)| - (if c == 0 then 0 else 1)
    ensures FreeClusters(v'.fat) == {} <==> |FreeClusters(v'.fat)| == 0
    ensures FreeClusters(v.fat) == {} <==> |FreeClusters(v.fat)| == 0
  {
    hide TablesOk, NamesOk;
    if c != 0 {
      var cs := Chain(L, d);
      ChainEnd(g, v, L, d, c);
      if cs != [] { LastTaken(v.fat, L, d); }
      assert FreeClusters(v'.fat) == FreeClusters(v.fat) - {c};
    }
  }

  lemma LastTaken(fat: seq<nat>, L: Layout, d: nat)
    requires ChainsOk(fat, L) && Chain(L, d) != []
    ensures var x := Chain(L, d)[|Chain(L, d)| - 1]; 2 <= x < |fat| && fat[x] != FREE_CLUSTER
  {
    assert ChainOk(fat, L.own, d, L.chains[d]);
  }

  lemma FreeSlotAt(g: Geometry, v: Vol, L: Layout, d: nat, k: int, sector: nat, index: nat)
    requires Inv(g, v, L) && d in L.dirs && Located(Home(g, L, d), k, sector, index)
    ensures k >= 0 && k < |Table(g, v, L, d)| && GeoOk(g)
    ensures RootLba(g) <= sector < |v.disk|
  {
    hide TablesOk;
    LocatedEntry(g, v, L, d, k, sector, index);
  }

  lemma ChainFirst(g: Geometry, v0: Vol, L0: Layout, v: Vol, L: Layout, cs: seq<nat>, data: Bytes, n: nat)
    requires Writing(g, v0, L0, v, L, cs, data, n)
    ensures cs != [] ==> 2 <= cs[0] < 0x1_0000
  {
    WritingIsChain(g, v0, L0, v, L, cs, data, n);
  }

  lemma FileEntryFor(name: Bytes, stamp: Bytes, cs: seq<nat>, size: nat, e: Entry)
    requires GoodName(name) && |stamp| == 4 && size < 0x1_0000_0000 && (cs != [] ==> cs[0] < 0x1_0000)
    requires e == MakeEntry(Format83(name), ATTR_ARCHIVE, stamp, if cs == [] then 0 else cs[0], size)
    ensures EntryFor(e, UpperAll(name), cs, size) && SomeKey(e) == UpperAll(name) && FileEntry(e) && !DeleteProtected(e)
    ensures NewEntry(e, name, 0x20, stamp, cs, size)
  {
    hide GoodName, Key, Format83, MakeEntry;
    GoodNameUsed(name);
    MakeEntryFields(Format83(name), ATTR_ARCHIVE, stamp, if cs == [] then 0 else cs[0], size);
    StampField(Format83(name), ATTR_ARCHIVE, stamp, if cs == [] then 0 else cs[0], size);
    assert e[0] == NameOf(e)[0];
  }

  /** What the entry of something new says: its name, attribute, time, clusters and size. */
  ghost predicate NewEntry(e: Entry, name: Bytes, attr: int, stamp: Bytes, cs: seq<nat>, size: nat) {
    && NameOf(e) == Format83(name) && Attr(e) == attr && e[12..22] == Zeros(10) && e[22..26] == stamp
    && First(e) == (if cs == [] then 0 else cs[0]) && Size(e) == size
  }

  lemma StampField(name: PackedName, attr: Byte, stamp: Bytes, first: nat, size: nat)
    requires |stamp| == 4 && first < 0x1_0000 && size < 0x1_0000_0000
    ensures var e := MakeEntry(name, attr, stamp, first, size); e[12..22] == Zeros(10) && e[22..26] == stamp
  {
    hide Le16, Le32;
  }

  lemma MissingEntry(g: Geometry, v: Vol, L: Layout, d: nat, key: Bytes)
    requires SlotOf(g, v, L, d, key) == -1
    ensures Entries(g, v, L) - {FileName(d, key)} == Entries(g, v, L)
  {
    hide Table;
    RemoveAbsent(Entries(g, v, L), FileName(d, key));
  }

  lemma HookedResult(g: Geometry, v: Vol, L: Layout, d: nat, k: nat, e: Entry, cs: seq<nat>)
    requires Chain(L, First(e)) == cs && FileEntry(e) && !DeleteProtected(e) && k < |Table(g, v, L, d)|
    requires var v', L' := PutSlot(g, v, L, d, k, e), Hooked(L, e, Place(d, k));
             SlotOf(g, v', L', d, SomeKey(e)) == k && Table(g, v', L', d) == Table(g, v, L, d)[k := e]
    ensures var v', L' := PutSlot(g, v, L, d, k, e), Hooked(L, e, Place(d, k));
            Removable(g, v', L', d, SomeKey(e)) && Clusters(g, v', L', d, SomeKey(e)) == cs
  {
    hide Table, PutSlot, SlotOf, SomeKey;
  }

  /** The volume with the entry for the chain just written. */
  lemma FileHooked(g: Geometry, v1: Vol, L1: Layout, v2: Vol, L2: Layout, cs: seq<nat>, data: Bytes,
                   v3: Vol, L3: Layout, d: nat, c: nat, k: nat, e: Entry)
    requires Writing(g, v1, L1, v2, L2, cs, data, |data|) && d in L1.dirs
    requires Extended(g, v2, L2, v3, L3, d, c) && Inv(g, v3, L3)
    requires EntryFor(e, SomeKey(e), cs, |data|) && SlotOf(g, v1, L1, d, SomeKey(e)) == -1 && FileEntry(e) && !DeleteProtected(e)
    requires k < |Table(g, v3, L3, d)| && FirstFree(Table(g, v3, L3, d), k)
    ensures var v4, L4 := PutSlot(g, v3, L3, d, k, e), Hooked(L3, e, Place(d, k));
            && Inv(g, v4, L4) && L4.dirs == L3.dirs && v4.fat == v3.fat
            && Files(g, v4, L4) == Files(g, v3, L3)[FileName(d, SomeKey(e)) := data]
            && Removable(g, v4, L4, d, SomeKey(e)) && Clusters(g, v4, L4, d, SomeKey(e)) == cs
            && Entries(g, v4, L4) == Entries(g, v3, L3)[FileName(d, SomeKey(e)) := e]
  {
    hide Inv, Writing, Extended, Files, SlotOf, Table, FirstFree, Removable, Clusters, EntryFor, Hookable, FileBytes, Entries;
    WrittenHook(g, v1, L1, v2, L2, cs, data, v3, L3, d, c, k, e);
    HookByName(g, v3, L3, d, k, e);
    HookEntries(g, v3, L3, d, k, e);
    HookedResult(g, v3, L3, d, k, e, cs);
  }

  lemma TakeBack(files: imap<FileName, Bytes>, n: FileName, data: Bytes)
    requires n !in files
    ensures files[n := data] - {n} == files
  {
  }

  /** The files after a rename: an entry that is not a file's moves no bytes. */
  ghost function Renaming(files: imap<FileName, Bytes>, n: FileName, n': FileName): imap<FileName, Bytes> {
    if n in files then (files - {n})[n' := files[n]] else files
  }

  /** The entry of n is now that of n': the same but for its name. No other entry changed. */
  ghost predicate EntryMoved(m: imap<FileName, Entry>, m': imap<FileName, Entry>, n: FileName, n': FileName, name': Bytes) {
    && n in m && n != n' && n' !in m && n' in m' && m' == (m - {n})[n' := m'[n']]
    && NameOf(m'[n']) == Format83(name') && m'[n'][11..] == m[n][11..]
  }

  lemma MovedOnce(g: Geometry, v: Vol, L: Layout, d: nat, k: nat, key: Bytes, d': nat, name': Bytes, e: Entry, x: Entry)
    requires Inv(g, v, L) && InTable(g, v, L, d, k) && SlotOf(g, v, L, d, key) == k && e == Table(g, v, L, d)[k]
    requires SlotOf(g, v, L, d', UpperAll(name')) == -1 && x == Renamed(e, Format83(name'))
    ensures var m, n, n' := Entries(g, v, L), FileName(d, key), FileName(d', UpperAll(name'));
            EntryMoved(m, (m - {n})[n' := x], n, n', name')
  {
    hide Inv, Table, Format83, Shape, Find;
    RenamedFields(e, Format83(name'));
    var m, n, n' := Entries(g, v, L), FileName(d, key), FileName(d', UpperAll(name'));
    assert n in m && m[n] == e && n' !in m;
    assert x[11..] == e[11..];
  }

  /** The name leads to the directory or chain that starts at cluster f. */
  ghost predicate LeadsTo(g: Geometry, v: Vol, L: Layout, d: nat, key: Bytes, f: nat) {
    var n := FileName(d, key);
    n in Entries(g, v, L) && First(Entries(g, v, L)[n]) == f
  }

  /** What lookup says, read off the listing. */
  lemma ListingSays(g: Geometry, v: Vol, L: Layout, n: FileName)
    requires Inv(g, v, L) && n.dir in L.dirs
    ensures var m := Entries(g, v, L);
            && (n in m <==> SlotOf(g, v, L, n.dir, n.key) >= 0) && (n !in m <==> SlotOf(g, v, L, n.dir, n.key) == -1)
            && (NamesDirectory(g, v, L, n.dir, n.key) <==> n in m && IsDirectory(m[n]))
            && (n in m ==> Clusters(g, v, L, n.dir, n.key) == Chain(L, First(m[n])))
  {
    SlotFound(g, v, L, n.dir, n.key, SlotOf(g, v, L, n.dir, n.key));
    hide Inv, Table, Find;
  }

  lemma SameTail(e: Entry, x: Entry)
    requires x[11..] == e[11..]
    ensures First(x) == First(e) && IsDirectory(x) == IsDirectory(e)
  {
    assert forall i :: 11 <= i < 32 ==> x[i] == x[11..][i - 11] && e[i] == e[11..][i - 11];
  }

  lemma RenameResult(g: Geometry, v: Vol, L: Layout, v1: Vol, L1: Layout, v2: Vol, L2: Layout,
                     d: nat, key: Bytes, d': nat, name': Bytes, c: nat)
    requires Inv(g, v, L) && Inv(g, v2, L2) && Extended(g, v, L, v1, L1, d', c) && Entries(g, v1, L1) == Entries(g, v, L)
    requires d in L.dirs && d' in L.dirs && L2.dirs == L.dirs && L2.chains == L1.chains
    requires EntryMoved(Entries(g, v1, L1), Entries(g, v2, L2), FileName(d, key), FileName(d', UpperAll(name')), name')
    ensures SlotOf(g, v2, L2, d, key) == -1 && SlotOf(g, v2, L2, d', UpperAll(name')) >= 0
    ensures NamesDirectory(g, v2, L2, d', UpperAll(name')) <==> NamesDirectory(g, v, L, d, key)
    ensures c == 0 || !LeadsTo(g, v, L, d, key, d') ==> Clusters(g, v2, L2, d', UpperAll(name')) == Clusters(g, v, L, d, key)
  {
    hide Inv, Entries, SlotOf, Clusters, NamesDirectory, Format83, First, IsDirectory, Appendable, AppendDisk, Linked;
    var n, n', m, m2 := FileName(d, key), FileName(d', UpperAll(name')), Entries(g, v, L), Entries(g, v2, L2);
    ListingSays(g, v, L, n);
    ListingSays(g, v2, L2, n);
    ListingSays(g, v2, L2, n');
    SameTail(m[n], m2[n']);
  }

  lemma ExtendedLocated(g: Geometry, v: Vol, L: Layout, v': Vol, L': Layout, d: nat, c: nat, r: nat, k: int, sector: nat, index: nat)
    requires Inv(g, v, L) && Extended(g, v, L, v', L', d, c) && r in L.dirs && Located(Home(g, L, r), k, sector, index)
    ensures Located(Home(g, L', r), k, sector, index)
  {
    hide TablesOk;
    if c != 0 && r == d {
      ChainEnd(g, v, L, d, c);
      assert (Chain(L, d) + [c])[..|Chain(L, d)|] == Chain(L, d);
    }
  }

  lemma InTableParts(g: Geometry, v: Vol, L: Layout, d: nat, k: nat)
    requires InTable(g, v, L, d, k)
    ensures d in L.dirs && k < |Table(g, v, L, d)|
  {
    hide Table, Shape;
  }

  lemma RenamedMovable(g: Geometry, v: Vol, L: Layout, d: nat, k: nat, key: Bytes, d': nat, k': nat, name': Bytes, e: Entry, x: Entry)
    requires Inv(g, v, L) && InTable(g, v, L, d, k) && SlotOf(g, v, L, d, key) == k && e == Table(g, v, L, d)[k]
    requires d' in L.dirs && FirstFree(Table(g, v, L, d'), k') && SlotOf(g, v, L, d', UpperAll(name')) == -1
    requires GoodName(name') && x == Renamed(e, Format83(name'))
    ensures Movable(g, v, L, d, k, d', k', x) && SomeKey(x) == UpperAll(name')
  {
    hide Table, Inv, SlotOf, FirstFree, InTable, GoodName, Key, Format83, Renamed;
    assert d in L.dirs && k < |Table(g, v, L, d)| by { InTableParts(g, v, L, d, k); }
    SlotFound(g, v, L, d, key, k);
    GoodNameUsed(name');
    RenamedFields(e, Format83(name'));
    assert x[0] == NameOf(x)[0];
  }

  lemma MovedFiles(g: Geometry, v: Vol, L: Layout, d: nat, k: nat, key: Bytes, x: Entry)
    requires Inv(g, v, L) && InTable(g, v, L, d, k) && SlotOf(g, v, L, d, key) == k
    requires SameButName(Table(g, v, L, d)[k], x)
    ensures FileName(d, key) in Files(g, v, L) <==> FileEntry(x)
    ensures FileEntry(x) ==> Files(g, v, L)[FileName(d, key)] == FileBytes(g, v, L, x)
  {
    FilesAre(g, v, L, d, key);
    SlotFound(g, v, L, d, key, k);
    hide Table, Inv, Files;
  }

  lemma DirInRange(g: Geometry, v: Vol, L: Layout, d: nat)
    requires Inv(g, v, L) && d in L.dirs
    ensures d < 0x1_0000 && SizesOk(g, v) && |v.fat| <= MAX_FAT_ENTRIES && GeoOk(g)
  {
    hide TablesOk;
    if d != 0 { assert ChainOk(v.fat, L.own, d, L.chains[d]); }
  }

  lemma DirEntryFields(name: Bytes, stamp: Bytes, c: nat, e: Entry)
    requires GoodName(name) && |stamp| == 4 && c < 0x1_0000
    requires e == MakeEntry(Format83(name), ATTR_DIRECTORY, stamp, c, 0)
    ensures DirEntryFor(e, c) && SomeKey(e) == UpperAll(name)
  {
    hide GoodName, Key, Format83, MakeEntry;
    GoodNameUsed(name);
    MakeEntryFields(Format83(name), ATTR_DIRECTORY, stamp, c, 0);
    assert e[0] == NameOf(e)[0];
  }

  /** The parent lists the new directory c, c lists itself and its parent, and no other entry changed. */
  ghost predicate DirectoryMade(m: imap<FileName, Entry>, m': imap<FileName, Entry>, d: nat, name: Bytes, stamp: Bytes, c: nat) {
    var n, dot, dotdot := FileName(d, UpperAll(name)), FileName(c, [DOT]), FileName(c, [DOT, DOT]);
    && n in m' && dot in m' && dotdot in m' && m' == m[dot := m'[dot]][dotdot := m'[dotdot]][n := m'[n]]
    && NewEntry(m'[n], name, 0x10, stamp, [c], 0)
    && IsDirectory(m'[dot]) && First(m'[dot]) == c && IsDirectory(m'[dotdot]) && First(m'[dotdot]) == d
  }

  lemma MkdirListing(g: Geometry, v: Vol, L: Layout, d: nat, name: Bytes, stamp: Bytes, k: int, e: Entry, c: nat, disk': seq<Sector>)
    requires Inv(g, v, L) && d in L.dirs && 2 <= c < |v.fat| && v.fat[c] == FREE_CLUSTER && k >= 0 && c !in L.dirs
    requires c < 0x1_0000 && d < 0x1_0000 && GoodName(name) && |stamp| == 4
    requires e == MakeEntry(Format83(name), ATTR_DIRECTORY, stamp, c, 0)
    requires FirstFree(Table(g, v, L, d), k) && SlotOf(g, v, L, d, UpperAll(name)) == -1
    requires MkdirDisk(g, v, L, d, k, e, c, disk')
    ensures var v', L' := Vol(v.fat[c := END_OF_CHAIN], disk'), WithDir(Appended(L, c, c), c);
            DirectoryMade(Entries(g, v, L), Entries(g, v', L'), d, name, stamp, c)
  {
    hide Inv, Table, SlotOf, FirstFree, MkdirDisk, DirEntryFor, SomeKey, Entries, Format83, GoodName, MakeEntry, DotEntry, IsDirectory, First;
    DirEntryFields(name, stamp, c, e);
    MakeEntryFields(Format83(name), ATTR_DIRECTORY, stamp, c, 0);
    StampField(Format83(name), ATTR_DIRECTORY, stamp, c, 0);
    MkdirEntries(g, v, L, d, k, e, c, disk');
    DotEntryFields(1, c);
    DotEntryFields(2, d);
    assert Dots(1) == [DOT] && Dots(2) == [DOT, DOT];
  }

  lemma OneTaken(fat: seq<nat>, c: nat)
    requires 2 <= c < |fat| && fat[c] == FREE_CLUSTER && forall i :: 2 <= i < c ==> fat[i] != FREE_CLUSTER
    ensures Lowest([c], FreeClusters(fat)) && Zeroed(fat[c := END_OF_CHAIN], [c]) == fat
  {
  }

  lemma MkdirNames(g: Geometry, v: Vol, L': Layout, L: Layout, d: nat, k: nat, e: Entry, c: nat)
    requires L' == WithDir(Appended(L, c, c), c) && c !in L.chains && DirEntryFor(e, c)
    requires SlotOf(g, v, L', d, SomeKey(e)) == k && k < |Table(g, v, L', d)| && Table(g, v, L', d)[k] == e
    ensures NamesDirectory(g, v, L', d, SomeKey(e)) && Clusters(g, v, L', d, SomeKey(e)) == [c]
  {
    hide Table, SlotOf, SomeKey;
  }

  lemma MkdirDone(g: Geometry, v: Vol, L: Layout, d: nat, k: int, e: Entry, c: nat, disk': seq<Sector>)
    requires Inv(g, v, L) && d in L.dirs && 2 <= c < |v.fat| && v.fat[c] == FREE_CLUSTER && k >= 0
    requires c < 0x1_0000 && d < 0x1_0000 && DirEntryFor(e, c)
    requires FirstFree(Table(g, v, L, d), k) && SlotOf(g, v, L, d, SomeKey(e)) == -1
    requires MkdirDisk(g, v, L, d, k, e, c, disk')
    ensures var v', L' := Vol(v.fat[c := END_OF_CHAIN], disk'), WithDir(Appended(L, c, c), c);
            && Inv(g, v', L') && Files(g, v', L') == Files(g, v, L) && c !in L.dirs
            && NamesDirectory(g, v', L', d, SomeKey(e)) && Clusters(g, v', L', d, SomeKey(e)) == [c]
  {
    hide Inv, Files, Table, SlotOf, MkdirDisk, DirEntryFor, SomeKey, NamesDirectory, Clusters;
    MkdirStep(g, v, L, d, k, e, c, disk');
    MkdirNames(g, Vol(v.fat[c := END_OF_CHAIN], disk'), WithDir(Appended(L, c, c), c), L, d, k, e, c);
  }

  lemma PutKeepsSize(g: Geometry, v: Vol, L: Layout, d: nat, k: nat, e: Entry, c: nat)
    requires SizesOk(g, v) && 2 <= c < |v.fat|
    ensures SizesOk(g, Vol(v.fat[c := END_OF_CHAIN], PutSlot(g, v, L, d, k, e).disk))
    ensures |PutSlot(g, v, L, d, k, e).disk| == |v.disk|
  {
  }

  lemma FlushedSizes(g: Geometry, v: Vol, disk': seq<Sector>)
    requires SizesOk(g, v) && |disk'| == |v.disk|
    ensures SizesOk(g, Vol(v.fat, disk')) && GeoOk(g)
  {
  }

  lemma MkdirDiskIs(g: Geometry, v: Vol, L: Layout, d: nat, k: nat, e: Entry, c: nat, flushed: seq<Sector>, disk': seq<Sector>)
    requires c < 0x1_0000 && d < 0x1_0000 && |disk'| == |flushed| == |v.disk| && DirCluster(g, disk', c, d)
    requires AgreeOff(g, PutSlot(g, v, L, d, k, e).disk, flushed, [])
    requires forall x :: 0 <= x < |disk'| && !InCluster(g, c, x) ==> disk'[x] == flushed[x]
    ensures MkdirDisk(g, v, L, d, k, e, c, disk')
  {
    hide DirCluster, PutSlot;
  }

  lemma DirSectorIs(c: nat, parent: nat)
    requires c < 0x1_0000 && parent < 0x1_0000
    ensures DirSector(c, parent) == PutEntry(PutEntry(Zeros(512), 0, DotEntry(1, c)), 1, DotEntry(2, parent))
  {
  }

  lemma ReadDone(g: Geometry, fat: seq<nat>, cs: seq<nat>, i: nat, cluster: nat, all: Bytes, out: Bytes, cur: nat, offset: nat, want: nat)
    requires Walking(fat, cs, i, cluster) && |all| == 512 * |Sectors(g, cs)|
    requires Reading(all, out, cur, offset, want, Start(g, i))
    requires |out| >= want || !(2 <= cluster < END_MARK)
    ensures out == Slice(all, offset, want)
  {
    ProgressLength(all, out, cur, offset, want);
    if |out| < want { WalkEnd(fat, cs, i, cluster); StartEnds(g, cs); }
    hide Progress, Start;
    ProgressEnd(all, out, cur, offset, want);
  }

  lemma SeekProgress(g: Geometry, disk: seq<Sector>, cs: seq<nat>, i: nat, offset: nat, want: nat, fat: seq<nat>, cluster: nat)
    requires Walking(fat, cs, i, cluster) && 512 * Start(g, i) <= offset
    ensures Progress(Contents(disk, Sectors(g, cs)), [], 512 * Start(g, i), offset, want)
  {
    SectorsLen(g, cs);
    MulGrows(i, |cs|, g.spc);
    ProgressSeek(Contents(disk, Sectors(g, cs)), 512 * Start(g, i), offset, want);
  }

  lemma SkipPosition(g: Geometry, cs: seq<nat>, i: nat, offset: nat)
    requires g.spc >= 1 && i <= |cs| && i == offset / (g.spc * 512)
    ensures 512 * Start(g, i) == offset - offset % (g.spc * 512) && 512 * Start(g, i) <= offset
  {
    var size := g.spc * 512;
    calc {
      offset - offset % size;
      size * (offset / size);
      (g.spc * 512) * i;
      512 * (i * g.spc);
    }
  }

  lemma DivIsNat(x: nat, k: nat)
    requires k >= 1
    ensures x / k >= 0 && 0 <= x % k <= x
  {
    if x < k { assert x % k == x; }
  }

  /** A file's clusters reach every offset inside the file. */
  lemma EntryReaches(g: Geometry, v: Vol, L: Layout, d: nat, k: nat, offset: nat)
    requires Inv(g, v, L) && InTable(g, v, L, d, k) && Visible(Table(g, v, L, d)[k]) && offset < Size(Table(g, v, L, d)[k])
    ensures g.spc >= 1 && offset / (g.spc * 512) <= |Chain(L, First(Table(g, v, L, d)[k]))|
  {
    var cs := Chain(L, First(Table(g, v, L, d)[k]));
    EntryHere(g, v, L, d, k);
    SectorsLen(g, cs);
    hide Table, TablesOk, Sectors;
    DivBound(offset, g.spc * 512, |cs|, g.spc);
  }

  lemma DivBound(x: nat, size: nat, n: nat, spc: nat)
    requires spc >= 1 && size == spc * 512 && x < 512 * (n * spc)
    ensures x / size <= n
  {
    assert 512 * (n * spc) == n * size;
    var q := x / size;
    assert q * size <= x;
    if q > n { MulGrows(n, q, size); }
  }

  /** What lookup finds, and what a read of the entry it finds must give. */
  lemma ReadSpec(g: Geometry, v: Vol, L: Layout, d: nat, key: Bytes, offset: nat, n: nat)
    requires Inv(g, v, L) && d in L.dirs && offset < 0x1_0000_0000 && n < 0x1_0000_0000
    ensures var es, k, name := Table(g, v, L, d), SlotOf(g, v, L, d, key), FileName(d, key);
            && (k < 0 ==> name !in Files(g, v, L) && !NamesDirectory(g, v, L, d, key))
            && (0 <= k ==> k < |es| && (NamesDirectory(g, v, L, d, key) <==> name !in Files(g, v, L)))
            && (0 <= k ==> Visible(es[k]) && IsChain(v.fat, First(es[k]), Chain(L, First(es[k]))) && (IsDirectory(es[k]) <==> name !in Files(g, v, L)))
            && (0 <= k && IsDirectory(es[k]) ==> Size(es[k]) == 0)
            && (0 <= k && name in Files(g, v, L) ==>
                 var f, all := Files(g, v, L)[name], AllBytes(g, v, L, d, key);
                 && EntrySlice(g, v, L, es[k], offset, n) == ReadBack(f, all, offset, n) && |f| < 0x1_0000_0000
                 && (ReadBack(f, all, offset, n) == Slice(f, offset, n) <==> offset + n < 0x1_0000_0000 || offset >= |f| || |f| == |all|))
  {
    hide Table, Inv, Files, Find, Contents, Sectors, ReadBack;
    var es, k := Table(g, v, L, d), SlotOf(g, v, L, d, key);
    FilesAre(g, v, L, d, key);
    SlotFound(g, v, L, d, key, k);
    if k >= 0 {
      EntryFound(g, v, L, d, k);
      if FileEntry(es[k]) {
        EntryClipped(g, v, L, es[k], offset, n);
        ReadBackIff(FileBytes(g, v, L, es[k]), AllBytes(g, v, L, d, key), offset, n);
      }
    }
  }

  lemma InvSizes(g: Geometry, v: Vol, L: Layout)
    requires Inv(g, v, L)
    ensures Shape(g, v, L) && SizesOk(g, v) && 0 in L.dirs
  {
    hide TablesOk, ChainsOk;
  }

  lemma EntryFound(g: Geometry, v: Vol, L: Layout, d: nat, k: nat)
    requires Inv(g, v, L) && d in L.dirs && k < |Table(g, v, L, d)| && Visible(Table(g, v, L, d)[k])
    ensures var e := Table(g, v, L, d)[k];
            && IsChain(v.fat, First(e), Chain(L, First(e))) && (IsDirectory(e) ==> Size(e) == 0)
            && Size(e) <= 512 * |Sectors(g, Chain(L, First(e)))|
  {
    hide Table, TablesOk, SizesOk, ChainsOk, IsChain;
    EntryHere(g, v, L, d, k);
    ChainIsChain(g, v, L, First(Table(g, v, L, d)[k]));
  }

  /** The read as the driver clips it. */
  ghost function EntrySlice(g: Geometry, v: Vol, L: Layout, e: Entry, offset: nat, n: nat): Bytes {
    if offset >= Size(e) then []
    else Slice(Contents(v.disk, Sectors(g, Chain(L, First(e)))), offset, if (offset + n) % 0x1_0000_0000 > Size(e) then Size(e) - offset else n)
  }

  /** The bytes of the clusters of the entry with a name: the file and what follows it in the last. */
  ghost function AllBytes(g: Geometry, v: Vol, L: Layout, d: nat, key: Bytes): Bytes {
    Contents(v.disk, Sectors(g, Clusters(g, v, L, d, key)))
  }

  lemma EntryClipped(g: Geometry, v: Vol, L: Layout, e: Entry, offset: nat, n: nat)
    requires Size(e) <= 512 * |Sectors(g, Chain(L, First(e)))| && offset < 0x1_0000_0000 && n < 0x1_0000_0000
    ensures var f, all := FileBytes(g, v, L, e), Contents(v.disk, Sectors(g, Chain(L, First(e))));
            && EntrySlice(g, v, L, e, offset, n) == ReadBack(f, all, offset, n)
            && |f| == Size(e) < 0x1_0000_0000 && |f| <= |all| && f == all[..|f|]
  {
    hide Contents, Sectors;
    SizeBound(e);
    HeldLen(v.disk, Sectors(g, Chain(L, First(e))));
    if offset < Size(e) && offset + n < 0x1_0000_0000 { Clipped(Contents(v.disk, Sectors(g, Chain(L, First(e)))), Size(e), offset, n); }
  }

  lemma SizeBound(e: Entry)
    ensures Size(e) < 0x1_0000_0000
  {
  }

  lemma RunGrows(disk: seq<Sector>, lba: nat, s: nat, sec: Sector)
    requires lba + s < |disk|
    ensures Contents(disk[lba + s := sec], Run(lba, s + 1)) == Contents(disk, Run(lba, s)) + sec
  {
    hide Contents;
    assert Run(lba, s + 1) == Run(lba, s) + [lba + s];
    ContentsConcat(disk[lba + s := sec], Run(lba, s), [lba + s]);
    ContentsSame(disk, disk[lba + s := sec], Run(lba, s));
    OneSector(disk[lba + s := sec], lba + s);
  }

  lemma OneSector(disk: seq<Sector>, x: nat)
    requires x < |disk|
    ensures Contents(disk, [x]) == disk[x]
  {
    var ds: seq<int> := [x];
    assert ds[..0] == [];
  }

  lemma DataWritten(disk: seq<Sector>, lba: nat, s: nat, data: Bytes, n: nat, m: nat, count: nat, sec: Sector)
    requires lba + s < |disk| && n <= m && count <= 512 && m + count <= |data| && m - n == 512 * s
    requires sec == data[m..m + count] + Zeros(512 - count)
    requires StartsWith(Contents(disk, Run(lba, s)), data[n..m])
    ensures StartsWith(Contents(disk[lba + s := sec], Run(lba, s + 1)), data[n..m + count])
  {
    hide StartsWith, Contents, Run;
    SectorWritten(disk, lba, s, data[n..m], data[m..m + count], sec);
    SliceJoin(data, n, m, m + count);
  }

  lemma SectorWritten(disk: seq<Sector>, lba: nat, s: nat, p: Bytes, t: Bytes, sec: Sector)
    requires lba + s < |disk| && |p| == 512 * s && |t| <= 512 && sec == t + Zeros(512 - |t|)
    requires StartsWith(Contents(disk, Run(lba, s)), p)
    ensures StartsWith(Contents(disk[lba + s := sec], Run(lba, s + 1)), p + t)
  {
    hide StartsWith, Contents;
    RunGrows(disk, lba, s, sec);
    PadStarts(t, 512 - |t|);
    StartsWhole(Contents(disk, Run(lba, s)), p);
    JoinStarts(p, sec, t);
  }

  lemma PadStarts(t: Bytes, k: nat)
    ensures StartsWith(t + Zeros(k), t)
  {
  }

  lemma StartsWhole(s: Bytes, t: Bytes)
    requires StartsWith(s, t) && |s| == |t|
    ensures s == t
  {
  }

  lemma SliceJoin(data: Bytes, a: nat, b: nat, c: nat)
    requires a <= b <= c <= |data|
    ensures data[a..c] == data[a..b] + data[b..c]
  {
  }

  lemma RunPrefix(disk: seq<Sector>, lba: nat, s: nat, n: nat, t: Bytes)
    requires s <= n && StartsWith(Contents(disk, Run(lba, s)), t)
    ensures StartsWith(Contents(disk, Run(lba, n)), t)
  {
    assert Run(lba, n) == Run(lba, s) + Run(lba + s, n - s);
    ContentsConcat(disk, Run(lba, s), Run(lba + s, n - s));
  }

  lemma StartsWithNone(s: Bytes, data: Bytes, n: nat)
    requires n <= |data|
    ensures StartsWith(s, data[n..n])
  {
  }

  /** How many bytes the free clusters hold. */
  ghost function Capacity(g: Geometry, fat: seq<nat>): nat { 512 * (|FreeClusters(fat)| * g.spc) }

  lemma WritingEnd(g: Geometry, v0: Vol, L0: Layout, v: Vol, L: Layout, cs: seq<nat>, data: Bytes, n: nat)
    requires Writing(g, v0, L0, v, L, cs, data, n)
    ensures SizesOk(g, v) && (cs != [] ==> 2 <= cs[|cs| - 1] < |v.fat|)
  {
    hide TablesOk, FileMap, SameTables, Holds;
    if cs != [] { assert ChainOk(v.fat, L.own, cs[0], L.chains[cs[0]]); }
  }

  lemma WritingIsChain(g: Geometry, v0: Vol, L0: Layout, v: Vol, L: Layout, cs: seq<nat>, data: Bytes, n: nat)
    requires Writing(g, v0, L0, v, L, cs, data, n)
    ensures SizesOk(g, v) && IsChain(v.fat, if cs == [] then 0 else cs[0], cs)
    ensures Zeroed(v.fat, cs) == v0.fat && (cs == [] ==> v.fat == v0.fat)
  {
    hide TablesOk, FileMap, SameTables, Holds;
    ChainIsChain(g, v, L, if cs == [] then 0 else cs[0]);
  }

  lemma LinkedSizes(g: Geometry, v: Vol, cs: seq<nat>, c: nat)
    requires SizesOk(g, v) && 2 <= c < |v.fat| && (cs != [] ==> cs[|cs| - 1] < |v.fat|)
    ensures SizesOk(g, Vol(Linked(v.fat, cs, c), v.disk))
  {
  }

  lemma WritingStarts(g: Geometry, v0: Vol, L0: Layout, v: Vol, L: Layout, cs: seq<nat>, data: Bytes, n: nat)
    requires Writing(g, v0, L0, v, L, cs, data, n) && cs != []
    ensures cs[0] != 0
  {
    WritingEnd(g, v0, L0, v, L, cs, data, n);
    WritingIsChain(g, v0, L0, v, L, cs, data, n);
  }

  lemma WritingWhole(g: Geometry, v0: Vol, L0: Layout, v: Vol, L: Layout, cs: seq<nat>, data: Bytes, n: nat)
    requires Writing(g, v0, L0, v, L, cs, data, n) && n >= |data|
    ensures n == |data|
  {
  }

  lemma LowestNone(free: set<nat>)
    ensures Lowest([], free)
  {
  }

  lemma WritingTaken(g: Geometry, v0: Vol, L0: Layout, v: Vol, L: Layout, cs: seq<nat>, data: Bytes, n: nat)
    requires Writing(g, v0, L0, v, L, cs, data, n)
    ensures v0.fat == Zeroed(v.fat, cs) && forall i :: 0 <= i < |cs| ==> 2 <= cs[i] < |v.fat| && v.fat[cs[i]] != FREE_CLUSTER
  {
    hide Writing;
    WritingIsChain(g, v0, L0, v, L, cs, data, n);
    ChainTaken(v.fat, if cs == [] then 0 else cs[0], cs);
  }

  lemma BytesHeld(g: Geometry, disk: seq<Sector>, cs: seq<nat>)
    ensures |Contents(disk, Sectors(g, cs))| == 512 * (|cs| * g.spc) && |Sectors(g, cs)| == |cs| * g.spc
  {
    SectorsLen(g, cs);
  }

  lemma NoneFree(fat: seq<nat>)
    ensures FreeClusters(fat) == {} <==> |FreeClusters(fat)| == 0
  {
  }

  lemma ChainTaken(fat: seq<nat>, start: nat, cs: seq<nat>)
    requires IsChain(fat, start, cs)
    ensures NoDup(cs) && forall i :: 0 <= i < |cs| ==> 2 <= cs[i] < |fat| && fat[cs[i]] != FREE_CLUSTER
  {
    forall i | 0 <= i < |cs| ensures fat[cs[i]] != FREE_CLUSTER { if i + 1 < |cs| { assert fat[cs[i]] == cs[i + 1]; } }
  }

  /** The writer stops early exactly when the free clusters cannot hold the data. */
  lemma CapacityTaken(g: Geometry, v0: Vol, L0: Layout, v: Vol, L: Layout, cs: seq<nat>, data: Bytes, n: nat)
    requires Writing(g, v0, L0, v, L, cs, data, n)
    ensures n >= |data| ==> |data| <= Capacity(g, v0.fat)
    ensures n < |data| && FreeClusters(v.fat) == {} ==> |data| > Capacity(g, v0.fat)
  {
    hide Inv, FileMap, SameTables, Zeroed, FreeClusters, ChainAdded, Sectors, Contents;
    WritingIsChain(g, v0, L0, v, L, cs, data, n);
    ChainTaken(v.fat, if cs == [] then 0 else cs[0], cs);
    TakenCount(v0.fat, v.fat, cs);
    BytesHeld(g, v.disk, cs);
    NoneFree(v.fat);
    MulGrows(|cs|, |FreeClusters(v0.fat)|, g.spc);
  }

  /** n - 1 clusters are too few for len bytes. */
  ghost predicate MoreThan(g: Geometry, len: nat, n: nat) { n > 0 ==> len > 512 * ((n - 1) * g.spc) }

  /** len bytes need exactly n clusters. */
  ghost predicate Needs(g: Geometry, len: nat, n: nat) { len <= 512 * (n * g.spc) && MoreThan(g, len, n) }

  lemma NeedsOnce(g: Geometry, len: nat, a: nat, b: nat)
    requires Needs(g, len, a) && Needs(g, len, b)
    ensures a == b
  {
    if a < b { MulGrows(a, b - 1, g.spc); }
    if b < a { MulGrows(b, a - 1, g.spc); }
  }

  /** While data is left the clusters taken are full, and in the end they hold it all. */
  lemma ClustersFull(g: Geometry, v0: Vol, L0: Layout, v: Vol, L: Layout, cs: seq<nat>, data: Bytes, n: nat)
    requires Writing(g, v0, L0, v, L, cs, data, n)
    ensures n < |data| ==> MoreThan(g, |data|, |cs| + 1)
    ensures n == |data| && MoreThan(g, |data|, |cs|) ==> Needs(g, |data|, |cs|)
  {
    hide Inv, FileMap, SameTables, Zeroed, ChainAdded, Sectors, Contents;
    BytesHeld(g, v.disk, cs);
  }

  /** After the data is written a slot is free if one was before, or a cluster is left over. */
  lemma RoomAfterWrite(g: Geometry, v1: Vol, L1: Layout, v2: Vol, L2: Layout, cs: seq<nat>, data: Bytes, d: nat)
    requires Writing(g, v1, L1, v2, L2, cs, data, |data|) && d in L1.dirs && Needs(g, |data|, |cs|)
    ensures HasSlot(g, v2, L2, d) <==>
            HasUnused(Table(g, v1, L1, d)) || (d != 0 && !Needs(g, |data|, |FreeClusters(v1.fat)|))
  {
    WritingIsChain(g, v1, L1, v2, L2, cs, data, |data|);
    ChainTaken(v2.fat, if cs == [] then 0 else cs[0], cs);
    NoneFree(v2.fat);
    hide Inv, FileMap, Holds, Table, ChainAdded, Needs;
    assert Table(g, v2, L2, d) == Table(g, v1, L1, d);
    TakenCount(v1.fat, v2.fat, cs);
    if Needs(g, |data|, |FreeClusters(v1.fat)|) { NeedsOnce(g, |data|, |cs|, |FreeClusters(v1.fat)|); }
  }

  /** Erasing an entry leaves its slot unused. */
  lemma ErasedSlot(g: Geometry, v: Vol, L: Layout, d: nat, k: nat)
    requires Inv(g, v, L) && InTable(g, v, L, d, k) && FileEntry(Table(g, v, L, d)[k])
    ensures HasUnused(Table(g, Erased(g, v, L, d, k), ErasedLayout(L, First(Table(g, v, L, d)[k])), d))
  {
    hide Table, Erased, ErasedLayout, Inv, FileEntry;
    EraseTables(g, v, L, d, k, d);
    var e := Table(g, v, L, d)[k];
    assert !Used(Table(g, v, L, d)[k := Deleted(e)][k]);
  }

  lemma MulGrows(a: nat, b: nat, k: nat)
    requires a <= b
    ensures a * k <= b * k
  {
    MulSplit(a, b - a, k);
  }

  lemma LastInRange(g: Geometry, v: Vol, L: Layout, f: nat)
    requires Shape(g, v, L) && Chain(L, f) != []
    ensures f in L.chains && 2 <= Chain(L, f)[|Chain(L, f)| - 1] < |v.fat|
    ensures f in L.dirs ==> f !in L.holder
  {
    assert ChainOk(v.fat, L.own, f, L.chains[f]);
  }

  lemma AgreeTwice(g: Geometry, a: seq<Sector>, b: seq<Sector>, c: seq<Sector>, ds: seq<int>)
    requires AgreeOff(g, a, b, []) && AgreeOff(g, b, c, ds)
    ensures AgreeOff(g, a, c, ds)
  {
  }

  function SectorSlots(sec: Sector): (r: seq<Entry>)
    ensures |r| == 16
  {
    seq(16, i requires 0 <= i < 16 => EntryAt(sec, i))
  }

  lemma SlotsOfSector(disk: seq<Sector>, ds: seq<int>, j: nat)
    requires j < |ds|
    ensures Slots(disk, ds)[16 * j..16 * j + 16] == SectorSlots(SectorOf(disk, ds[j]))
  {
    hide Slots, EntryAt;
    forall i | 0 <= i < 16 ensures Slots(disk, ds)[16 * j + i] == EntryAt(SectorOf(disk, ds[j]), i) {
      SlotsAt(disk, ds, j, i);
    }
  }
}
