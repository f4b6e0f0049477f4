/** What the whole-file writer keeps while it appends clusters, and the composite changes of the
    driver's operations, on values. */
module FatWriting {
  import opened Collections
  import opened FatTypes
  import opened FatSpec
  import opened FatSteps

  // ---- Deleting an entry ---------------------------------------------------------------------------

  function Erased(g: Geometry, v: Vol, L: Layout, d: nat, k: nat): Vol {
    if k < |Table(g, v, L, d)| then
      var e := Table(g, v, L, d)[k];
      Vol(Zeroed(v.fat, Chain(L, First(e))), PutSlot(g, v, L, d, k, Deleted(e)).disk)
    else v
  }

  function ErasedLayout(L: Layout, f: nat): Layout { Dropped(Unhooked(L, f), f) }

  /** Marking a file's entry deleted and freeing its chain removes that file and no other. */
  lemma EraseStep(g: Geometry, v: Vol, L: Layout, d: nat, k: nat)
    requires Inv(g, v, L) && InTable(g, v, L, d, k) && FileEntry(Table(g, v, L, d)[k])
    ensures var v', L' := Erased(g, v, L, d, k), ErasedLayout(L, First(Table(g, v, L, d)[k]));
            && Inv(g, v', L') && FileMap(g, v', L') == FileMap(g, v, L) - {Place(d, k)}
  {
    hide Inv, FileMap, Table, PutSlot, Shape, EntryOk;
    var e := Table(g, v, L, d)[k];
    var f := First(e);
    var v1, L1 := PutSlot(g, v, L, d, k, Deleted(e)), Unhooked(L, f);
    EntryHere(g, v, L, d, k);
    UnhookInv(g, v, L, d, k);
    UnhookFiles(g, v, L, d, k);
    PutEffect(g, v, L, d, k, Deleted(e));
    UnhookedChain(g, L, d, k, e);
    if f != 0 {
      FreeStep(g, v1, L1, f);
    } else {
      assert Zeroed(v.fat, Chain(L, 0)) == v.fat;
    }
  }

  lemma EntryHere(g: Geometry, v: Vol, L: Layout, d: nat, k: nat)
    requires Inv(g, v, L) && InTable(g, v, L, d, k)
    ensures EntryOk(g, L, d, k, Table(g, v, L, d)[k]) && NamesOk(L)
  {
    hide Table, EntryOk;
    assert TableOk(g, L, d, Table(g, v, L, d));
  }

  lemma UnhookedChain(g: Geometry, L: Layout, d: nat, k: nat, e: Entry)
    requires NamesOk(L) && EntryOk(g, L, d, k, e) && FileEntry(e)
    ensures First(e) != 0 ==> Orphan(Unhooked(L, First(e)), First(e))
    ensures First(e) == 0 ==> ErasedLayout(L, 0) == Unhooked(L, 0) && Chain(L, 0) == []
  {
    if First(e) == 0 { assert Unhooked(L, 0).chains - {0} == L.chains; }
  }

  /** The tables after an erase. */
  lemma EraseTables(g: Geometry, v: Vol, L: Layout, d: nat, k: nat, r: nat)
    requires Inv(g, v, L) && InTable(g, v, L, d, k) && FileEntry(Table(g, v, L, d)[k]) && r in L.dirs
    ensures var e := Table(g, v, L, d)[k];
            Table(g, Erased(g, v, L, d, k), ErasedLayout(L, First(e)), r) ==
            if r == d then Table(g, v, L, d)[k := Deleted(e)] else Table(g, v, L, r)
  {
    var e := Table(g, v, L, d)[k];
    assert TableOk(g, L, d, Table(g, v, L, d));
    ErasedHome(g, L, d, k, e, r);
    PutEffect(g, v, L, d, k, Deleted(e));
    if r != d { PutOthers(g, v, L, d, k, Deleted(e), r); }
    hide Home, Inv, InTable, TableOk, Shape, FileEntry, IsRegion, PutSlot;
  }

  lemma ErasedHome(g: Geometry, L: Layout, d: nat, k: nat, e: Entry, r: nat)
    requires NamesOk(L) && FileEntry(e) && EntryOk(g, L, d, k, e) && r in L.dirs
    ensures Home(g, ErasedLayout(L, First(e)), r) == Home(g, L, r)
  {
  }

  // ---- Extending a directory -----------------------------------------------------------------------

  /** Directory d got the cluster c, full of slots never used. */
  ghost predicate Extension(g: Geometry, v: Vol, L: Layout, v': Vol, L': Layout, d: nat, c: nat) {
    && Appendable(g, v, L, d, c) && d in L.dirs && d != 0 && AppendDisk(g, v, L, d, c, v'.disk)
    && (Chain(L, d) == [] || Chain(L, d)[|Chain(L, d)| - 1] < |v.fat|)
    && v'.fat == Linked(v.fat, Chain(L, d), c) && L' == Appended(L, d, c)
  }

  /** Nothing changed, or the directory was extended. */
  ghost predicate Extended(g: Geometry, v: Vol, L: Layout, v': Vol, L': Layout, d: nat, c: nat) {
    if c == 0 then v' == v && L' == L else Extension(g, v, L, v', L', d, c)
  }

  lemma ExtendedInv(g: Geometry, v: Vol, L: Layout, v': Vol, L': Layout, d: nat, c: nat)
    requires Inv(g, v, L) && Extended(g, v, L, v', L', d, c)
    ensures Inv(g, v', L') && FileMap(g, v', L') == FileMap(g, v, L)
    ensures L'.dirs == L.dirs && L'.holder == L.holder
  {
    if c != 0 {
      assert v' == Vol(Linked(v.fat, Chain(L, d), c), v'.disk);
      AppendInv(g, v, L, d, c, v'.disk);
      AppendFiles(g, v, L, d, c, v'.disk);
    }
  }

  lemma ExtendedTable(g: Geometry, v: Vol, L: Layout, v': Vol, L': Layout, d: nat, c: nat, r: nat) returns (n: nat)
    requires Inv(g, v, L) && Extended(g, v, L, v', L', d, c) && r in L.dirs
    ensures Table(g, v', L', r) == Table(g, v, L, r) + ZeroEntries(n)
  {
    if c == 0 || r != d { n := 0; } else { n := 16 * g.spc; }
    if c != 0 { AppendTable(g, v, L, d, c, v'.disk, r); }
  }

  /** A chain that is not the directory's keeps its clusters and their contents. */
  lemma ExtendedChain(g: Geometry, v: Vol, L: Layout, v': Vol, L': Layout, d: nat, c: nat, f: nat)
    requires Inv(g, v, L) && Extended(g, v, L, v', L', d, c) && f in L.chains && f != d
    ensures f in L'.chains && L'.chains[f] == L.chains[f]
    ensures Contents(v'.disk, Sectors(g, Chain(L', f))) == Contents(v.disk, Sectors(g, Chain(L, f)))
  {
    if c != 0 {
      ChainEnd(g, v, L, d, c);
      FreshCluster(g, v, L, c, f);
      AgreeThere(g, v, L, v'.disk, ClusterSectors(g, c), f);
      assert f != c;
    }
  }

  lemma {:induction false} FindInZeros(es: seq<Entry>, n: nat, key: Bytes, k: nat)
    requires k <= |es|
    ensures Find(es + ZeroEntries(n), key, k) == Find(es, key, k)
    decreases |es| - k
  {
    var es' := es + ZeroEntries(n);
    if k < |es| {
      assert es'[k] == es[k];
      FindInZeros(es, n, key, k + 1);
    } else if n > 0 {
      assert es'[k] == ZeroEntries(n)[0];
    }
  }

  // ---- Free clusters -------------------------------------------------------------------------------

  function FreeClusters(fat: seq<nat>): set<nat> {
    set c: nat | 2 <= c < |fat| && fat[c] == FREE_CLUSTER
  }

  lemma {:induction false} DistinctCount(cs: seq<nat>, s: set<nat>)
    requires NoDup(cs) && (forall c :: c in s <==> c in cs)
    ensures |s| == |cs|
    decreases |cs|
  {
    if cs != [] {
      var n := |cs| - 1;
      DistinctCount(cs[..n], s - {cs[n]});
    }
  }

  /** The clusters of cs were the only ones taken: zeroing them gives the FAT before. */
  lemma TakenCount(fat0: seq<nat>, fat: seq<nat>, cs: seq<nat>)
    requires NoDup(cs) && fat0 == Zeroed(fat, cs)
    requires forall i :: 0 <= i < |cs| ==> 2 <= cs[i] < |fat| && fat[cs[i]] != FREE_CLUSTER
    ensures |FreeClusters(fat)| == |FreeClusters(fat0)| - |cs|
  {
    var s := set c | c in cs;
    DistinctCount(cs, s);
    forall c ensures c in FreeClusters(fat0) <==> c in FreeClusters(fat) || c in s { }
    assert FreeClusters(fat0) == FreeClusters(fat) + s;
    assert FreeClusters(fat) !! s;
  }

  /** cs are the lowest clusters of a set, in order. */
  ghost predicate Lowest(cs: seq<nat>, free: set<nat>) {
    && (forall i :: 0 <= i < |cs| ==> cs[i] in free)
    && (forall i, j :: 0 <= i < j < |cs| ==> cs[i] < cs[j])
    && (forall c :: c in free && c !in cs ==> cs == [] || cs[|cs| - 1] < c)
  }

  /** The next cluster taken is the lowest of those left. */
  lemma LowestGrows(fat0: seq<nat>, fat: seq<nat>, cs: seq<nat>, c: nat)
    requires fat0 == Zeroed(fat, cs) && Lowest(cs, FreeClusters(fat0))
    requires forall i :: 0 <= i < |cs| ==> 2 <= cs[i] < |fat| && fat[cs[i]] != FREE_CLUSTER
    requires c in FreeClusters(fat) && forall d :: d in FreeClusters(fat) ==> c <= d
    ensures Lowest(cs + [c], FreeClusters(fat0))
  {
    assert c !in cs;
    forall d | d in FreeClusters(fat0) && d !in cs + [c] ensures c < d { assert d in FreeClusters(fat); }
  }

  /** The clusters of a set that lie on a disk of n sectors. */
  ghost function OnDisk(g: Geometry, free: set<nat>, n: nat): set<nat> { set c | c in free && Lba(g, c) + g.spc <= n }

  lemma LbaGrows(g: Geometry, c: nat, d: nat)
    requires c <= d
    ensures Lba(g, c) <= Lba(g, d)
  {
    assert (d - 2) * g.spc == (c - 2) * g.spc + (d - c) * g.spc;
  }

  /** If a cluster of the chain is past the end then every one on the disk was taken before it. */
  lemma TakenBelow(g: Geometry, cs: seq<nat>, free: set<nat>, n: nat, i: nat, c: nat)
    requires Lowest(cs, free) && i < |cs| && cs[i] !in OnDisk(g, free, n) && c in OnDisk(g, free, n)
    ensures c in cs && c != cs[i]
  {
    hide Lba;
    if cs[i] <= c { LbaGrows(g, cs[i], c); }
    assert cs[i] <= cs[|cs| - 1];
  }

  /** A chain of the lowest free clusters lies on the disk if and only if enough of the free clusters
      do. */
  lemma ChainOnDiskIff(g: Geometry, cs: seq<nat>, free: set<nat>, n: nat)
    requires Lowest(cs, free)
    ensures (forall i :: 0 <= i < |cs| ==> cs[i] in OnDisk(g, free, n)) <==> |cs| <= |OnDisk(g, free, n)|
  {
    hide Lba;
    var s, on := (set c | c in cs), OnDisk(g, free, n);
    DistinctCount(cs, s);
    if i :| 0 <= i < |cs| && cs[i] !in on {
      forall c | c in on ensures c in s - {cs[i]} { TakenBelow(g, cs, free, n, i, c); }
      Subset(on, s - {cs[i]});
    } else {
      Subset(s, on);
    }
  }

  // ---- Writing data --------------------------------------------------------------------------------

  ghost predicate StartsWith(s: Bytes, t: Bytes) { |t| <= |s| && s[..|t|] == t }

  /** The clusters cs were taken, are one orphan chain, and hold the first n bytes of data;
      nothing else changed. */
  ghost predicate Writing(g: Geometry, v0: Vol, L0: Layout, v: Vol, L: Layout, cs: seq<nat>, data: Bytes, n: nat) {
    && Inv(g, v, L) && FileMap(g, v, L) == FileMap(g, v0, L0) && SameTables(g, v0, L0, v, L)
    && ChainAdded(L0, L, cs) && Zeroed(v.fat, cs) == v0.fat
    && Holds(g, v.disk, cs, data, n)
  }

  ghost predicate SameTables(g: Geometry, v0: Vol, L0: Layout, v: Vol, L: Layout) {
    forall r :: r in L0.dirs ==> Table(g, v, L, r) == Table(g, v0, L0, r)
  }

  ghost predicate ChainAdded(L0: Layout, L: Layout, cs: seq<nat>) {
    && L.dirs == L0.dirs && L.holder == L0.holder
    && (if cs == [] then L.chains == L0.chains
        else cs[0] !in L0.chains && cs[0] !in L0.dirs && cs[0] !in L0.holder && L.chains == L0.chains[cs[0] := cs])
  }

  /** The chain starts with the first n bytes, and is full unless they are all. */
  ghost predicate Holds(g: Geometry, disk: seq<Sector>, cs: seq<nat>, data: Bytes, n: nat) {
    && n <= |data| && StartsWith(Contents(disk, Sectors(g, cs)), data[..n])
    && (n < |data| ==> n == 512 * |Sectors(g, cs)|)
  }

  lemma WritingStart(g: Geometry, v: Vol, L: Layout, data: Bytes)
    requires Inv(g, v, L)
    ensures Writing(g, v, L, v, L, [], data, 0)
  {
  }

  /** The disk after the cluster c was filled with data from n on. */
  ghost predicate Filled(g: Geometry, disk: seq<Sector>, disk': seq<Sector>, c: nat, data: Bytes, n: nat, m: nat) {
    && n <= m <= |data| && AgreeOff(g, disk, disk', ClusterSectors(g, c))
    && StartsWith(Contents(disk', ClusterSectors(g, c)), data[n..m])
    && (m < |data| ==> m - n == 512 * g.spc)
  }

  function ChainName(cs: seq<nat>, c: nat): nat { if cs == [] then c else cs[0] }

  ghost predicate Writable(g: Geometry, v0: Vol, L0: Layout, v: Vol, L: Layout, cs: seq<nat>, data: Bytes, n: nat, c: nat) {
    && Writing(g, v0, L0, v, L, cs, data, n) && n < |data|
    && 2 <= c < |v.fat| && v.fat[c] == FREE_CLUSTER
  }

  lemma WritableChain(g: Geometry, v0: Vol, L0: Layout, v: Vol, L: Layout, cs: seq<nat>, data: Bytes, n: nat, c: nat)
    requires Writable(g, v0, L0, v, L, cs, data, n, c)
    ensures Appendable(g, v, L, ChainName(cs, c), c) && Chain(L, ChainName(cs, c)) == cs
    ensures ChainName(cs, c) !in L.dirs && (cs == [] || cs[|cs| - 1] < |v.fat|)
    ensures c !in cs && c !in L0.chains && c !in L0.dirs && c !in L0.holder
    ensures cs != [] ==> cs[0] in L.chains && Disjoint(ClusterSectors(g, c), Home(g, L, cs[0]))
  {
    hide TablesOk, FileMap, SameTables, Holds;
    if cs == [] {
      ChainEnd(g, v, L, c, c);
    } else {
      ChainEnd(g, v, L, cs[0], c);
      FreeIsUnchained(g, v, L, c, cs[0]);
      FreshCluster(g, v, L, c, cs[0]);
    }
  }

  lemma ZeroedAppend(fat: seq<nat>, cs: seq<nat>, c: nat)
    requires c < |fat| && (cs == [] || cs[|cs| - 1] < |fat|) && fat[c] == FREE_CLUSTER
    ensures Zeroed(Linked(fat, cs, c), cs + [c]) == Zeroed(fat, cs)
  {
    if cs != [] { assert cs[|cs| - 1] in cs; }
  }

  lemma WriteBytes(g: Geometry, disk': seq<Sector>, disk: seq<Sector>, cs: seq<nat>, data: Bytes, n: nat, c: nat, m: nat)
    requires Holds(g, disk, cs, data, n) && n < |data| && Filled(g, disk, disk', c, data, n, m)
    requires AgreeOn(disk, disk', Sectors(g, cs))
    ensures Holds(g, disk', cs + [c], data, m)
  {
    hide Contents, Sectors, AgreeOn, AgreeOff;
    var a, b := Sectors(g, cs), ClusterSectors(g, c);
    SectorsAppend(g, cs, c);
    ContentsConcat(disk', a, b);
    ContentsSame(disk, disk', a);
    HeldLen(disk, a);
    assert data[..m] == data[..n] + data[n..m];
    assert Contents(disk, a) == data[..n];
    JoinStarts(data[..n], Contents(disk', b), data[n..m]);
  }

  lemma SectorsAppend(g: Geometry, cs: seq<nat>, c: nat)
    ensures Sectors(g, cs + [c]) == Sectors(g, cs) + ClusterSectors(g, c) && |ClusterSectors(g, c)| == g.spc
  {
    assert (cs + [c])[..|cs|] == cs;
  }

  lemma HeldLen(disk: seq<Sector>, ds: seq<int>)
    ensures |Contents(disk, ds)| == 512 * |ds|
  {
  }

  lemma JoinStarts(x: Bytes, y: Bytes, t: Bytes)
    requires StartsWith(y, t)
    ensures StartsWith(x + y, x + t)
  {
  }

  lemma AppendAgrees(g: Geometry, v: Vol, L: Layout, cs: seq<nat>, c: nat, disk': seq<Sector>)
    requires Shape(g, v, L) && AgreeOff(g, v.disk, disk', ClusterSectors(g, c))
    requires cs != [] ==> cs[0] in L.chains && L.chains[cs[0]] == cs && Disjoint(ClusterSectors(g, c), Home(g, L, cs[0]))
    ensures AgreeOn(v.disk, disk', Sectors(g, cs))
  {
    if cs != [] {
      AgreeThere(g, v, L, disk', ClusterSectors(g, c), cs[0]);
      assert ChainOk(v.fat, L.own, cs[0], cs);
    }
  }

  lemma AppendTables(g: Geometry, v: Vol, L: Layout, f: nat, c: nat, disk': seq<Sector>)
    requires Appendable(g, v, L, f, c) && AppendDisk(g, v, L, f, c, disk') && f !in L.dirs
    requires Chain(L, f) == [] || Chain(L, f)[|Chain(L, f)| - 1] < |v.fat|
    ensures SameTables(g, v, L, Vol(Linked(v.fat, Chain(L, f), c), disk'), Appended(L, f, c))
  {
    forall r | r in L.dirs ensures Slots(disk', Home(g, Appended(L, f, c), r)) == Table(g, v, L, r) {
      AppendTable(g, v, L, f, c, disk', r);
    }
  }

  /** One more cluster. */
  lemma WriteStep(g: Geometry, v0: Vol, L0: Layout, v: Vol, L: Layout, cs: seq<nat>, data: Bytes, n: nat,
                  c: nat, disk': seq<Sector>, m: nat)
    requires Writable(g, v0, L0, v, L, cs, data, n, c) && Filled(g, v.disk, disk', c, data, n, m)
    requires cs == [] || cs[|cs| - 1] < |v.fat|
    ensures Writing(g, v0, L0, Vol(Linked(v.fat, cs, c), disk'), Appended(L, ChainName(cs, c), c), cs + [c], data, m)
  {
    hide Inv, FileMap, Table, Zeroed, Linked, StartsWith, Contents, Sectors, Holds, Shape;
    var f := ChainName(cs, c);
    WritableChain(g, v0, L0, v, L, cs, data, n, c);
    AppendInv(g, v, L, f, c, disk');
    AppendFiles(g, v, L, f, c, disk');
    AppendTables(g, v, L, f, c, disk');
    ZeroedAppend(v.fat, cs, c);
    AppendAgrees(g, v, L, cs, c, disk');
    WriteBytes(g, disk', v.disk, cs, data, n, c, m);
    assert ChainAdded(L0, Appended(L, f, c), cs + [c]);
  }

  /** Giving all clusters back. */
  lemma WriteUndone(g: Geometry, v0: Vol, L0: Layout, v: Vol, L: Layout, cs: seq<nat>, data: Bytes, n: nat)
    requires Writing(g, v0, L0, v, L, cs, data, n)
    ensures var L' := if cs == [] then L else Dropped(L, cs[0]);
            && Inv(g, v.(fat := v0.fat), L') && FileMap(g, v.(fat := v0.fat), L') == FileMap(g, v0, L0)
            && L'.chains == L0.chains && L'.dirs == L0.dirs && L'.holder == L0.holder
  {
    hide Inv, FileMap, Table, Holds, SameTables;
    if cs == [] {
      assert v.fat == Zeroed(v.fat, []);
      assert v.(fat := v0.fat) == v;
    } else {
      FreeStep(g, v, L, cs[0]);
      assert L.chains - {cs[0]} == L0.chains;
    }
  }
}
