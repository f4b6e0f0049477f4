/** The abstract content of a FAT16 volume and the invariant that makes it well defined.

    `Vol` is the state the driver works on: its FAT in memory and the sectors of the disk.
    `Layout` is a witness: the cluster chains, which of them are directories, and tags that
    give every chained cluster one position and every chained file one directory slot. From
    the tags follow acyclicity and disjointness (ChainsApart). The meaning of a volume is
    `Files`, a map from (directory, case-folded name) to bytes. */
module FatSpec {
  import opened Collections
  import opened FatTypes

  datatype Vol = Vol(fat: seq<nat>, disk: seq<Sector>)

  datatype Pos = Pos(chain: nat, index: nat)

  datatype Place = Place(dir: nat, slot: nat)

  /** Chains and directories are named by their first cluster; 0 is the root directory, which
      has no chain. */
  datatype Layout = Layout(
    chains: map<nat, seq<nat>>, dirs: set<nat>, own: map<nat, Pos>, holder: map<nat, Place>)

  function Chain(L: Layout, f: nat): seq<nat> { if f in L.chains then L.chains[f] else [] }

  /** The sectors of a directory or chain. */
  function Home(g: Geometry, L: Layout, d: nat): seq<int> {
    if d == 0 then RootSectors(g) else Sectors(g, Chain(L, d))
  }

  function Table(g: Geometry, v: Vol, L: Layout, d: nat): seq<Entry> { Slots(v.disk, Home(g, L, d)) }

  // ---- The invariant ----------------------------------------------------------------------------

  /** Every cluster the FAT can name lies on the disk. */
  ghost predicate SizesOk(g: Geometry, v: Vol) {
    && GeoOk(g) && |v.fat| == Total(g) && DataStart(g) <= |v.disk|
    && (forall c :: 0 <= c < |v.fat| ==> v.fat[c] <= 0xFFFF)
    && (forall c: nat :: 2 <= c < |v.fat| ==> Lba(g, c) + g.spc <= |v.disk|)
  }

  ghost predicate ChainOk(fat: seq<nat>, own: map<nat, Pos>, f: nat, cs: seq<nat>) {
    && |cs| > 0 && cs[0] == f
    && (forall i :: 0 <= i < |cs| ==> 2 <= cs[i] < |fat| && cs[i] in own && own[cs[i]] == Pos(f, i))
    && (forall i, j :: 0 <= i && j == i + 1 && j < |cs| ==> fat[cs[i]] == cs[j])
    && END_MARK <= fat[cs[|cs| - 1]]
  }

  ghost predicate ChainsOk(fat: seq<nat>, L: Layout) {
    forall f :: f in L.chains ==> ChainOk(fat, L.own, f, L.chains[f])
  }

  ghost predicate NamesOk(L: Layout) {
    && 0 in L.dirs && 0 !in L.chains
    && (forall d :: d in L.dirs ==> d == 0 || d in L.chains)
    && (forall f :: f in L.holder ==> f in L.chains && f !in L.dirs)
  }

  /** A visible entry has room for its size; a directory entry names a directory; a file entry
      is empty or is the only one that names its chain. */
  ghost predicate EntryOk(g: Geometry, L: Layout, d: nat, k: nat, e: Entry) {
    Visible(e) ==>
      && Size(e) <= 512 * |Sectors(g, Chain(L, First(e)))|
      && (IsDirectory(e) ==> Size(e) == 0 && First(e) in L.dirs)
      && (!IsDirectory(e) ==> First(e) == 0 || (First(e) in L.holder && L.holder[First(e)] == Place(d, k)))
  }

  ghost predicate EntriesOk(g: Geometry, L: Layout, d: nat, es: seq<Entry>) {
    forall k :: 0 <= k < |es| ==> EntryOk(g, L, d, k, es[k])
  }

  /** After the first slot never used there are only slots never used. */
  ghost predicate ZeroTail(es: seq<Entry>) {
    forall j, k :: 0 <= j < k < |es| && es[j][0] == 0 ==> es[k][0] == 0
  }

  ghost predicate UniqueKeys(es: seq<Entry>) {
    forall j, k :: 0 <= j < k < |es| && Visible(es[j]) && Visible(es[k]) ==>
      Key(NameOf(es[j])) != Key(NameOf(es[k]))
  }

  ghost predicate TableOk(g: Geometry, L: Layout, d: nat, es: seq<Entry>) {
    EntriesOk(g, L, d, es) && ZeroTail(es) && UniqueKeys(es)
  }

  ghost predicate TablesOk(g: Geometry, v: Vol, L: Layout) {
    forall d :: d in L.dirs ==> TableOk(g, L, d, Table(g, v, L, d))
  }

  ghost predicate Inv(g: Geometry, v: Vol, L: Layout) {
    SizesOk(g, v) && ChainsOk(v.fat, L) && NamesOk(L) && TablesOk(g, v, L)
  }

  /** Live chains are in range, free of cycles, pairwise disjoint and clear of free clusters. */
  lemma ChainsApart(g: Geometry, v: Vol, L: Layout, a: nat, b: nat)
    requires SizesOk(g, v) && ChainsOk(v.fat, L) && a in L.chains && b in L.chains
    ensures forall i :: 0 <= i < |L.chains[a]| ==> 2 <= L.chains[a][i] < |v.fat| && v.fat[L.chains[a][i]] != FREE_CLUSTER
    ensures NoDup(L.chains[a])
    ensures a != b ==> Disjoint(L.chains[a], L.chains[b])
  {
    var p := L.chains[a];
    assert ChainOk(v.fat, L.own, a, p) && ChainOk(v.fat, L.own, b, L.chains[b]);
    forall i | 0 <= i < |p| ensures v.fat[p[i]] != FREE_CLUSTER {
      if i + 1 < |p| { var j := i + 1; assert v.fat[p[i]] == p[j]; }
    }
  }

  // ---- Regions ----------------------------------------------------------------------------------

  ghost predicate IsRegion(L: Layout, r: nat) { r == 0 || r in L.chains }

  ghost predicate Shape(g: Geometry, v: Vol, L: Layout) {
    SizesOk(g, v) && ChainsOk(v.fat, L) && NamesOk(L)
  }

  lemma RegionOk(g: Geometry, v: Vol, L: Layout, r: nat)
    requires Shape(g, v, L) && IsRegion(L, r)
    ensures NoDup(Home(g, L, r))
    ensures forall j :: 0 <= j < |Home(g, L, r)| ==> RootLba(g) <= Home(g, L, r)[j] < |v.disk|
    ensures r != 0 ==> forall j :: 0 <= j < |Home(g, L, r)| ==> DataStart(g) <= Home(g, L, r)[j]
  {
    if r != 0 {
      var cs, ds := L.chains[r], Home(g, L, r);
      assert ChainOk(v.fat, L.own, r, cs);
      ChainsApart(g, v, L, r, r);
      SectorsNoDup(g, cs);
      forall j | 0 <= j < |ds| ensures DataStart(g) <= ds[j] < |v.disk| {
        SectorIsInCluster(g, cs, j);
        var i :| 0 <= i < |cs| && InCluster(g, cs[i], ds[j]);
        ClustersApart(g, cs[i], cs[i], ds[j]);
      }
    }
  }

  /** Distinct regions share no sector. */
  lemma RegionsApart(g: Geometry, v: Vol, L: Layout, a: nat, b: nat)
    requires Shape(g, v, L) && IsRegion(L, a) && IsRegion(L, b) && a != b
    ensures Disjoint(Home(g, L, a), Home(g, L, b))
  {
    RegionOk(g, v, L, a);
    RegionOk(g, v, L, b);
    if a != 0 && b != 0 {
      ChainsApart(g, v, L, a, b);
      SectorsDisjoint(g, L.chains[a], L.chains[b]);
    }
  }

  /** Outside the FATs the disks differ at most in the sectors ds. */
  ghost predicate AgreeOff(g: Geometry, disk: seq<Sector>, disk': seq<Sector>, ds: seq<int>) {
    && |disk'| == |disk|
    && forall x :: RootLba(g) <= x < |disk| && x !in ds ==> disk'[x] == disk[x]
  }

  lemma InClusterSectors(g: Geometry, c: nat, x: int)
    ensures InCluster(g, c, x) <==> x in ClusterSectors(g, c)
  {
    var ds := ClusterSectors(g, c);
    if InCluster(g, c, x) { assert ds[x - Lba(g, c)] == x; }
  }

  lemma AgreeThere(g: Geometry, v: Vol, L: Layout, disk': seq<Sector>, ds: seq<int>, r: nat)
    requires Shape(g, v, L) && IsRegion(L, r)
    requires AgreeOff(g, v.disk, disk', ds) && Disjoint(ds, Home(g, L, r))
    ensures AgreeOn(v.disk, disk', Home(g, L, r))
    ensures Slots(disk', Home(g, L, r)) == Slots(v.disk, Home(g, L, r))
    ensures Contents(disk', Home(g, L, r)) == Contents(v.disk, Home(g, L, r))
  {
    RegionOk(g, v, L, r);
    SlotsSame(v.disk, disk', Home(g, L, r));
    ContentsSame(v.disk, disk', Home(g, L, r));
  }

  // ---- Lookup -----------------------------------------------------------------------------------

  /** What the scan of a directory finds, from slot k on: it stops at a slot never used. */
  function Find(es: seq<Entry>, key: Bytes, k: nat): int
    decreases |es| - k
  {
    if k >= |es| || es[k][0] == 0 then -1
    else if Visible(es[k]) && Key(NameOf(es[k])) == key then k
    else Find(es, key, k + 1)
  }

  ghost predicate IsAt(es: seq<Entry>, key: Bytes, k: int) {
    0 <= k < |es| && Visible(es[k]) && Key(NameOf(es[k])) == key
  }

  lemma {:induction false} FindFrom(es: seq<Entry>, key: Bytes, k: nat)
    requires ZeroTail(es) && k <= |es|
    ensures Find(es, key, k) == -1 || IsAt(es, key, Find(es, key, k))
    ensures Find(es, key, k) == -1 ==> forall j :: k <= j < |es| ==> !IsAt(es, key, j)
    decreases |es| - k
  {
    if k < |es| && es[k][0] != 0 { FindFrom(es, key, k + 1); }
  }

  lemma OneAt(es: seq<Entry>, key: Bytes, j: int, k: int)
    requires UniqueKeys(es)
    ensures IsAt(es, key, j) && IsAt(es, key, k) ==> j == k
  {
    hide Key, Visible;
  }

  /** Lookup finds exactly the visible entry with the wanted name. */
  lemma FindIff(es: seq<Entry>, key: Bytes, k: int)
    requires ZeroTail(es) && UniqueKeys(es)
    ensures IsAt(es, key, k) <==> k >= 0 && Find(es, key, 0) == k
    ensures Find(es, key, 0) >= 0 || Find(es, key, 0) == -1
  {
    FindFrom(es, key, 0);
    var j := Find(es, key, 0);
    if IsAt(es, key, k) { OneAt(es, key, j, k); }
  }

  // ---- Files ------------------------------------------------------------------------------------

  datatype File = File(key: Bytes, bytes: Bytes)

  datatype FileName = FileName(dir: nat, key: Bytes)

  function FileBytes(g: Geometry, v: Vol, L: Layout, e: Entry): Bytes {
    Take(Contents(v.disk, Sectors(g, Chain(L, First(e)))), Size(e))
  }

  predicate FileEntry(e: Entry) { Visible(e) && !IsDirectory(e) }

  ghost predicate IsFile(g: Geometry, v: Vol, L: Layout, q: Place) {
    q.dir in L.dirs && q.slot < |Table(g, v, L, q.dir)| && FileEntry(Table(g, v, L, q.dir)[q.slot])
  }

  ghost function FileAt(g: Geometry, v: Vol, L: Layout, q: Place): File
    requires q.slot < |Table(g, v, L, q.dir)|
  {
    var e := Table(g, v, L, q.dir)[q.slot];
    File(Key(NameOf(e)), FileBytes(g, v, L, e))
  }

  /** The files of the volume by directory slot. */
  ghost function FileMap(g: Geometry, v: Vol, L: Layout): imap<Place, File> {
    imap q: Place | IsFile(g, v, L, q) :: FileAt(g, v, L, q)
  }

  ghost predicate Named(m: imap<Place, File>, n: FileName, q: Place) {
    q in m && q.dir == n.dir && m[q].key == n.key
  }

  /** The files by directory and name. */
  ghost function ByName(m: imap<Place, File>): imap<FileName, Bytes> {
    imap n: FileName | HasName(m, n) :: BytesNamed(m, n)
  }

  ghost predicate HasName(m: imap<Place, File>, n: FileName) { exists q :: Named(m, n, q) }

  ghost function BytesNamed(m: imap<Place, File>, n: FileName): Bytes
    requires HasName(m, n)
  {
    var q :| Named(m, n, q);
    m[q].bytes
  }

  ghost function Files(g: Geometry, v: Vol, L: Layout): imap<FileName, Bytes> {
    ByName(FileMap(g, v, L))
  }

  ghost predicate OneName(m: imap<Place, File>) {
    forall n, q, r :: Named(m, n, q) && Named(m, n, r) ==> q == r
  }

  lemma NamesUnique(g: Geometry, v: Vol, L: Layout)
    requires TablesOk(g, v, L)
    ensures OneName(FileMap(g, v, L))
  {
    var m := FileMap(g, v, L);
    forall n, q, r | Named(m, n, q) && Named(m, n, r) ensures q == r {
      var es := Table(g, v, L, n.dir);
      assert TableOk(g, L, n.dir, es);
      FindIff(es, n.key, q.slot);
      FindIff(es, n.key, r.slot);
    }
  }

  lemma ByNameAt(m: imap<Place, File>, n: FileName, q: Place)
    requires OneName(m) && Named(m, n, q)
    ensures n in ByName(m) && ByName(m)[n] == m[q].bytes
  {
  }

  lemma ByNameRemove(m: imap<Place, File>, q: Place, n: FileName)
    requires OneName(m) && Named(m, n, q)
    ensures ByName(m - {q}) == ByName(m) - {n}
  {
    var m' := m - {q};
    forall p, r | Named(m', p, r) ensures Named(m, p, r) { }
    forall p, r | Named(m, p, r) && p != n ensures Named(m', p, r) { }
    forall p | p in ByName(m') ensures p != n && p in ByName(m) && ByName(m')[p] == ByName(m)[p] {
      var r :| Named(m', p, r);
      ByNameAt(m, p, r);
      ByNameAt(m', p, r);
    }
    forall p | p in ByName(m) && p != n ensures p in ByName(m') {
      var r :| Named(m, p, r);
      assert Named(m', p, r);
    }
  }

  lemma ByNameAdd(m: imap<Place, File>, q: Place, file: File)
    requires OneName(m) && OneName(m[q := file]) && q !in m
    ensures ByName(m[q := file]) == ByName(m)[FileName(q.dir, file.key) := file.bytes]
  {
    var m', n := m[q := file], FileName(q.dir, file.key);
    assert Named(m', n, q);
    ByNameAt(m', n, q);
    forall p | p in ByName(m) && p != n ensures p in ByName(m') && ByName(m')[p] == ByName(m)[p] {
      var r :| Named(m, p, r);
      assert Named(m', p, r);
      ByNameAt(m, p, r);
      ByNameAt(m', p, r);
    }
    forall p | p in ByName(m') && p != n ensures p in ByName(m) {
      var r :| Named(m', p, r);
      assert Named(m, p, r);
    }
  }

  lemma NamedIff(g: Geometry, v: Vol, L: Layout, n: FileName, q: Place)
    ensures var es := Table(g, v, L, n.dir);
            && (Named(FileMap(g, v, L), n, q) <==>
               n.dir in L.dirs && q.dir == n.dir && IsAt(es, n.key, q.slot) && FileEntry(es[q.slot]))
            && (Named(FileMap(g, v, L), n, q) ==> FileMap(g, v, L)[q].bytes == FileBytes(g, v, L, es[q.slot]))
  {
    hide Table, FileBytes, Visible, Key;
  }

  /** A name is in Files exactly when lookup finds a file entry, and Files gives its bytes. */
  lemma FilesAre(g: Geometry, v: Vol, L: Layout, d: nat, key: Bytes)
    requires Inv(g, v, L) && d in L.dirs
    ensures var es, k := Table(g, v, L, d), Find(Table(g, v, L, d), key, 0);
            && (FileName(d, key) in Files(g, v, L) <==> 0 <= k < |es| && FileEntry(es[k]))
            && (0 <= k < |es| && FileEntry(es[k]) ==> Files(g, v, L)[FileName(d, key)] == FileBytes(g, v, L, es[k]))
  {
    var es, m, n := Table(g, v, L, d), FileMap(g, v, L), FileName(d, key);
    assert TableOk(g, L, d, es);
    var k := Find(es, key, 0);
    FindIff(es, key, k);
    NamesUnique(g, v, L);
    assert n in ByName(m) <==> HasName(m, n);
    hide Table, FileBytes, Inv, Find, FileMap, ByName, Named, IsAt, FileEntry;
    if 0 <= k < |es| && FileEntry(es[k]) {
      NamedIff(g, v, L, n, Place(d, k));
      ByNameAt(m, n, Place(d, k));
    } else if HasName(m, n) {
      var q :| Named(m, n, q);
      NamedIff(g, v, L, n, q);
      FindIff(es, key, q.slot);
    }
  }
}
