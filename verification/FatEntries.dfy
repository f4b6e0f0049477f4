/** The whole listing of a volume, files and directories alike: which 32-byte entry a lookup finds
    under each name of each directory, and what every change of the driver does to it. */
module FatEntries {
  import opened FatTypes
  import opened FatSpec
  import opened FatSteps
  import opened FatWriting
  import opened FatOps

  ghost predicate Listed(g: Geometry, v: Vol, L: Layout, n: FileName) {
    n.dir in L.dirs && 0 <= SlotOf(g, v, L, n.dir, n.key) < |Table(g, v, L, n.dir)|
  }

  ghost function EntryOf(g: Geometry, v: Vol, L: Layout, n: FileName): Entry
    requires Listed(g, v, L, n)
  {
    Table(g, v, L, n.dir)[SlotOf(g, v, L, n.dir, n.key)]
  }

  /** The entries by directory and name. */
  ghost function Entries(g: Geometry, v: Vol, L: Layout): imap<FileName, Entry> {
    imap n: FileName | Listed(g, v, L, n) :: EntryOf(g, v, L, n)
  }

  lemma ListedAt(g: Geometry, v: Vol, L: Layout, n: FileName, k: int)
    requires Inv(g, v, L) && n.dir in L.dirs
    ensures IsAt(Table(g, v, L, n.dir), n.key, k) ==> Listed(g, v, L, n) && EntryOf(g, v, L, n) == Table(g, v, L, n.dir)[k]
    ensures Listed(g, v, L, n) ==> IsAt(Table(g, v, L, n.dir), n.key, SlotOf(g, v, L, n.dir, n.key))
  {
    SlotFound(g, v, L, n.dir, n.key, k);
    SlotFound(g, v, L, n.dir, n.key, SlotOf(g, v, L, n.dir, n.key));
    hide Table, Inv, SlotOf;
  }

  /** The listing is the same at one name. */
  ghost predicate SameAt(g: Geometry, v: Vol, L: Layout, v': Vol, L': Layout, n: FileName) {
    && (Listed(g, v', L', n) <==> Listed(g, v, L, n))
    && (Listed(g, v, L, n) ==> EntryOf(g, v', L', n) == EntryOf(g, v, L, n))
  }

  lemma AllSame(g: Geometry, v: Vol, L: Layout, v': Vol, L': Layout)
    requires forall n :: SameAt(g, v, L, v', L', n)
    ensures Entries(g, v', L') == Entries(g, v, L)
  {
    hide Listed, EntryOf;
    var m, m' := Entries(g, v, L), Entries(g, v', L');
    forall n ensures (n in m' <==> n in m) && (n in m ==> m'[n] == m[n]) { assert SameAt(g, v, L, v', L', n); }
  }

  lemma OneGone(g: Geometry, v: Vol, L: Layout, v': Vol, L': Layout, p: FileName)
    requires !Listed(g, v', L', p) && forall n :: n != p ==> SameAt(g, v, L, v', L', n)
    ensures Entries(g, v', L') == Entries(g, v, L) - {p}
  {
    hide Listed, EntryOf;
    var m, m' := Entries(g, v, L), Entries(g, v', L');
    forall n | n != p ensures (n in m' <==> n in m) && (n in m ==> m'[n] == m[n]) { assert SameAt(g, v, L, v', L', n); }
    assert p !in m';
  }

  lemma OneNew(g: Geometry, v: Vol, L: Layout, v': Vol, L': Layout, p: FileName, e: Entry)
    requires Listed(g, v', L', p) && EntryOf(g, v', L', p) == e && forall n :: n != p ==> SameAt(g, v, L, v', L', n)
    ensures Entries(g, v', L') == Entries(g, v, L)[p := e]
  {
    hide Listed, EntryOf;
    var m, m' := Entries(g, v, L), Entries(g, v', L');
    forall n | n != p ensures (n in m' <==> n in m) && (n in m ==> m'[n] == m[n]) { assert SameAt(g, v, L, v', L', n); }
    assert p in m' && m'[p] == e;
  }

  /** Table r is as it was, but for slots never used at its end. */
  lemma SameTable(g: Geometry, v: Vol, L: Layout, v': Vol, L': Layout, n: FileName, zeros: nat)
    requires Inv(g, v, L) && n.dir in L.dirs && n.dir in L'.dirs
    requires Table(g, v', L', n.dir) == Table(g, v, L, n.dir) + ZeroEntries(zeros)
    ensures SameAt(g, v, L, v', L', n)
  {
    hide Table, Inv;
    var es := Table(g, v, L, n.dir);
    FindInZeros(es, zeros, n.key, 0);
    SlotFound(g, v, L, n.dir, n.key, SlotOf(g, v, L, n.dir, n.key));
  }

  lemma SameTableExactly(g: Geometry, v: Vol, L: Layout, v': Vol, L': Layout, n: FileName)
    requires n.dir in L.dirs && n.dir in L'.dirs && Table(g, v', L', n.dir) == Table(g, v, L, n.dir)
    ensures SameAt(g, v, L, v', L', n)
  {
    hide Table, Find;
  }

  /** Only the table of d changed, and is now es. */
  ghost predicate TableChanged(g: Geometry, v: Vol, L: Layout, v': Vol, L': Layout, d: nat, es: seq<Entry>) {
    && L'.dirs == L.dirs && d in L.dirs && Table(g, v', L', d) == es
    && forall r :: r in L.dirs && r != d ==> Table(g, v', L', r) == Table(g, v, L, r)
  }

  lemma OtherDirectory(g: Geometry, v: Vol, L: Layout, v': Vol, L': Layout, d: nat, es: seq<Entry>, n: FileName)
    requires TableChanged(g, v, L, v', L', d, es) && n.dir != d
    ensures SameAt(g, v, L, v', L', n)
  {
    hide Table, SameAt;
    if n.dir in L.dirs { SameTableExactly(g, v, L, v', L', n); } else { NotThere(g, v, L, v', L', n); }
  }

  lemma NotThere(g: Geometry, v: Vol, L: Layout, v': Vol, L': Layout, n: FileName)
    requires n.dir !in L.dirs && n.dir !in L'.dirs
    ensures SameAt(g, v, L, v', L', n)
  {
  }

  /** One entry of a directory marked deleted: every other name keeps its entry. */
  lemma SlotErased(g: Geometry, v: Vol, L: Layout, v': Vol, L': Layout, d: nat, k: nat, key: Bytes)
    requires Inv(g, v, L) && Inv(g, v', L') && IsAt(Table(g, v, L, d), key, k)
    requires TableChanged(g, v, L, v', L', d, Table(g, v, L, d)[k := Deleted(Table(g, v, L, d)[k])])
    ensures Entries(g, v', L') == Entries(g, v, L) - {FileName(d, key)}
  {
    hide Inv, Table, Entries, Listed, EntryOf, SameAt, TableChanged;
    var es' := Table(g, v, L, d)[k := Deleted(Table(g, v, L, d)[k])];
    forall n: FileName | n != FileName(d, key) ensures SameAt(g, v, L, v', L', n) {
      if n.dir == d { ErasedOther(g, v, L, v', L', d, k, key, n); } else { OtherDirectory(g, v, L, v', L', d, es', n); }
    }
    ErasedGone(g, v, L, v', L', d, k, key);
    OneGone(g, v, L, v', L', FileName(d, key));
  }

  lemma ErasedAt(es: seq<Entry>, k: nat, key: Bytes, j: int)
    requires k < |es|
    ensures IsAt(es[k := Deleted(es[k])], key, j) <==> j != k && IsAt(es, key, j)
  {
    hide Key;
    assert !Visible(Deleted(es[k]));
  }

  lemma ErasedOther(g: Geometry, v: Vol, L: Layout, v': Vol, L': Layout, d: nat, k: nat, key: Bytes, n: FileName)
    requires Inv(g, v, L) && Inv(g, v', L') && IsAt(Table(g, v, L, d), key, k)
    requires TableChanged(g, v, L, v', L', d, Table(g, v, L, d)[k := Deleted(Table(g, v, L, d)[k])])
    requires n.dir == d && n.key != key
    ensures SameAt(g, v, L, v', L', n)
  {
    hide Inv, Table, Find, Visible, Key;
    var j, j' := SlotOf(g, v, L, d, n.key), SlotOf(g, v', L', d, n.key);
    ErasedAt(Table(g, v, L, d), k, n.key, j);
    ErasedAt(Table(g, v, L, d), k, n.key, j');
    ListedAt(g, v, L, n, j');
    ListedAt(g, v', L', n, j);
  }

  lemma ErasedGone(g: Geometry, v: Vol, L: Layout, v': Vol, L': Layout, d: nat, k: nat, key: Bytes)
    requires Inv(g, v, L) && Inv(g, v', L') && IsAt(Table(g, v, L, d), key, k)
    requires TableChanged(g, v, L, v', L', d, Table(g, v, L, d)[k := Deleted(Table(g, v, L, d)[k])])
    ensures !Listed(g, v', L', FileName(d, key))
  {
    hide Inv, Table, Find, Visible, Key;
    var j := SlotOf(g, v', L', d, key);
    ErasedAt(Table(g, v, L, d), k, key, j);
    ListedAt(g, v', L', FileName(d, key), j);
    SlotFound(g, v, L, d, key, j);
    SlotFound(g, v, L, d, key, k);
  }

  /** One unused slot of a directory filled: every other name keeps its entry. */
  lemma SlotFilled(g: Geometry, v: Vol, L: Layout, v': Vol, L': Layout, d: nat, k: nat, e: Entry)
    requires Inv(g, v, L) && Inv(g, v', L') && k < |Table(g, v, L, d)| && !Used(Table(g, v, L, d)[k]) && Visible(e)
    requires TableChanged(g, v, L, v', L', d, Table(g, v, L, d)[k := e])
    ensures Entries(g, v', L') == Entries(g, v, L)[FileName(d, SomeKey(e)) := e]
  {
    hide Inv, Table, Entries, Listed, EntryOf, SameAt, TableChanged, SomeKey, Visible, Used;
    var es', p := Table(g, v, L, d)[k := e], FileName(d, SomeKey(e));
    forall n: FileName | n != p ensures SameAt(g, v, L, v', L', n) {
      if n.dir == d { FilledOther(g, v, L, v', L', d, k, e, n); } else { OtherDirectory(g, v, L, v', L', d, es', n); }
    }
    FilledNew(g, v, L, v', L', d, k, e);
    OneNew(g, v, L, v', L', p, e);
  }

  lemma FilledOther(g: Geometry, v: Vol, L: Layout, v': Vol, L': Layout, d: nat, k: nat, e: Entry, n: FileName)
    requires Inv(g, v, L) && Inv(g, v', L') && k < |Table(g, v, L, d)| && !Used(Table(g, v, L, d)[k]) && Visible(e)
    requires TableChanged(g, v, L, v', L', d, Table(g, v, L, d)[k := e]) && n.dir == d && n.key != SomeKey(e)
    ensures SameAt(g, v, L, v', L', n)
  {
    hide Inv, Table, Find, Key;
    var j, j' := SlotOf(g, v, L, d, n.key), SlotOf(g, v', L', d, n.key);
    ListedAt(g, v, L, n, j');
    ListedAt(g, v', L', n, j);
  }

  lemma FilledNew(g: Geometry, v: Vol, L: Layout, v': Vol, L': Layout, d: nat, k: nat, e: Entry)
    requires Inv(g, v', L') && k < |Table(g, v, L, d)| && Visible(e)
    requires TableChanged(g, v, L, v', L', d, Table(g, v, L, d)[k := e])
    ensures Listed(g, v', L', FileName(d, SomeKey(e))) && EntryOf(g, v', L', FileName(d, SomeKey(e))) == e
  {
    hide Inv, Table, Find, Key;
    ListedAt(g, v', L', FileName(d, SomeKey(e)), k);
  }

  // ---- The changes of the driver -------------------------------------------------------------------

  lemma FlushEntries(g: Geometry, v: Vol, L: Layout, disk': seq<Sector>)
    requires Inv(g, v, L) && AgreeOff(g, v.disk, disk', [])
    ensures Entries(g, Vol(v.fat, disk'), L) == Entries(g, v, L)
  {
    hide Entries, SameAt, Table, Inv;
    forall n: FileName ensures SameAt(g, v, L, Vol(v.fat, disk'), L, n) {
      if n.dir in L.dirs {
        MkdirTable(g, v, L, disk', n.dir);
        SameTableExactly(g, v, L, Vol(v.fat, disk'), L, n);
      } else {
        NotThere(g, v, L, Vol(v.fat, disk'), L, n);
      }
    }
    AllSame(g, v, L, Vol(v.fat, disk'), L);
  }

  lemma SameTablesEntries(g: Geometry, v: Vol, L: Layout, v': Vol, L': Layout)
    requires SameTables(g, v, L, v', L') && L'.dirs == L.dirs
    ensures Entries(g, v', L') == Entries(g, v, L)
  {
    hide Entries, SameAt, Table;
    forall n: FileName ensures SameAt(g, v, L, v', L', n) {
      if n.dir in L.dirs { SameTableExactly(g, v, L, v', L', n); } else { NotThere(g, v, L, v', L', n); }
    }
    AllSame(g, v, L, v', L');
  }

  /** Taking clusters for a file lists nothing new. */
  lemma WritingEntries(g: Geometry, v0: Vol, L0: Layout, v: Vol, L: Layout, cs: seq<nat>, data: Bytes, n: nat)
    requires Writing(g, v0, L0, v, L, cs, data, n)
    ensures Entries(g, v, L) == Entries(g, v0, L0)
  {
    hide Inv, FileMap, SameTables, Holds, Zeroed, Entries;
    SameTablesEntries(g, v0, L0, v, L);
  }

  /** Giving them back neither. */
  lemma UndoneEntries(g: Geometry, v0: Vol, L0: Layout, v: Vol, L: Layout, cs: seq<nat>, data: Bytes, n: nat)
    requires Writing(g, v0, L0, v, L, cs, data, n)
    ensures Entries(g, v.(fat := v0.fat), if cs == [] then L else Dropped(L, cs[0])) == Entries(g, v0, L0)
  {
    hide Inv, FileMap, Holds, Zeroed, Entries, Table;
    var v', L' := v.(fat := v0.fat), if cs == [] then L else Dropped(L, cs[0]);
    forall r | r in L0.dirs ensures Table(g, v', L', r) == Table(g, v0, L0, r) {
      UndoneTable(g, v, v', L0, L, cs, r);
      assert Table(g, v, L, r) == Table(g, v0, L0, r);
    }
    SameTablesEntries(g, v0, L0, v', L');
  }

  lemma UndoneTable(g: Geometry, v: Vol, v': Vol, L0: Layout, L: Layout, cs: seq<nat>, r: nat)
    requires ChainAdded(L0, L, cs) && r in L0.dirs && v'.disk == v.disk
    ensures Table(g, v', if cs == [] then L else Dropped(L, cs[0]), r) == Table(g, v, L, r)
  {
    hide Slots, Sectors;
  }

  /** Nor does extending a directory. */
  lemma ExtendedEntries(g: Geometry, v: Vol, L: Layout, v': Vol, L': Layout, d: nat, c: nat)
    requires Inv(g, v, L) && Extended(g, v, L, v', L', d, c)
    ensures Entries(g, v', L') == Entries(g, v, L)
  {
    ExtendedInv(g, v, L, v', L', d, c);
    hide Inv, FileMap, Entries, SameAt, Table, Extended;
    forall n: FileName ensures SameAt(g, v, L, v', L', n) {
      if n.dir in L.dirs {
        var zeros := ExtendedTable(g, v, L, v', L', d, c, n.dir);
        SameTable(g, v, L, v', L', n, zeros);
      } else {
        NotThere(g, v, L, v', L', n);
      }
    }
    AllSame(g, v, L, v', L');
  }

  /** Erasing a file's entry and freeing its clusters. */
  lemma EraseEntries(g: Geometry, v: Vol, L: Layout, d: nat, key: Bytes, k: nat)
    requires Inv(g, v, L) && InTable(g, v, L, d, k) && SlotOf(g, v, L, d, key) == k && FileEntry(Table(g, v, L, d)[k])
    ensures var v', L' := Erased(g, v, L, d, k), ErasedLayout(L, First(Table(g, v, L, d)[k]));
            Entries(g, v', L') == Entries(g, v, L) - {FileName(d, key)}
  {
    hide Inv, FileMap, Table, Shape, Erased, ErasedLayout, FileEntry, Entries, IsAt;
    var e := Table(g, v, L, d)[k];
    var v', L' := Erased(g, v, L, d, k), ErasedLayout(L, First(e));
    EraseStep(g, v, L, d, k);
    ErasedParts(g, v, L, d, k);
    SlotFound(g, v, L, d, key, k);
    forall r | r in L.dirs
      ensures Table(g, v', L', r) == if r == d then Table(g, v, L, d)[k := Deleted(e)] else Table(g, v, L, r)
    {
      EraseTables(g, v, L, d, k, r);
    }
    SlotErased(g, v, L, v', L', d, k, key);
  }

  /** Writing a new entry to a free slot. */
  lemma HookEntries(g: Geometry, v: Vol, L: Layout, d: nat, k: nat, e: Entry)
    requires Inv(g, v, L) && Hookable(g, v, L, d, k, e)
    ensures var v', L' := PutSlot(g, v, L, d, k, e), Hooked(L, e, Place(d, k));
            Entries(g, v', L') == Entries(g, v, L)[FileName(d, SomeKey(e)) := e]
  {
    var v', L' := PutSlot(g, v, L, d, k, e), Hooked(L, e, Place(d, k));
    HookInv(g, v, L, d, k, e);
    PutEffect(g, v, L, d, k, e);
    hide PutSlot, Table, Shape, TablesOk, Entries, Key, AgreeOff, Disjoint, Home, Find;
    forall r | r in L.dirs
      ensures Table(g, v', L', r) == if r == d then Table(g, v, L, d)[k := e] else Table(g, v, L, r)
    {
      SameChains(g, v, L, v', L, L', Place(r, 0));
      if r != d { PutOthers(g, v, L, d, k, e, r); }
    }
    SlotFilled(g, v, L, v', L', d, k, e);
  }

  /** Moving an entry: the old name is free, the new one leads to the moved entry, and every other
      name of every directory keeps its entry. */
  lemma MoveEntries(g: Geometry, v: Vol, L: Layout, d: nat, k: nat, key: Bytes, d': nat, k': nat, x: Entry)
    requires Movable(g, v, L, d, k, d', k', x) && SlotOf(g, v, L, d, key) == k
    ensures var v', L' := Moved(g, v, L, d, k, d', k', x), MovedLayout(L, d', k', x);
            Entries(g, v', L') == (Entries(g, v, L) - {FileName(d, key)})[FileName(d', SomeKey(x)) := x]
  {
    hide Inv, FileMap, Table, PutSlot, Entries, IsAt, Visible, FirstFree, Hookable, SomeKey, Shape, Find;
    var e := Table(g, v, L, d)[k];
    var v1, L1 := PutSlot(g, v, L, d, k, Deleted(e)), Unhooked(L, First(e));
    MovedHook(g, v, L, d, k, d', k', x);
    SlotFound(g, v, L, d, key, k);
    forall r | r in L.dirs
      ensures Table(g, v1, L1, r) == if r == d then Table(g, v, L, d)[k := Deleted(e)] else Table(g, v, L, r)
    {
      UnhookedTables(g, v, L, d, k, r);
    }
    SlotErased(g, v, L, v1, L1, d, k, key);
    SamePut(g, v1, L, L1, d', k', x);
    HookEntries(g, v1, L1, d', k', x);
  }

  // ---- A new directory -----------------------------------------------------------------------------

  /** The listing with the entries "." and ".." of a directory c below parent. */
  ghost function WithDots(m: imap<FileName, Entry>, c: nat, dot: Entry, dotdot: Entry): imap<FileName, Entry> {
    m[FileName(c, Dots(1)) := dot][FileName(c, Dots(2)) := dotdot]
  }

  lemma NewDirTables(g: Geometry, v: Vol, L: Layout, c: nat, parent: nat, disk': seq<Sector>, r: nat)
    requires Inv(g, v, L) && r in L.dirs && 2 <= c < |v.fat| && v.fat[c] == FREE_CLUSTER
    requires c < 0x1_0000 && parent < 0x1_0000
    requires AgreeOff(g, v.disk, disk', ClusterSectors(g, c)) && DirCluster(g, disk', c, parent)
    ensures var v', L' := Vol(v.fat[c := END_OF_CHAIN], disk'), WithDir(Appended(L, c, c), c);
            && Table(g, v', L', r) == Table(g, v, L, r) && g.spc >= 1
            && Table(g, v', L', c) == [DotEntry(1, c), DotEntry(2, parent)] + ZeroEntries(16 * g.spc - 2)
  {
    hide Inv, FileMap, Slots, DirCluster, AgreeOff, DotEntry;
    NewChain(g, v, L, c, r, disk');
    DirClusterSlots(g, disk', c, parent);
    assert Home(g, WithDir(Appended(L, c, c), c), r) == Home(g, Appended(L, c, c), r);
    assert c != 0;
  }

  lemma DotsApart()
    ensures Dots(1) != Dots(2)
  {
    assert |Dots(1)| == 1 && |Dots(2)| == 2;
  }

  /** What a new directory lists: itself and its parent. */
  lemma DotsListed(g: Geometry, v: Vol, L: Layout, c: nat, parent: nat, zeros: nat, key: Bytes)
    requires Inv(g, v, L) && c in L.dirs && c < 0x1_0000 && parent < 0x1_0000
    requires Table(g, v, L, c) == [DotEntry(1, c), DotEntry(2, parent)] + ZeroEntries(zeros)
    ensures Listed(g, v, L, FileName(c, key)) <==> key == Dots(1) || key == Dots(2)
    ensures key == Dots(1) ==> EntryOf(g, v, L, FileName(c, key)) == DotEntry(1, c)
    ensures key == Dots(2) ==> EntryOf(g, v, L, FileName(c, key)) == DotEntry(2, parent)
  {
    hide Inv, Table, DotEntry, Find, Key, Dots, Listed, EntryOf;
    var n, es := FileName(c, key), Table(g, v, L, c);
    DotEntryFields(1, c);
    DotEntryFields(2, parent);
    DotsApart();
    assert forall k :: 2 <= k < |es| ==> es[k] == ZeroEntries(zeros)[k - 2];
    ListedAt(g, v, L, n, 0);
    ListedAt(g, v, L, n, 1);
  }

  lemma NewDirEntries(g: Geometry, v: Vol, L: Layout, c: nat, parent: nat, disk': seq<Sector>)
    requires Inv(g, v, L) && parent in L.dirs && 2 <= c < |v.fat| && v.fat[c] == FREE_CLUSTER
    requires c < 0x1_0000 && parent < 0x1_0000
    requires AgreeOff(g, v.disk, disk', ClusterSectors(g, c)) && DirCluster(g, disk', c, parent)
    ensures var v', L' := Vol(v.fat[c := END_OF_CHAIN], disk'), WithDir(Appended(L, c, c), c);
            Entries(g, v', L') == WithDots(Entries(g, v, L), c, DotEntry(1, c), DotEntry(2, parent))
  {
    hide Inv, FileMap, Table, DirCluster, AgreeOff, DotEntry, Listed, EntryOf, Dots;
    var v', L' := Vol(v.fat[c := END_OF_CHAIN], disk'), WithDir(Appended(L, c, c), c);
    var m, m' := Entries(g, v, L), Entries(g, v', L');
    var want := WithDots(m, c, DotEntry(1, c), DotEntry(2, parent));
    NewDirectory(g, v, L, c, parent, disk');
    DotsApart();
    forall n: FileName ensures (n in m' <==> n in want) && (n in want ==> m'[n] == want[n]) {
      if n.dir in L.dirs {
        NewDirTables(g, v, L, c, parent, disk', n.dir);
        SameTableExactly(g, v, L, v', L', n);
        assert SameAt(g, v, L, v', L', n);
      } else if n.dir == c {
        NewDirTables(g, v, L, c, parent, disk', parent);
        DotsListed(g, v', L', c, parent, 16 * g.spc - 2, n.key);
        NotListed(g, v, L, n);
      } else {
        NotListed(g, v, L, n);
        NotListed(g, v', L', n);
      }
    }
  }

  lemma NotListed(g: Geometry, v: Vol, L: Layout, n: FileName)
    requires n.dir !in L.dirs
    ensures !Listed(g, v, L, n)
  {
  }

  /** A new directory: its parent lists it, it lists itself and its parent, and every other name of
      every directory keeps its entry. */
  lemma MkdirEntries(g: Geometry, v: Vol, L: Layout, d: nat, k: nat, e: Entry, c: nat, disk': seq<Sector>)
    requires Inv(g, v, L) && d in L.dirs && 2 <= c < |v.fat| && v.fat[c] == FREE_CLUSTER
    requires c < 0x1_0000 && d < 0x1_0000 && DirEntryFor(e, c)
    requires FirstFree(Table(g, v, L, d), k) && SlotOf(g, v, L, d, SomeKey(e)) == -1
    requires MkdirDisk(g, v, L, d, k, e, c, disk')
    ensures var v', L' := Vol(v.fat[c := END_OF_CHAIN], disk'), WithDir(Appended(L, c, c), c);
            Entries(g, v', L') == WithDots(Entries(g, v, L), c, DotEntry(1, c), DotEntry(2, d))[FileName(d, SomeKey(e)) := e]
  {
    hide Inv, FileMap, ByName, DirCluster, FirstFree, Key, Table, Find, PutSlot, DirEntryFor, Hookable, Entries, WithDots, DotEntry;
    var mid := OnCluster(g, v.disk, disk', c);
    var v2, L2 := Vol(v.fat[c := END_OF_CHAIN], mid), WithDir(Appended(L, c, c), c);
    SameImage(g, v.disk, disk', c, d);
    FreeSlotIn(Table(g, v, L, d), k);
    MkdirFacts(e, c);
    NewDirectory(g, v, L, c, d, mid);
    NewDirEntries(g, v, L, c, d, mid);
    MkdirEntry(g, v, L, v2, L2, d, k, e, c);
    HookDirectory(g, v2, L2, d, k, e);
    HookEntries(g, v2, L2, d, k, e);
    PutKeepsFat(g, v2, L2, d, k, e);
    MkdirAgrees(g, v, L, d, k, e, c, disk');
    FlushEntries(g, PutSlot(g, v2, L2, d, k, e), L2, disk');
  }
}
