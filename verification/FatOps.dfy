/** The composite changes of write, unlink, rename and mkdir, by name. */
module FatOps {
  import opened FatTypes
  import opened FatSpec
  import opened FatSteps
  import opened FatWriting

  ghost predicate AllUsed(es: seq<Entry>, n: nat) {
    n <= |es| && forall m :: 0 <= m < n ==> Used(es[m])
  }

  ghost predicate FirstFree(es: seq<Entry>, k: int) {
    0 <= k < |es| && !Used(es[k]) && AllUsed(es, k)
  }

  ghost predicate HasUnused(es: seq<Entry>) { exists k :: 0 <= k < |es| && !Used(es[k]) }

  /** There is a slot for a new entry: an unused one, or a cluster to extend the directory by. */
  ghost predicate HasSlot(g: Geometry, v: Vol, L: Layout, d: nat) {
    HasUnused(Table(g, v, L, d)) || (d != 0 && FreeClusters(v.fat) != {})
  }

  /** The slot that lookup finds for a name, -1 if none. */
  ghost function SlotOf(g: Geometry, v: Vol, L: Layout, d: nat, key: Bytes): int { Find(Table(g, v, L, d), key, 0) }

  /** The clusters of the entry with a name. */
  ghost function Clusters(g: Geometry, v: Vol, L: Layout, d: nat, key: Bytes): seq<nat> {
    var es, k := Table(g, v, L, d), SlotOf(g, v, L, d, key);
    if 0 <= k < |es| then Chain(L, First(es[k])) else []
  }

  ghost predicate NamesDirectory(g: Geometry, v: Vol, L: Layout, d: nat, key: Bytes) {
    var es, k := Table(g, v, L, d), SlotOf(g, v, L, d, key);
    0 <= k < |es| && IsDirectory(es[k])
  }

  ghost predicate CannotModify(g: Geometry, v: Vol, L: Layout, d: nat, key: Bytes) {
    var es, k := Table(g, v, L, d), SlotOf(g, v, L, d, key);
    0 <= k < |es| && ModifyProtected(es[k])
  }

  ghost predicate CannotDelete(g: Geometry, v: Vol, L: Layout, d: nat, key: Bytes) {
    var es, k := Table(g, v, L, d), SlotOf(g, v, L, d, key);
    0 <= k < |es| && DeleteProtected(es[k])
  }

  lemma SlotFound(g: Geometry, v: Vol, L: Layout, d: nat, key: Bytes, k: int)
    requires Inv(g, v, L) && d in L.dirs
    ensures IsAt(Table(g, v, L, d), key, k) <==> k >= 0 && SlotOf(g, v, L, d, key) == k
    ensures SlotOf(g, v, L, d, key) >= 0 || SlotOf(g, v, L, d, key) == -1
  {
    hide Table;
    var es := Table(g, v, L, d);
    assert TableOk(g, L, d, es);
    FindIff(es, key, k);
  }

  lemma MissingFile(g: Geometry, v: Vol, L: Layout, d: nat, key: Bytes)
    requires Inv(g, v, L) && d in L.dirs && SlotOf(g, v, L, d, key) == -1
    ensures FileName(d, key) !in Files(g, v, L)
    ensures Files(g, v, L) - {FileName(d, key)} == Files(g, v, L)
  {
    FilesAre(g, v, L, d, key);
    hide Inv, Table, Files;
    RemoveAbsent(Files(g, v, L), FileName(d, key));
  }

  lemma RemoveAbsent<K, V>(m: imap<K, V>, k: K)
    requires k !in m
    ensures m - {k} == m
  {
  }

  lemma NamedHere(g: Geometry, v: Vol, L: Layout, d: nat, key: Bytes, k: nat)
    requires Inv(g, v, L) && InTable(g, v, L, d, k) && SlotOf(g, v, L, d, key) == k && FileEntry(Table(g, v, L, d)[k])
    ensures Named(FileMap(g, v, L), FileName(d, key), Place(d, k)) && OneName(FileMap(g, v, L))
  {
    SlotFound(g, v, L, d, key, k);
    NamedIff(g, v, L, FileName(d, key), Place(d, k));
    NamesUnique(g, v, L);
  }

  /** Erasing the entry of a file removes exactly that name. */
  lemma EraseByName(g: Geometry, v: Vol, L: Layout, d: nat, key: Bytes, k: nat)
    requires Inv(g, v, L) && InTable(g, v, L, d, k) && SlotOf(g, v, L, d, key) == k && FileEntry(Table(g, v, L, d)[k])
    ensures var v', L' := Erased(g, v, L, d, k), ErasedLayout(L, First(Table(g, v, L, d)[k]));
            && Inv(g, v', L') && Files(g, v', L') == Files(g, v, L) - {FileName(d, key)}
            && SlotOf(g, v', L', d, key) == -1 && v'.fat == Zeroed(v.fat, Clusters(g, v, L, d, key))
  {
    hide Inv, FileMap, Table, Shape, Named, OneName, Erased, ErasedLayout, FileEntry, SlotOf;
    var e := Table(g, v, L, d)[k];
    var v', L' := Erased(g, v, L, d, k), ErasedLayout(L, First(e));
    NamedHere(g, v, L, d, key, k);
    EraseStep(g, v, L, d, k);
    EraseTables(g, v, L, d, k, d);
    ByNameRemove(FileMap(g, v, L), Place(d, k), FileName(d, key));
    ErasedParts(g, v, L, d, k);
    GoneFrom(g, v, L, v', L', d, key, k);
  }

  lemma ErasedParts(g: Geometry, v: Vol, L: Layout, d: nat, k: nat)
    requires k < |Table(g, v, L, d)|
    ensures ErasedLayout(L, First(Table(g, v, L, d)[k])).dirs == L.dirs
    ensures Erased(g, v, L, d, k).fat == Zeroed(v.fat, Chain(L, First(Table(g, v, L, d)[k])))
  {
    hide Table;
  }

  lemma GoneFrom(g: Geometry, v: Vol, L: Layout, v': Vol, L': Layout, d: nat, key: Bytes, k: nat)
    requires Inv(g, v, L) && Inv(g, v', L') && d in L.dirs && d in L'.dirs && k < |Table(g, v, L, d)|
    requires Table(g, v', L', d) == Table(g, v, L, d)[k := Deleted(Table(g, v, L, d)[k])]
    requires SlotOf(g, v, L, d, key) == k
    ensures SlotOf(g, v', L', d, key) == -1
  {
    var j := SlotOf(g, v', L', d, key);
    SlotFound(g, v', L', d, key, j);
    if j >= 0 {
      hide Table, Inv;
      assert j != k;
      SlotFound(g, v, L, d, key, j);
    }
  }

  // ---- A new entry ---------------------------------------------------------------------------------

  /** A file entry written to the first free slot of a directory without that name adds exactly
      one file. */
  lemma HookByName(g: Geometry, v: Vol, L: Layout, d: nat, k: nat, e: Entry)
    requires Inv(g, v, L) && Hookable(g, v, L, d, k, e) && FileEntry(e)
    ensures var v', L' := PutSlot(g, v, L, d, k, e), Hooked(L, e, Place(d, k));
            && Inv(g, v', L') && SlotOf(g, v', L', d, Key(NameOf(e))) == k
            && Table(g, v', L', d) == Table(g, v, L, d)[k := e]
            && Files(g, v', L') == Files(g, v, L)[FileName(d, Key(NameOf(e))) := FileBytes(g, v, L, e)]
  {
    var v', L' := PutSlot(g, v, L, d, k, e), Hooked(L, e, Place(d, k));
    HookInv(g, v, L, d, k, e);
    HookFiles(g, v, L, d, k, e);
    HookSlotOf(g, v, L, d, k, e);
    NamesUnique(g, v, L);
    NamesUnique(g, v', L');
    hide Inv, FileMap, Hookable, PutSlot, Hooked, OneName, FileBytes, Key, FileEntry;
    ByNameAdd(FileMap(g, v, L), Place(d, k), File(Key(NameOf(e)), FileBytes(g, v, L, e)));
  }

  lemma HookSlotOf(g: Geometry, v: Vol, L: Layout, d: nat, k: nat, e: Entry)
    requires Inv(g, v, L) && Hookable(g, v, L, d, k, e)
    requires Inv(g, PutSlot(g, v, L, d, k, e), Hooked(L, e, Place(d, k)))
    ensures var v', L' := PutSlot(g, v, L, d, k, e), Hooked(L, e, Place(d, k));
            && SlotOf(g, v', L', d, Key(NameOf(e))) == k && Table(g, v', L', d) == Table(g, v, L, d)[k := e]
  {
    hide PutSlot, TablesOk, ChainsOk, SizesOk, Key;
    var v', L' := PutSlot(g, v, L, d, k, e), Hooked(L, e, Place(d, k));
    PutEffect(g, v, L, d, k, e);
    SameChains(g, v, L, v', L, L', Place(d, k));
    assert Table(g, v', L', d)[k] == e;
    SlotFound(g, v', L', d, Key(NameOf(e)), k);
  }

  /** A directory entry adds no file. */
  lemma HookDirectory(g: Geometry, v: Vol, L: Layout, d: nat, k: nat, e: Entry)
    requires Inv(g, v, L) && Hookable(g, v, L, d, k, e) && IsDirectory(e)
    ensures var v' := PutSlot(g, v, L, d, k, e);
            && Inv(g, v', L) && Files(g, v', L) == Files(g, v, L)
            && SlotOf(g, v', L, d, Key(NameOf(e))) == k && Table(g, v', L, d) == Table(g, v, L, d)[k := e]
  {
    HookInv(g, v, L, d, k, e);
    HookFiles(g, v, L, d, k, e);
    HookSlotOf(g, v, L, d, k, e);
  }

  lemma FreeSlotOrder(es: seq<Entry>, k: int)
    requires FirstFree(es, k)
    ensures forall j :: 0 <= j < k ==> es[j][0] != 0
  {
  }

  lemma SameLookup(g: Geometry, v: Vol, L: Layout, v': Vol, L': Layout, d: nat, c: nat, r: nat, key: Bytes)
    requires Inv(g, v, L) && Extended(g, v, L, v', L', d, c) && r in L.dirs
    ensures SlotOf(g, v', L', r, key) == SlotOf(g, v, L, r, key)
  {
    var n := ExtendedTable(g, v, L, v', L', d, c, r);
    hide Table, Inv, Extended;
    FindInZeros(Table(g, v, L, r), n, key, 0);
  }

  // ---- Write ---------------------------------------------------------------------------------------

  lemma FlushWriting(g: Geometry, v0: Vol, L0: Layout, v: Vol, L: Layout, cs: seq<nat>, data: Bytes, n: nat, disk': seq<Sector>)
    requires Writing(g, v0, L0, v, L, cs, data, n) && AgreeOff(g, v.disk, disk', [])
    ensures Writing(g, v0, L0, Vol(v.fat, disk'), L, cs, data, n)
  {
    hide FileMap, SameTables, Holds, Inv, ChainAdded, Zeroed;
    FlushStep(g, v, L, disk');
    FlushTables(g, v0, L0, v, L, cs, disk');
    FlushBytes(g, v, L, cs, disk', L0);
    HoldsSame(g, v.disk, disk', cs, data, n);
  }

  lemma HoldsSame(g: Geometry, disk: seq<Sector>, disk': seq<Sector>, cs: seq<nat>, data: Bytes, n: nat)
    requires Holds(g, disk, cs, data, n) && Contents(disk', Sectors(g, cs)) == Contents(disk, Sectors(g, cs))
    ensures Holds(g, disk', cs, data, n)
  {
  }

  lemma FlushTables(g: Geometry, v0: Vol, L0: Layout, v: Vol, L: Layout, cs: seq<nat>, disk': seq<Sector>)
    requires Inv(g, v, L) && SameTables(g, v0, L0, v, L) && AgreeOff(g, v.disk, disk', []) && ChainAdded(L0, L, cs)
    ensures SameTables(g, v0, L0, Vol(v.fat, disk'), L)
  {
    forall r | r in L0.dirs ensures Slots(disk', Home(g, L, r)) == Table(g, v0, L0, r) {
      AgreeThere(g, v, L, disk', [], r);
      assert Table(g, v, L, r) == Table(g, v0, L0, r);
    }
  }

  lemma FlushBytes(g: Geometry, v: Vol, L: Layout, cs: seq<nat>, disk': seq<Sector>, L0: Layout)
    requires Inv(g, v, L) && AgreeOff(g, v.disk, disk', []) && ChainAdded(L0, L, cs)
    ensures Contents(disk', Sectors(g, cs)) == Contents(v.disk, Sectors(g, cs))
  {
    hide TablesOk;
    if cs != [] {
      assert ChainOk(v.fat, L.own, cs[0], L.chains[cs[0]]);
      AgreeThere(g, v, L, disk', [], cs[0]);
    }
  }

  /** The entry of a file just written. */
  ghost predicate EntryFor(e: Entry, key: Bytes, cs: seq<nat>, size: nat) {
    && FileEntry(e) && Key(NameOf(e)) == key && Size(e) == size
    && First(e) == if cs == [] then 0 else cs[0]
  }

  lemma WrittenHook(g: Geometry, v1: Vol, L1: Layout, v2: Vol, L2: Layout, cs: seq<nat>, data: Bytes,
                    v3: Vol, L3: Layout, d: nat, c: nat, k: nat, e: Entry)
    requires Writing(g, v1, L1, v2, L2, cs, data, |data|) && d in L1.dirs
    requires Extended(g, v2, L2, v3, L3, d, c) && Inv(g, v3, L3)
    requires EntryFor(e, SomeKey(e), cs, |data|) && SlotOf(g, v1, L1, d, SomeKey(e)) == -1
    requires FirstFree(Table(g, v3, L3, d), k)
    ensures Hookable(g, v3, L3, d, k, e) && FileBytes(g, v3, L3, e) == data
    ensures Chain(L3, First(e)) == cs
  {
    WrittenChain(g, v1, L1, v2, L2, cs, data, v3, L3, d, c);
    assert Inv(g, v2, L2) && SlotOf(g, v2, L2, d, SomeKey(e)) == SlotOf(g, v1, L1, d, SomeKey(e)) by {
      hide Inv, FileMap, Holds, Zeroed, Table, ChainAdded, Find;
      assert SameTables(g, v1, L1, v2, L2);
    }
    hide Writing, Extended, Table, FirstFree, Inv, SlotOf, Hookable, FileBytes, SomeKey, Orphan, FileEntry;
    SameLookup(g, v2, L2, v3, L3, d, c, d, SomeKey(e));
    BytesAre(g, v3, L3, e, cs, data);
    MakeHookable(g, v3, L3, d, k, e);
  }

  lemma MakeHookable(g: Geometry, v: Vol, L: Layout, d: nat, k: nat, e: Entry)
    requires Inv(g, v, L) && d in L.dirs && FirstFree(Table(g, v, L, d), k)
    requires Visible(e) && SlotOf(g, v, L, d, SomeKey(e)) == -1
    requires Size(e) <= 512 * |Sectors(g, Chain(L, First(e)))|
    requires IsDirectory(e) ==> Size(e) == 0 && First(e) in L.dirs
    requires !IsDirectory(e) ==> First(e) == 0 || Orphan(L, First(e))
    ensures Hookable(g, v, L, d, k, e)
  {
    FreeSlotOrder(Table(g, v, L, d), k);
    hide Table, TablesOk, SizesOk, ChainsOk, NamesOk, Visible;
  }

  function SomeKey(e: Entry): Bytes { Key(NameOf(e)) }

  lemma BytesAre(g: Geometry, v: Vol, L: Layout, e: Entry, cs: seq<nat>, data: Bytes)
    requires Chain(L, First(e)) == cs && Size(e) == |data| && StartsWith(Contents(v.disk, Sectors(g, cs)), data)
    ensures FileBytes(g, v, L, e) == data && Size(e) <= 512 * |Sectors(g, cs)|
  {
  }

  lemma WrittenChain(g: Geometry, v1: Vol, L1: Layout, v2: Vol, L2: Layout, cs: seq<nat>, data: Bytes,
                     v3: Vol, L3: Layout, d: nat, c: nat)
    requires Writing(g, v1, L1, v2, L2, cs, data, |data|) && d in L1.dirs
    requires Extended(g, v2, L2, v3, L3, d, c)
    ensures Chain(L3, if cs == [] then 0 else cs[0]) == cs && (cs == [] || Orphan(L3, cs[0]))
    ensures StartsWith(Contents(v3.disk, Sectors(g, cs)), data)
    ensures d in L3.dirs && d in L2.dirs
  {
    hide TablesOk, FileMap, SameTables, Zeroed, Contents;
    assert data[..|data|] == data;
    ExtendedInv(g, v2, L2, v3, L3, d, c);
    if cs != [] {
      ExtendedChain(g, v2, L2, v3, L3, d, c, cs[0]);
    }
    assert 0 !in L3.chains;
  }

  // ---- Rename --------------------------------------------------------------------------------------

  /** What rename knows before it moves the entry (d, k) to the free slot (d', k') as x. */
  ghost predicate Movable(g: Geometry, v: Vol, L: Layout, d: nat, k: nat, d': nat, k': nat, x: Entry) {
    && Inv(g, v, L) && InTable(g, v, L, d, k) && Visible(Table(g, v, L, d)[k])
    && d' in L.dirs && FirstFree(Table(g, v, L, d'), k') && SlotOf(g, v, L, d', SomeKey(x)) == -1
    && SameButName(Table(g, v, L, d)[k], x)
  }

  ghost predicate SameButName(e: Entry, x: Entry) {
    Visible(x) && Attr(x) == Attr(e) && First(x) == First(e) && Size(x) == Size(e)
  }

  function Moved(g: Geometry, v: Vol, L: Layout, d: nat, k: nat, d': nat, k': nat, x: Entry): Vol
    requires k < |Table(g, v, L, d)|
  {
    PutSlot(g, PutSlot(g, v, L, d, k, Deleted(Table(g, v, L, d)[k])), L, d', k', x)
  }

  function MovedLayout(L: Layout, d': nat, k': nat, x: Entry): Layout {
    Hooked(Unhooked(L, First(x)), x, Place(d', k'))
  }

  lemma UnhookedTables(g: Geometry, v: Vol, L: Layout, d: nat, k: nat, r: nat)
    requires Inv(g, v, L) && InTable(g, v, L, d, k) && Visible(Table(g, v, L, d)[k]) && r in L.dirs
    ensures var e := Table(g, v, L, d)[k];
            Table(g, PutSlot(g, v, L, d, k, Deleted(e)), Unhooked(L, First(e)), r) ==
            if r == d then Table(g, v, L, d)[k := Deleted(e)] else Table(g, v, L, r)
  {
    var e := Table(g, v, L, d)[k];
    PutEffect(g, v, L, d, k, Deleted(e));
    if r != d { PutOthers(g, v, L, d, k, Deleted(e), r); }
    SameChains(g, v, L, PutSlot(g, v, L, d, k, Deleted(e)), L, Unhooked(L, First(e)), Place(r, 0));
  }

  /** Deleting another slot leaves the free slot free and the new name missing. */
  lemma StillFree(es: seq<Entry>, k: nat, k': int, key: Bytes)
    requires ZeroTail(es) && k < |es| && Visible(es[k]) && FirstFree(es, k') && Find(es, key, 0) == -1
    ensures var es' := es[k := Deleted(es[k])];
            && k != k' && !Used(es'[k']) && (forall j :: 0 <= j < k' ==> es'[j][0] != 0) && Find(es', key, 0) == -1
  {
    var es' := es[k := Deleted(es[k])];
    assert ZeroTail(es');
    FindFrom(es, key, 0);
    FindFrom(es', key, 0);
    hide Find, ZeroTail;
    var j := Find(es', key, 0);
    assert j >= 0 ==> IsAt(es', key, j);
    assert j >= 0 && j != k ==> IsAt(es, key, j);
  }

  lemma MovedHook(g: Geometry, v: Vol, L: Layout, d: nat, k: nat, d': nat, k': nat, x: Entry)
    requires Movable(g, v, L, d, k, d', k', x)
    ensures var e := Table(g, v, L, d)[k];
            var v1, L1 := PutSlot(g, v, L, d, k, Deleted(e)), Unhooked(L, First(e));
            && Inv(g, v1, L1) && Hookable(g, v1, L1, d', k', x)
            && FileMap(g, v1, L1) == FileMap(g, v, L) - {Place(d, k)}
  {
    hide FileMap, Table, FirstFree, Visible, Find, PutSlot, SlotOf, Shape, SomeKey;
    var e := Table(g, v, L, d)[k];
    var v1, L1 := PutSlot(g, v, L, d, k, Deleted(e)), Unhooked(L, First(e));
    UnhookInv(g, v, L, d, k);
    UnhookFiles(g, v, L, d, k);
    UnhookedTables(g, v, L, d, k, d');
    EntryHere(g, v, L, d, k);
    MovedSlot(g, v, L, d, k, d', k', x, Table(g, v1, L1, d'));
    hide Inv;
    MovedEntry(g, L, d, k, e, x);
    AsHookable(g, v1, L1, d', k', x);
  }

  lemma AsHookable(g: Geometry, v: Vol, L: Layout, d: nat, k: nat, e: Entry)
    requires Inv(g, v, L) && d in L.dirs && Placeable(Table(g, v, L, d), k, SomeKey(e)) && Visible(e)
    requires Size(e) <= 512 * |Sectors(g, Chain(L, First(e)))|
    requires IsDirectory(e) ==> Size(e) == 0 && First(e) in L.dirs
    requires !IsDirectory(e) ==> First(e) == 0 || Orphan(L, First(e))
    ensures Hookable(g, v, L, d, k, e)
  {
    hide Table, TablesOk, SizesOk, ChainsOk, NamesOk, Visible;
  }

  ghost predicate Placeable(es: seq<Entry>, k: nat, key: Bytes) {
    k < |es| && !Used(es[k]) && (forall j :: 0 <= j < k ==> es[j][0] != 0) && Find(es, key, 0) == -1
  }

  lemma MovedSlot(g: Geometry, v: Vol, L: Layout, d: nat, k: nat, d': nat, k': nat, x: Entry, es': seq<Entry>)
    requires Movable(g, v, L, d, k, d', k', x)
    requires es' == if d' == d then Table(g, v, L, d)[k := Deleted(Table(g, v, L, d)[k])] else Table(g, v, L, d')
    ensures Placeable(es', k', SomeKey(x))
  {
    hide Table, SomeKey, Visible, Find;
    var es := Table(g, v, L, d');
    FreeSlotOrder(es, k');
    assert TableOk(g, L, d', es);
    if d == d' { StillFree(es, k, k', SomeKey(x)); }
  }

  lemma MovedEntry(g: Geometry, L: Layout, d: nat, k: nat, e: Entry, x: Entry)
    requires NamesOk(L) && Visible(e) && EntryOk(g, L, d, k, e) && SameButName(e, x)
    ensures Size(x) <= 512 * |Sectors(g, Chain(Unhooked(L, First(e)), First(x)))|
    ensures IsDirectory(x) ==> Size(x) == 0 && First(x) in L.dirs
    ensures !IsDirectory(x) ==> First(x) == 0 || Orphan(Unhooked(L, First(e)), First(x))
  {
  }

  /** Moving an entry keeps the invariant; a file's bytes move to the new name, and every other
      file stays. */
  lemma MoveStep(g: Geometry, v: Vol, L: Layout, d: nat, k: nat, key: Bytes, d': nat, k': nat, x: Entry)
    requires Movable(g, v, L, d, k, d', k', x) && SlotOf(g, v, L, d, key) == k
    ensures var v', L' := Moved(g, v, L, d, k, d', k', x), MovedLayout(L, d', k', x);
            && Inv(g, v', L')
            && Files(g, v', L') ==
               if FileEntry(x) then (Files(g, v, L) - {FileName(d, key)})[FileName(d', SomeKey(x)) := FileBytes(g, v, L, x)]
               else Files(g, v, L)
  {
    var e := Table(g, v, L, d)[k];
    var v1, L1 := PutSlot(g, v, L, d, k, Deleted(e)), Unhooked(L, First(e));
    MovedHook(g, v, L, d, k, d', k', x);
    SamePut(g, v1, L, L1, d', k', x);
    if FileEntry(x) {
      NamedHere(g, v, L, d, key, k);
      hide Inv, FileMap, Table, Hookable, PutSlot, Named, OneName, FileBytes, SlotOf, Hooked, FileEntry;
      ByNameRemove(FileMap(g, v, L), Place(d, k), FileName(d, key));
      HookByName(g, v1, L1, d', k', x);
      MovedBytes(g, v, L, d, k, x);
    } else {
      assert Place(d, k) !in FileMap(g, v, L);
      RemoveAbsent(FileMap(g, v, L), Place(d, k));
      hide Inv, FileMap, Table, Hookable, PutSlot, FileEntry;
      HookDirectoryOnly(g, v1, L1, d', k', x);
    }
  }

  lemma HookDirectoryOnly(g: Geometry, v: Vol, L: Layout, d: nat, k: nat, e: Entry)
    requires Inv(g, v, L) && Hookable(g, v, L, d, k, e) && !FileEntry(e)
    ensures Hooked(L, e, Place(d, k)) == L && Inv(g, PutSlot(g, v, L, d, k, e), L)
    ensures Files(g, PutSlot(g, v, L, d, k, e), L) == Files(g, v, L)
  {
    HookDirectory(g, v, L, d, k, e);
  }

  lemma SamePut(g: Geometry, v: Vol, L: Layout, L': Layout, d: nat, k: nat, e: Entry)
    requires L'.chains == L.chains
    ensures PutSlot(g, v, L', d, k, e) == PutSlot(g, v, L, d, k, e)
  {
  }

  lemma MovedBytes(g: Geometry, v: Vol, L: Layout, d: nat, k: nat, x: Entry)
    requires Inv(g, v, L) && InTable(g, v, L, d, k) && Visible(Table(g, v, L, d)[k])
    requires SameButName(Table(g, v, L, d)[k], x) && FileEntry(x)
    ensures var e := Table(g, v, L, d)[k];
            FileBytes(g, PutSlot(g, v, L, d, k, Deleted(e)), Unhooked(L, First(e)), x) == FileBytes(g, v, L, x)
  {
    var e := Table(g, v, L, d)[k];
    EntryHere(g, v, L, d, k);
    assert First(x) == 0 || (First(x) in L.chains && First(x) !in L.dirs);
    PutBytes(g, v, L, d, k, Deleted(e), x);
    SameBytes(g, PutSlot(g, v, L, d, k, Deleted(e)), L, Unhooked(L, First(e)), x);
  }

  // ---- Mkdir ---------------------------------------------------------------------------------------

  function DotName(n: nat): PackedName
    requires n <= 2
  {
    seq(11, i => if i < n then DOT else SPACE)
  }

  lemma DotKey(n: nat)
    requires n <= 2
    ensures Key(DotName(n)) == Dots(n)
  {
    var name := DotName(n);
    var b, c := Before(name[..8], SPACE), Clean(name);
    BeforeDots(name[..8], n);
    assert c == b == Dots(n);
    BeforeWhole(c, 0);
  }

  /** The names "." and "..". */
  function Dots(n: nat): Bytes { seq(n, _ => DOT) }

  lemma {:induction false} BeforeDots(s: Bytes, n: nat)
    requires n < |s| && (forall i :: 0 <= i < n ==> s[i] == DOT) && s[n] == SPACE
    ensures |Before(s, SPACE)| == n
    decreases n
  {
    if n > 0 { BeforeDots(s[1..], n - 1); }
  }

  /** The entries "." and ".." of a new directory. */
  function DotEntry(n: nat, first: nat): Entry
    requires n <= 2 && first < 0x1_0000
  {
    MakeEntry(DotName(n), ATTR_DIRECTORY, Zeros(4), first, 0)
  }

  function DirSector(c: nat, parent: nat): Sector
    requires c < 0x1_0000 && parent < 0x1_0000
  {
    PutEntry(PutEntry(Zeros(512), 0, DotEntry(1, c)), 1, DotEntry(2, parent))
  }

  /** The sectors of cluster c hold a new directory. */
  ghost predicate DirCluster(g: Geometry, disk: seq<Sector>, c: nat, parent: nat)
    requires c < 0x1_0000 && parent < 0x1_0000
  {
    forall x :: InCluster(g, c, x) ==> SectorOf(disk, x) == if x == Lba(g, c) then DirSector(c, parent) else Zeros(512)
  }

  lemma DirSectorSlots(c: nat, parent: nat, i: nat)
    requires c < 0x1_0000 && parent < 0x1_0000 && i < 16
    ensures EntryAt(DirSector(c, parent), i) == if i == 0 then DotEntry(1, c) else if i == 1 then DotEntry(2, parent) else Zeros(32)
  {
    var one := PutEntry(Zeros(512), 0, DotEntry(1, c));
    EntryAfterPut(one, 1, DotEntry(2, parent), i);
    EntryAfterPut(Zeros(512), 0, DotEntry(1, c), i);
    assert EntryAt(Zeros(512), i) == Zeros(32);
  }

  lemma DirClusterSlots(g: Geometry, disk: seq<Sector>, c: nat, parent: nat)
    requires c < 0x1_0000 && parent < 0x1_0000 && g.spc >= 1 && DirCluster(g, disk, c, parent)
    ensures Slots(disk, ClusterSectors(g, c)) == [DotEntry(1, c), DotEntry(2, parent)] + ZeroEntries(16 * g.spc - 2)
  {
    var ds, want := ClusterSectors(g, c), [DotEntry(1, c), DotEntry(2, parent)] + ZeroEntries(16 * g.spc - 2);
    forall k | 0 <= k < 16 * g.spc ensures Slots(disk, ds)[k] == want[k] {
      assert ds[k / 16] == Lba(g, c) + k / 16;
      assert InCluster(g, c, ds[k / 16]);
      if k < 16 { DirSectorSlots(c, parent, k); } else { assert EntryAt(Zeros(512), k % 16) == Zeros(32); }
    }
  }

  lemma DotEntryFields(n: nat, first: nat)
    requires 1 <= n <= 2 && first < 0x1_0000
    ensures var e := DotEntry(n, first);
            Visible(e) && IsDirectory(e) && First(e) == first && Size(e) == 0 && SomeKey(e) == Dots(n)
  {
    MakeEntryFields(DotName(n), ATTR_DIRECTORY, Zeros(4), first, 0);
    DotKey(n);
    var e := DotEntry(n, first);
    assert e[0] == NameOf(e)[0];
  }

  lemma NewDirTableOk(g: Geometry, L: Layout, c: nat, parent: nat, n: nat)
    requires c < 0x1_0000 && parent < 0x1_0000 && c in L.dirs && parent in L.dirs
    ensures var es := [DotEntry(1, c), DotEntry(2, parent)] + ZeroEntries(n);
            TableOk(g, L, c, es) && NoFiles(es)
  {
    DotEntryFields(1, c);
    DotEntryFields(2, parent);
    hide DotEntry, Key, Sectors;
    var es := [DotEntry(1, c), DotEntry(2, parent)];
    assert TableOk(g, L, c, es);
    ZerosKeepTable(g, L, c, es, n);
  }

  /** A free cluster holding the image of an empty directory becomes a directory. */
  lemma NewDirectory(g: Geometry, v: Vol, L: Layout, c: nat, parent: nat, disk': seq<Sector>)
    requires Inv(g, v, L) && parent in L.dirs && 2 <= c < |v.fat| && v.fat[c] == FREE_CLUSTER
    requires c < 0x1_0000 && parent < 0x1_0000
    requires AgreeOff(g, v.disk, disk', ClusterSectors(g, c)) && DirCluster(g, disk', c, parent)
    ensures var v', L' := Vol(v.fat[c := END_OF_CHAIN], disk'), WithDir(Appended(L, c, c), c);
            && Inv(g, v', L') && FileMap(g, v', L') == FileMap(g, v, L)
            && Table(g, v', L', parent) == Table(g, v, L, parent) && c !in L.dirs && c !in L.chains
  {
    hide Inv, FileMap, Slots, DirCluster, AgreeOff, DotEntry, TableOk, NoFiles;
    var L1, v' := Appended(L, c, c), Vol(v.fat[c := END_OF_CHAIN], disk');
    NewChain(g, v, L, c, parent, disk');
    DirClusterSlots(g, disk', c, parent);
    NewDirTableOk(g, WithDir(L1, c), c, parent, 16 * g.spc - 2);
    NewDirStep(g, v', L1, c);
    assert Home(g, WithDir(L1, c), parent) == Home(g, L1, parent);
  }

  lemma NewChain(g: Geometry, v: Vol, L: Layout, c: nat, parent: nat, disk': seq<Sector>)
    requires Inv(g, v, L) && parent in L.dirs && 2 <= c < |v.fat| && v.fat[c] == FREE_CLUSTER
    requires AgreeOff(g, v.disk, disk', ClusterSectors(g, c))
    ensures var v', L' := Vol(v.fat[c := END_OF_CHAIN], disk'), Appended(L, c, c);
            && Inv(g, v', L') && FileMap(g, v', L') == FileMap(g, v, L)
            && Slots(disk', Home(g, L', parent)) == Table(g, v, L, parent) && Orphan(L', c)
            && Home(g, L', c) == ClusterSectors(g, c) && c !in L.dirs && c !in L.chains && g.spc >= 1
  {
    hide FileMap, Slots, AgreeOff, TablesOk, ChainsOk;
    ChainEnd(g, v, L, c, c);
    AppendInv(g, v, L, c, c, disk');
    AppendFiles(g, v, L, c, c, disk');
    AppendTable(g, v, L, c, c, disk', parent);
    assert Linked(v.fat, Chain(L, c), c) == v.fat[c := END_OF_CHAIN];
    assert Chain(Appended(L, c, c), c) == [c];
    OneCluster(g, c);
  }

  /** The disk mkdir leaves: the new entry in the parent, the image in cluster c. */
  ghost predicate MkdirDisk(g: Geometry, v: Vol, L: Layout, d: nat, k: nat, e: Entry, c: nat, disk': seq<Sector>)
    requires c < 0x1_0000 && d < 0x1_0000
  {
    && |disk'| == |v.disk| && DirCluster(g, disk', c, d)
    && var put := PutSlot(g, v, L, d, k, e).disk;
    && |put| == |disk'| && forall y :: RootLba(g) <= y < |disk'| && !InCluster(g, c, y) ==> disk'[y] == put[y]
  }

  ghost predicate DirEntryFor(e: Entry, c: nat) {
    Visible(e) && IsDirectory(e) && First(e) == c && Size(e) == 0
  }

  lemma MkdirStep(g: Geometry, v: Vol, L: Layout, d: nat, k: nat, e: Entry, c: nat, disk': seq<Sector>)
    requires Inv(g, v, L) && d in L.dirs && 2 <= c < |v.fat| && v.fat[c] == FREE_CLUSTER
    requires c < 0x1_0000 && d < 0x1_0000 && DirEntryFor(e, c)
    requires FirstFree(Table(g, v, L, d), k) && SlotOf(g, v, L, d, SomeKey(e)) == -1
    requires MkdirDisk(g, v, L, d, k, e, c, disk')
    ensures var v', L' := Vol(v.fat[c := END_OF_CHAIN], disk'), WithDir(Appended(L, c, c), c);
            && Inv(g, v', L') && Files(g, v', L') == Files(g, v, L) && c !in L.dirs && c !in L.chains
            && SlotOf(g, v', L', d, SomeKey(e)) == k && Table(g, v', L', d) == Table(g, v, L, d)[k := e]
  {
    hide Inv, FileMap, ByName, DirCluster, FirstFree, Key, Table, Find, PutSlot, DirEntryFor, Hookable;
    var mid := OnCluster(g, v.disk, disk', c);
    var v2, L2 := Vol(v.fat[c := END_OF_CHAIN], mid), WithDir(Appended(L, c, c), c);
    SameImage(g, v.disk, disk', c, d);
    FreeSlotIn(Table(g, v, L, d), k);
    MkdirFacts(e, c);
    NewDirectory(g, v, L, c, d, mid);
    MkdirEntry(g, v, L, v2, L2, d, k, e, c);
    HookDirectory(g, v2, L2, d, k, e);
    var v4 := PutSlot(g, v2, L2, d, k, e);
    PutKeepsFat(g, v2, L2, d, k, e);
    MkdirAgrees(g, v, L, d, k, e, c, disk');
    FlushStep(g, v4, L2, disk');
    MkdirTable(g, v4, L2, disk', d);
  }

  lemma SameImage(g: Geometry, disk: seq<Sector>, disk': seq<Sector>, c: nat, d: nat)
    requires |disk'| == |disk| && c < 0x1_0000 && d < 0x1_0000 && DirCluster(g, disk', c, d)
    ensures DirCluster(g, OnCluster(g, disk, disk', c), c, d)
  {
    hide DirSector;
  }

  lemma FreeSlotIn(es: seq<Entry>, k: int)
    requires FirstFree(es, k)
    ensures 0 <= k < |es|
  {
  }

  lemma PutKeepsFat(g: Geometry, v: Vol, L: Layout, d: nat, k: nat, e: Entry)
    ensures PutSlot(g, v, L, d, k, e).fat == v.fat
  {
  }

  lemma MkdirFacts(e: Entry, c: nat)
    requires DirEntryFor(e, c)
    ensures IsDirectory(e)
  {
  }

  lemma MkdirTable(g: Geometry, v: Vol, L: Layout, disk': seq<Sector>, d: nat)
    requires Inv(g, v, L) && AgreeOff(g, v.disk, disk', []) && d in L.dirs
    ensures Table(g, Vol(v.fat, disk'), L, d) == Table(g, v, L, d)
  {
    AgreeThere(g, v, L, disk', [], d);
  }

  lemma MkdirEntry(g: Geometry, v: Vol, L: Layout, v2: Vol, L2: Layout, d: nat, k: nat, e: Entry, c: nat)
    requires Inv(g, v2, L2) && d in L2.dirs && c in L2.dirs && DirEntryFor(e, c)
    requires Table(g, v2, L2, d) == Table(g, v, L, d)
    requires FirstFree(Table(g, v, L, d), k) && SlotOf(g, v, L, d, SomeKey(e)) == -1
    ensures Hookable(g, v2, L2, d, k, e)
  {
    hide Inv, FirstFree, Table, Find;
    MakeHookable(g, v2, L2, d, k, e);
  }

  /** The sectors of cluster c from one disk, all others from another. */
  function OnCluster(g: Geometry, disk: seq<Sector>, disk': seq<Sector>, c: nat): (r: seq<Sector>)
    requires |disk'| == |disk|
    ensures |r| == |disk|
    ensures AgreeOff(g, disk, r, ClusterSectors(g, c))
    ensures forall x :: 0 <= x < |r| ==> r[x] == if InCluster(g, c, x) then disk'[x] else disk[x]
  {
    var r := seq(|disk|, x requires 0 <= x < |disk| => if InCluster(g, c, x) then disk'[x] else disk[x]);
    assert forall x :: InCluster(g, c, x) ==> ClusterSectors(g, c)[x - Lba(g, c)] == x;
    r
  }

  lemma MkdirAgrees(g: Geometry, v: Vol, L: Layout, d: nat, k: nat, e: Entry, c: nat, disk': seq<Sector>)
    requires Inv(g, v, L) && d in L.dirs && 2 <= c < |v.fat| && v.fat[c] == FREE_CLUSTER && k < |Table(g, v, L, d)|
    requires c < 0x1_0000 && d < 0x1_0000 && MkdirDisk(g, v, L, d, k, e, c, disk')
    ensures var v2, L2 := Vol(v.fat[c := END_OF_CHAIN], OnCluster(g, v.disk, disk', c)), WithDir(Appended(L, c, c), c);
            AgreeOff(g, PutSlot(g, v2, L2, d, k, e).disk, disk', [])
  {
    hide Inv, SizesOk, Home, OnCluster, DirCluster;
    MkdirHome(g, v, L, d, k, c);
    InClusterSectors(g, c, Home(g, L, d)[k / 16]);
  }

  /** The sector of the parent's slot is on the disk, outside cluster c, and stays the parent's. */
  lemma MkdirHome(g: Geometry, v: Vol, L: Layout, d: nat, k: nat, c: nat)
    requires Inv(g, v, L) && d in L.dirs && 2 <= c < |v.fat| && v.fat[c] == FREE_CLUSTER && k < |Table(g, v, L, d)|
    ensures Home(g, WithDir(Appended(L, c, c), c), d) == Home(g, L, d)
    ensures RootLba(g) <= Home(g, L, d)[k / 16] < |v.disk| && Home(g, L, d)[k / 16] !in ClusterSectors(g, c)
  {
    hide TablesOk;
    RegionOk(g, v, L, d);
    FreshCluster(g, v, L, c, d);
    ChainEnd(g, v, L, c, c);
  }

  // ---- A formatted volume --------------------------------------------------------------------------

  const EMPTY_LAYOUT: Layout := Layout(map[], {0}, map[], map[])

  /** A volume whose root directory is all zeros is good and holds no file. */
  lemma FormattedVolume(g: Geometry, v: Vol)
    requires SizesOk(g, v) && forall x :: RootLba(g) <= x < DataStart(g) ==> v.disk[x] == Zeros(512)
    ensures Inv(g, v, EMPTY_LAYOUT) && Files(g, v, EMPTY_LAYOUT) == imap[]
  {
    var L, es := EMPTY_LAYOUT, Table(g, v, EMPTY_LAYOUT, 0);
    forall k | 0 <= k < |es| ensures es[k] == Zeros(32) {
      var x := RootSectors(g)[k / 16];
      assert RootLba(g) <= x < DataStart(g);
      assert EntryAt(Zeros(512), k % 16) == Zeros(32);
    }
    forall q: Place ensures !IsFile(g, v, L, q) { }
    hide IsFile, FileAt, Table;
    assert FileMap(g, v, L) == imap[];
  }
}
