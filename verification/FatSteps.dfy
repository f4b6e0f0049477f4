/** The elementary changes the driver makes to a volume. Each keeps the invariant, and each
    says what happens to the files: only marking a slot deleted and writing a new slot change
    them. Every operation of the driver is a sequence of these steps. */
module FatSteps {
  import opened FatTypes
  import opened FatSpec

  /** A chain that no entry names: clusters being written, or about to be freed. */
  ghost predicate Orphan(L: Layout, f: nat) { f in L.chains && f !in L.dirs && f !in L.holder }

  ghost predicate InTable(g: Geometry, v: Vol, L: Layout, d: nat, k: nat) {
    Shape(g, v, L) && d in L.dirs && k < |Table(g, v, L, d)|
  }

  // ---- Comparing file maps ------------------------------------------------------------------------

  /** The slot q holds a file in both volumes, with the same name and bytes, or in neither. */
  ghost predicate Kept(g: Geometry, v: Vol, L: Layout, v': Vol, L': Layout, q: Place) {
    && (IsFile(g, v', L', q) <==> IsFile(g, v, L, q))
    && (IsFile(g, v, L, q) ==> FileAt(g, v', L', q) == FileAt(g, v, L, q))
  }

  lemma MapSame(g: Geometry, v: Vol, L: Layout, v': Vol, L': Layout)
    requires forall q :: Kept(g, v, L, v', L', q)
    ensures FileMap(g, v', L') == FileMap(g, v, L)
  {
    hide IsFile, FileAt;
    var m, m' := FileMap(g, v, L), FileMap(g, v', L');
    forall q ensures (q in m' <==> q in m) && (q in m ==> m'[q] == m[q]) {
      assert Kept(g, v, L, v', L', q);
    }
  }

  lemma MapRemoved(g: Geometry, v: Vol, L: Layout, v': Vol, L': Layout, p: Place)
    requires forall q :: q != p ==> Kept(g, v, L, v', L', q)
    requires !IsFile(g, v', L', p)
    ensures FileMap(g, v', L') == FileMap(g, v, L) - {p}
  {
    hide IsFile, FileAt;
    var m, m' := FileMap(g, v, L), FileMap(g, v', L');
    forall q ensures q in m' <==> q in m - {p} {
      if q != p { assert Kept(g, v, L, v', L', q); }
    }
    forall q | q in m' ensures m'[q] == (m - {p})[q] {
      assert Kept(g, v, L, v', L', q);
    }
  }

  lemma MapAdded(g: Geometry, v: Vol, L: Layout, v': Vol, L': Layout, p: Place)
    requires forall q :: q != p ==> Kept(g, v, L, v', L', q)
    requires IsFile(g, v', L', p)
    ensures FileMap(g, v', L') == FileMap(g, v, L)[p := FileAt(g, v', L', p)]
  {
    var m, m' := FileMap(g, v, L), FileMap(g, v', L');
    assert p in m' && m'[p] == FileAt(g, v', L', p);
    forall q | q != p ensures (q in m' <==> q in m) && (q in m ==> m'[q] == m[q]) {
      hide IsFile, FileAt;
      assert Kept(g, v, L, v', L', q);
    }
    hide *;
    AddedIs(m, m', p);
  }

  lemma AddedIs<K, V>(m: imap<K, V>, m': imap<K, V>, p: K)
    requires p in m'
    requires forall q :: q != p ==> (q in m' <==> q in m) && (q in m ==> m'[q] == m[q])
    ensures m' == m[p := m'[p]]
  {
  }

  // ---- Disk changes that no directory and no file can see ----------------------------------------

  ghost predicate Clear(g: Geometry, L: Layout, ds: seq<int>) {
    forall r :: r in L.dirs || r in L.holder ==> Disjoint(ds, Home(g, L, r))
  }

  /** A file entry's bytes stand in a region that some slot holds, or there are none. */
  lemma BytesSame(g: Geometry, v: Vol, L: Layout, disk': seq<Sector>, ds: seq<int>, d: nat, k: nat, e: Entry)
    requires Shape(g, v, L) && Clear(g, L, ds) && AgreeOff(g, v.disk, disk', ds)
    requires FileEntry(e) && EntryOk(g, L, d, k, e)
    ensures FileBytes(g, Vol(v.fat, disk'), L, e) == FileBytes(g, v, L, e)
  {
    if First(e) != 0 { AgreeThere(g, v, L, disk', ds, First(e)); }
  }

  lemma Untouched(g: Geometry, v: Vol, L: Layout, disk': seq<Sector>, ds: seq<int>)
    requires Inv(g, v, L) && Clear(g, L, ds) && AgreeOff(g, v.disk, disk', ds)
    ensures Inv(g, Vol(v.fat, disk'), L) && FileMap(g, Vol(v.fat, disk'), L) == FileMap(g, v, L)
  {
    var v' := Vol(v.fat, disk');
    forall d | d in L.dirs ensures Table(g, v', L, d) == Table(g, v, L, d) {
      AgreeThere(g, v, L, disk', ds, d);
    }
    forall q ensures Kept(g, v, L, v', L, q) {
      if q.dir in L.dirs && IsFile(g, v, L, q) {
        var es := Table(g, v, L, q.dir);
        assert TableOk(g, L, q.dir, es);
        BytesSame(g, v, L, disk', ds, q.dir, q.slot, es[q.slot]);
      }
    }
    hide *;
    MapSame(g, v, L, v', L);
  }

  /** Writing the FATs. */
  lemma FlushStep(g: Geometry, v: Vol, L: Layout, disk': seq<Sector>)
    requires Inv(g, v, L) && AgreeOff(g, v.disk, disk', [])
    ensures Inv(g, Vol(v.fat, disk'), L) && FileMap(g, Vol(v.fat, disk'), L) == FileMap(g, v, L)
  {
    Untouched(g, v, L, disk', []);
  }

  // ---- Slots ------------------------------------------------------------------------------------

  function PutSlot(g: Geometry, v: Vol, L: Layout, d: nat, k: nat, e: Entry): Vol {
    var ds := Home(g, L, d);
    if k < 16 * |ds| && 0 <= ds[k / 16] < |v.disk|
    then v.(disk := v.disk[ds[k / 16] := PutEntry(v.disk[ds[k / 16]], k % 16, e)])
    else v
  }

  /** Rewriting a slot changes that slot only: no other slot of any directory, no chain. */
  lemma PutEffect(g: Geometry, v: Vol, L: Layout, d: nat, k: nat, e: Entry)
    requires InTable(g, v, L, d, k)
    ensures var v' := PutSlot(g, v, L, d, k, e);
            && Shape(g, v', L) && v'.fat == v.fat
            && Table(g, v', L, d) == Table(g, v, L, d)[k := e]
            && AgreeOff(g, v.disk, v'.disk, [Home(g, L, d)[k / 16]])
            && forall r :: IsRegion(L, r) && r != d ==> Disjoint([Home(g, L, d)[k / 16]], Home(g, L, r))
  {
    RegionOk(g, v, L, d);
    var ds := Home(g, L, d);
    SlotsAfterPut(v.disk, ds, k, e);
    forall r | IsRegion(L, r) && r != d ensures Disjoint([ds[k / 16]], Home(g, L, r)) {
      RegionsApart(g, v, L, d, r);
    }
  }

  lemma PutOthers(g: Geometry, v: Vol, L: Layout, d: nat, k: nat, e: Entry, r: nat)
    requires InTable(g, v, L, d, k) && IsRegion(L, r) && r != d
    ensures var v' := PutSlot(g, v, L, d, k, e);
            && Table(g, v', L, r) == Table(g, v, L, r)
            && Contents(v'.disk, Home(g, L, r)) == Contents(v.disk, Home(g, L, r))
  {
    PutEffect(g, v, L, d, k, e);
    AgreeThere(g, v, L, PutSlot(g, v, L, d, k, e).disk, [Home(g, L, d)[k / 16]], r);
  }

  lemma PutBytes(g: Geometry, v: Vol, L: Layout, d: nat, k: nat, e: Entry, x: Entry)
    requires InTable(g, v, L, d, k)
    requires First(x) == 0 || (First(x) in L.chains && First(x) !in L.dirs)
    ensures FileBytes(g, PutSlot(g, v, L, d, k, e), L, x) == FileBytes(g, v, L, x)
  {
    if First(x) != 0 { PutOthers(g, v, L, d, k, e, First(x)); }
  }

  function Unhooked(L: Layout, f: nat): Layout { L.(holder := L.holder - {f}) }

  function Hooked(L: Layout, e: Entry, q: Place): Layout {
    if IsDirectory(e) || First(e) == 0 then L else L.(holder := L.holder[First(e) := q])
  }

  lemma DeletedTable(g: Geometry, L: Layout, d: nat, k: nat, es: seq<Entry>)
    requires TableOk(g, L, d, es) && NamesOk(L) && k < |es| && Visible(es[k])
    ensures TableOk(g, Unhooked(L, First(es[k])), d, es[k := Deleted(es[k])])
  {
    var es', L' := es[k := Deleted(es[k])], Unhooked(L, First(es[k]));
    assert !Visible(es'[k]);
    forall j | 0 <= j < |es'| ensures EntryOk(g, L', d, j, es'[j]) {
      if j != k { assert EntryOk(g, L, d, j, es[j]) && EntryOk(g, L, d, k, es[k]); }
    }
  }

  lemma UnhookedTable(g: Geometry, L: Layout, d: nat, k: nat, e: Entry, r: nat, es: seq<Entry>)
    requires TableOk(g, L, r, es) && NamesOk(L) && r != d
    requires Visible(e) && EntryOk(g, L, d, k, e)
    ensures TableOk(g, Unhooked(L, First(e)), r, es)
  {
    forall j | 0 <= j < |es| ensures EntryOk(g, Unhooked(L, First(e)), r, j, es[j]) {
      assert EntryOk(g, L, r, j, es[j]);
    }
  }

  /** Marking a visible slot deleted: its file is gone, everything else is as before, and its
      chain is an orphan. */
  lemma UnhookInv(g: Geometry, v: Vol, L: Layout, d: nat, k: nat)
    requires Inv(g, v, L) && InTable(g, v, L, d, k) && Visible(Table(g, v, L, d)[k])
    ensures var e := Table(g, v, L, d)[k];
            Inv(g, PutSlot(g, v, L, d, k, Deleted(e)), Unhooked(L, First(e)))
  {
    var es := Table(g, v, L, d);
    var v', L' := PutSlot(g, v, L, d, k, Deleted(es[k])), Unhooked(L, First(es[k]));
    assert TableOk(g, L, d, es);
    PutEffect(g, v, L, d, k, Deleted(es[k]));
    forall r | r in L'.dirs ensures TableOk(g, L', r, Table(g, v', L', r)) {
      assert Home(g, L', r) == Home(g, L, r);
      assert TableOk(g, L, r, Table(g, v, L, r));
      if r == d {
        DeletedTable(g, L, d, k, es);
      } else {
        PutOthers(g, v, L, d, k, Deleted(es[k]), r);
        UnhookedTable(g, L, d, k, es[k], r, Table(g, v, L, r));
      }
    }
  }

  /** After a slot is rewritten, every other slot holds the file it held. */
  lemma PutFiles(g: Geometry, v: Vol, L: Layout, d: nat, k: nat, e: Entry, q: Place)
    requires Inv(g, v, L) && InTable(g, v, L, d, k) && q != Place(d, k)
    ensures Kept(g, v, L, PutSlot(g, v, L, d, k, e), L, q)
  {
    PutEffect(g, v, L, d, k, e);
    if q.dir in L.dirs && q.dir != d { PutOthers(g, v, L, d, k, e, q.dir); }
    if IsFile(g, v, L, q) {
      var x := Table(g, v, L, q.dir)[q.slot];
      assert TableOk(g, L, q.dir, Table(g, v, L, q.dir));
      assert EntryOk(g, L, q.dir, q.slot, x);
      PutBytes(g, v, L, d, k, e, x);
    }
  }

  lemma UnhookFiles(g: Geometry, v: Vol, L: Layout, d: nat, k: nat)
    requires Inv(g, v, L) && InTable(g, v, L, d, k) && Visible(Table(g, v, L, d)[k])
    ensures var e := Table(g, v, L, d)[k];
            FileMap(g, PutSlot(g, v, L, d, k, Deleted(e)), Unhooked(L, First(e))) == FileMap(g, v, L) - {Place(d, k)}
  {
    var e := Table(g, v, L, d)[k];
    var v', L' := PutSlot(g, v, L, d, k, Deleted(e)), Unhooked(L, First(e));
    forall q | q != Place(d, k) ensures Kept(g, v, L, v', L', q) {
      PutFiles(g, v, L, d, k, Deleted(e), q);
      SameChains(g, v, L, v', L, L', q);
    }
    assert !IsFile(g, v', L', Place(d, k)) by {
      PutEffect(g, v, L, d, k, Deleted(e));
      SameChains(g, v, L, v', L, L', Place(d, k));
      assert !Visible(Deleted(e));
    }
    hide *;
    MapRemoved(g, v, L, v', L', Place(d, k));
  }

  /** Files depend on the chains and directories of a layout only. */
  lemma SameChains(g: Geometry, v0: Vol, L0: Layout, v: Vol, L: Layout, L': Layout, q: Place)
    requires L'.chains == L.chains && L'.dirs == L.dirs
    ensures Table(g, v, L', q.dir) == Table(g, v, L, q.dir)
    ensures IsFile(g, v, L', q) <==> IsFile(g, v, L, q)
    ensures q.slot < |Table(g, v, L, q.dir)| ==> FileAt(g, v, L', q) == FileAt(g, v, L, q)
    ensures Kept(g, v0, L0, v, L, q) <==> Kept(g, v0, L0, v, L', q)
  {
  }

  /** What a new entry must be: in a slot not used, after slots all used at some time, with a
      name not in the directory, naming a directory, nothing, or an orphan chain with room. */
  ghost predicate Hookable(g: Geometry, v: Vol, L: Layout, d: nat, k: nat, e: Entry) {
    && InTable(g, v, L, d, k)
    && var es := Table(g, v, L, d);
    && !Used(es[k]) && (forall j :: 0 <= j < k ==> es[j][0] != 0)
    && Visible(e) && Find(es, Key(NameOf(e)), 0) == -1
    && Size(e) <= 512 * |Sectors(g, Chain(L, First(e)))|
    && (IsDirectory(e) ==> Size(e) == 0 && First(e) in L.dirs)
    && (!IsDirectory(e) ==> First(e) == 0 || Orphan(L, First(e)))
  }

  lemma HookedTable(g: Geometry, v: Vol, L: Layout, d: nat, k: nat, e: Entry, r: nat)
    requires Hookable(g, v, L, d, k, e) && TablesOk(g, v, L) && r in L.dirs
    ensures EntriesOk(g, Hooked(L, e, Place(d, k)), r,
                      if r == d then Table(g, v, L, d)[k := e] else Table(g, v, L, r))
  {
    var es := Table(g, v, L, r);
    assert TableOk(g, L, r, es);
    if r == d {
      HookedEntries(g, L, d, k, e, d, es);
    } else {
      HookedEntries(g, L, d, k, e, r, es);
    }
  }

  lemma HookedEntries(g: Geometry, L: Layout, d: nat, k: nat, e: Entry, r: nat, es: seq<Entry>)
    requires EntriesOk(g, L, r, es) && (r == d ==> k < |es|)
    requires Size(e) <= 512 * |Sectors(g, Chain(L, First(e)))|
    requires IsDirectory(e) ==> Size(e) == 0 && First(e) in L.dirs
    requires !IsDirectory(e) ==> First(e) == 0 || Orphan(L, First(e))
    ensures EntriesOk(g, Hooked(L, e, Place(d, k)), r, if r == d then es[k := e] else es)
  {
    var L' := Hooked(L, e, Place(d, k));
    forall j | 0 <= j < |es| ensures EntryOk(g, L', r, j, es[j]) { assert EntryOk(g, L, r, j, es[j]); }
    assert r == d ==> EntryOk(g, L', d, k, e);
  }

  lemma HookedKeys(g: Geometry, v: Vol, L: Layout, d: nat, k: nat, e: Entry)
    requires Hookable(g, v, L, d, k, e) && TablesOk(g, v, L)
    ensures ZeroTail(Table(g, v, L, d)[k := e]) && UniqueKeys(Table(g, v, L, d)[k := e])
  {
    var es := Table(g, v, L, d);
    assert TableOk(g, L, d, es);
    NewKey(es, k, e);
  }

  lemma NewKey(es: seq<Entry>, k: nat, e: Entry)
    requires ZeroTail(es) && UniqueKeys(es) && k < |es|
    requires e[0] != 0 && (forall j :: 0 <= j < k ==> es[j][0] != 0)
    requires Find(es, Key(NameOf(e)), 0) == -1
    ensures ZeroTail(es[k := e]) && UniqueKeys(es[k := e])
  {
    var key := Key(NameOf(e));
    FindFrom(es, key, 0);
    hide Key, Find;
    var es' := es[k := e];
    forall i, j | 0 <= i < j < |es'| && Visible(es'[i]) && Visible(es'[j])
      ensures Key(NameOf(es'[i])) != Key(NameOf(es'[j]))
    {
      assert !IsAt(es, key, i) && !IsAt(es, key, j);
    }
  }

  /** Writing a new slot. */
  lemma HookInv(g: Geometry, v: Vol, L: Layout, d: nat, k: nat, e: Entry)
    requires Inv(g, v, L) && Hookable(g, v, L, d, k, e)
    ensures Inv(g, PutSlot(g, v, L, d, k, e), Hooked(L, e, Place(d, k)))
  {
    var v', L' := PutSlot(g, v, L, d, k, e), Hooked(L, e, Place(d, k));
    PutEffect(g, v, L, d, k, e);
    forall r | r in L'.dirs ensures TableOk(g, L', r, Table(g, v', L', r)) {
      assert Home(g, L', r) == Home(g, L, r);
      assert TableOk(g, L, r, Table(g, v, L, r));
      HookedTable(g, v, L, d, k, e, r);
      if r == d { HookedKeys(g, v, L, d, k, e); } else { PutOthers(g, v, L, d, k, e, r); }
    }
  }

  lemma HookFiles(g: Geometry, v: Vol, L: Layout, d: nat, k: nat, e: Entry)
    requires Inv(g, v, L) && Hookable(g, v, L, d, k, e)
    ensures FileMap(g, PutSlot(g, v, L, d, k, e), Hooked(L, e, Place(d, k))) ==
            if FileEntry(e) then FileMap(g, v, L)[Place(d, k) := File(Key(NameOf(e)), FileBytes(g, v, L, e))]
            else FileMap(g, v, L)
    ensures Place(d, k) !in FileMap(g, v, L)
  {
    var v', L', p := PutSlot(g, v, L, d, k, e), Hooked(L, e, Place(d, k)), Place(d, k);
    forall q | q != p ensures Kept(g, v, L, v', L', q) {
      PutFiles(g, v, L, d, k, e, q);
      SameChains(g, v, L, v', L, L', q);
    }
    HookSlot(g, v, L, d, k, e);
    hide IsFile, FileAt, Inv, Hookable, PutSlot, Hooked, Kept;
    if FileEntry(e) {
      MapAdded(g, v, L, v', L', p);
    } else {
      assert Kept(g, v, L, v', L', p) by { HookSlot(g, v, L, d, k, e); NeitherFile(g, v, L, v', L', p); }
      MapSame(g, v, L, v', L');
    }
  }

  lemma NeitherFile(g: Geometry, v: Vol, L: Layout, v': Vol, L': Layout, p: Place)
    requires !IsFile(g, v, L, p) && !IsFile(g, v', L', p)
    ensures Kept(g, v, L, v', L', p)
  {
  }

  lemma HookSlot(g: Geometry, v: Vol, L: Layout, d: nat, k: nat, e: Entry)
    requires Inv(g, v, L) && Hookable(g, v, L, d, k, e)
    ensures var v', L', p := PutSlot(g, v, L, d, k, e), Hooked(L, e, Place(d, k)), Place(d, k);
            && !IsFile(g, v, L, p)
            && (IsFile(g, v', L', p) <==> FileEntry(e))
            && (FileEntry(e) ==> FileAt(g, v', L', p) == File(Key(NameOf(e)), FileBytes(g, v, L, e)))
  {
    var v', L', p := PutSlot(g, v, L, d, k, e), Hooked(L, e, Place(d, k)), Place(d, k);
    hide Table, Home, IsFile, FileAt, FileBytes, Shape, PutSlot, TablesOk;
    PutEffect(g, v, L, d, k, e);
    SameChains(g, v, L, v', L, L', p);
    SlotHolds(g, v, L, p, Table(g, v, L, d)[k]);
    SlotHolds(g, v', L', p, e);
    if FileEntry(e) {
      PutBytes(g, v, L, d, k, e, e);
      SameBytes(g, v', L, L', e);
    }
  }

  lemma SameBytes(g: Geometry, v: Vol, L: Layout, L': Layout, e: Entry)
    requires L'.chains == L.chains
    ensures FileBytes(g, v, L', e) == FileBytes(g, v, L, e)
  {
  }

  lemma SlotHolds(g: Geometry, v: Vol, L: Layout, q: Place, e: Entry)
    requires q.dir in L.dirs && q.slot < |Table(g, v, L, q.dir)| && Table(g, v, L, q.dir)[q.slot] == e
    ensures IsFile(g, v, L, q) <==> FileEntry(e)
    ensures FileAt(g, v, L, q) == File(Key(NameOf(e)), FileBytes(g, v, L, e))
  {
    hide Table, FileBytes, Key, FileEntry;
  }

  // ---- Chains -----------------------------------------------------------------------------------

  /** The FAT with the given clusters marked free. */
  function Zeroed(fat: seq<nat>, cs: seq<nat>): (r: seq<nat>)
    ensures |r| == |fat|
    ensures forall c :: 0 <= c < |fat| ==> r[c] == if c in cs then FREE_CLUSTER else fat[c]
  {
    seq(|fat|, c requires 0 <= c < |fat| => if c in cs then FREE_CLUSTER else fat[c])
  }

  function Dropped(L: Layout, f: nat): Layout { L.(chains := L.chains - {f}) }

  lemma FreeShape(g: Geometry, v: Vol, L: Layout, f: nat)
    requires Shape(g, v, L) && Orphan(L, f)
    ensures Shape(g, v.(fat := Zeroed(v.fat, Chain(L, f))), Dropped(L, f))
  {
    var v', L' := v.(fat := Zeroed(v.fat, Chain(L, f))), Dropped(L, f);
    forall r | r in L'.chains ensures ChainOk(v'.fat, L'.own, r, L'.chains[r]) {
      var cs := L.chains[r];
      assert ChainOk(v.fat, L.own, r, cs);
      ChainsApart(g, v, L, r, f);
      assert forall i :: 0 <= i < |cs| ==> cs[i] !in Chain(L, f);
      assert forall i :: 0 <= i < |cs| ==> v'.fat[cs[i]] == v.fat[cs[i]];
    }
  }

  /** Freeing an orphan chain. */
  lemma FreeStep(g: Geometry, v: Vol, L: Layout, f: nat)
    requires Inv(g, v, L) && Orphan(L, f)
    ensures var v', L' := v.(fat := Zeroed(v.fat, Chain(L, f))), Dropped(L, f);
            Inv(g, v', L') && FileMap(g, v', L') == FileMap(g, v, L)
  {
    hide Table, Shape, TableOk, Kept;
    var v', L' := v.(fat := Zeroed(v.fat, Chain(L, f))), Dropped(L, f);
    FreeShape(g, v, L, f);
    forall r | r in L'.dirs ensures Table(g, v', L', r) == Table(g, v, L, r) && TableOk(g, L', r, Table(g, v, L, r)) {
      FreeTable(g, v, L, f, r);
    }
    forall q ensures Kept(g, v, L, v', L', q) { FreeKeeps(g, v, L, f, q); }
    MapSame(g, v, L, v', L');
  }

  lemma FreeTable(g: Geometry, v: Vol, L: Layout, f: nat, r: nat)
    requires Inv(g, v, L) && Orphan(L, f) && r in L.dirs
    ensures var v', L' := v.(fat := Zeroed(v.fat, Chain(L, f))), Dropped(L, f);
            Table(g, v', L', r) == Table(g, v, L, r) && TableOk(g, L', r, Table(g, v, L, r))
  {
    hide Slots, Sectors, EntriesOk;
    var es := Table(g, v, L, r);
    assert TableOk(g, L, r, es);
    FreeEntries(g, L, f, r, es);
  }

  lemma FreeEntries(g: Geometry, L: Layout, f: nat, d: nat, es: seq<Entry>)
    requires NamesOk(L) && Orphan(L, f) && EntriesOk(g, L, d, es)
    ensures EntriesOk(g, Dropped(L, f), d, es)
  {
    hide Sectors;
    forall j | 0 <= j < |es| ensures EntryOk(g, Dropped(L, f), d, j, es[j]) { assert EntryOk(g, L, d, j, es[j]); }
  }

  lemma FreeKeeps(g: Geometry, v: Vol, L: Layout, f: nat, q: Place)
    requires Inv(g, v, L) && Orphan(L, f)
    ensures Kept(g, v, L, v.(fat := Zeroed(v.fat, Chain(L, f))), Dropped(L, f), q)
  {
    if q.dir in L.dirs {
      var es := Table(g, v, L, q.dir);
      assert TableOk(g, L, q.dir, es);
      FreeTable(g, v, L, f, q.dir);
      if q.slot < |es| && FileEntry(es[q.slot]) { FreeBytes(g, v, L, f, q.dir, q.slot, es[q.slot]); }
      assert es + ZeroEntries(0) == es;
      KeptBy(g, v, L, v.(fat := Zeroed(v.fat, Chain(L, f))), Dropped(L, f), q, 0);
    }
  }

  lemma FreeBytes(g: Geometry, v: Vol, L: Layout, f: nat, d: nat, k: nat, e: Entry)
    requires Orphan(L, f) && NamesOk(L) && FileEntry(e) && EntryOk(g, L, d, k, e)
    ensures FileBytes(g, v.(fat := Zeroed(v.fat, Chain(L, f))), Dropped(L, f), e) == FileBytes(g, v, L, e)
  {
    hide Contents, Sectors;
    assert First(e) != f;
  }

  function Appended(L: Layout, f: nat, c: nat): Layout {
    L.(chains := L.chains[f := Chain(L, f) + [c]], own := L.own[c := Pos(f, |Chain(L, f)|)])
  }

  /** The FAT after cluster c is taken and, if the chain cs is not empty, linked after it. */
  function Linked(fat: seq<nat>, cs: seq<nat>, c: nat): seq<nat>
    requires c < |fat| && (cs == [] || cs[|cs| - 1] < |fat|)
  {
    if cs == [] then fat[c := END_OF_CHAIN] else fat[c := END_OF_CHAIN][cs[|cs| - 1] := c]
  }

  ghost predicate Appendable(g: Geometry, v: Vol, L: Layout, f: nat, c: nat) {
    && Shape(g, v, L) && 2 <= c < |v.fat| && v.fat[c] == FREE_CLUSTER
    && (f == c || (f in L.chains && f !in L.holder))
  }

  lemma FreeIsUnchained(g: Geometry, v: Vol, L: Layout, c: nat, r: nat)
    requires Shape(g, v, L) && 2 <= c < |v.fat| && v.fat[c] == FREE_CLUSTER && r in L.chains
    ensures c !in L.chains[r] && c != r
  {
    ChainsApart(g, v, L, r, r);
    assert ChainOk(v.fat, L.own, r, L.chains[r]);
  }

  lemma ChainEnd(g: Geometry, v: Vol, L: Layout, f: nat, c: nat)
    requires Appendable(g, v, L, f, c)
    ensures var cs := Chain(L, f); (cs == [] <==> f == c) && (cs == [] || 2 <= cs[|cs| - 1] < |v.fat|)
    ensures c !in L.chains && c !in L.holder && c !in L.dirs
  {
    if c in L.chains { FreeIsUnchained(g, v, L, c, c); }
    if f in L.chains { assert ChainOk(v.fat, L.own, f, L.chains[f]); }
  }

  lemma AppendShape(g: Geometry, v: Vol, L: Layout, f: nat, c: nat, disk': seq<Sector>)
    requires Appendable(g, v, L, f, c) && |disk'| == |v.disk|
    requires Chain(L, f) == [] || Chain(L, f)[|Chain(L, f)| - 1] < |v.fat|
    ensures Shape(g, Vol(Linked(v.fat, Chain(L, f), c), disk'), Appended(L, f, c))
  {
    hide ChainOk;
    var cs, L', fat' := Chain(L, f), Appended(L, f, c), Linked(v.fat, Chain(L, f), c);
    ChainEnd(g, v, L, f, c);
    forall r | r in L'.chains ensures ChainOk(fat', L'.own, r, L'.chains[r]) {
      if r != f { AppendOther(g, v, L, f, c, r); } else { AppendChain(g, v, L, f, c); }
    }
  }

  /** Another chain is not touched. */
  lemma AppendOther(g: Geometry, v: Vol, L: Layout, f: nat, c: nat, r: nat)
    requires Appendable(g, v, L, f, c) && r in L.chains && r != f
    requires Chain(L, f) == [] || Chain(L, f)[|Chain(L, f)| - 1] < |v.fat|
    ensures ChainOk(Linked(v.fat, Chain(L, f), c), Appended(L, f, c).own, r, L.chains[r])
  {
    hide SizesOk, NamesOk;
    var ds, fat' := L.chains[r], Linked(v.fat, Chain(L, f), c);
    ChainEnd(g, v, L, f, c);
    assert ChainOk(v.fat, L.own, r, ds);
    FreeIsUnchained(g, v, L, c, r);
    if f != c { ChainsApart(g, v, L, r, f); }
    forall i | 0 <= i < |ds| ensures fat'[ds[i]] == v.fat[ds[i]] { assert ds[i] != c; }
  }

  lemma AppendChain(g: Geometry, v: Vol, L: Layout, f: nat, c: nat)
    requires Appendable(g, v, L, f, c)
    requires Chain(L, f) == [] || Chain(L, f)[|Chain(L, f)| - 1] < |v.fat|
    ensures ChainOk(Linked(v.fat, Chain(L, f), c), Appended(L, f, c).own, f, Chain(L, f) + [c])
  {
    var cs, fat' := Chain(L, f), Linked(v.fat, Chain(L, f), c);
    ChainEnd(g, v, L, f, c);
    if cs != [] {
      assert ChainOk(v.fat, L.own, f, cs);
      FreeIsUnchained(g, v, L, c, f);
      ChainsApart(g, v, L, f, f);
      forall i | 0 <= i < |cs| ensures cs[i] != c { }
      forall i, j | 0 <= i && j == i + 1 && j < |cs| ensures fat'[cs[i]] == cs[j] { assert cs[i] != cs[|cs| - 1]; }
    }
  }

  lemma FreshCluster(g: Geometry, v: Vol, L: Layout, c: nat, r: nat)
    requires Shape(g, v, L) && 2 <= c < |v.fat| && v.fat[c] == FREE_CLUSTER && IsRegion(L, r)
    ensures Disjoint(ClusterSectors(g, c), Home(g, L, r))
  {
    OneCluster(g, c);
    if r == 0 {
      forall s | 0 <= s < g.spc ensures DataStart(g) <= ClusterSectors(g, c)[s] { ClustersApart(g, c, c, Lba(g, c) + s); }
    } else {
      FreeIsUnchained(g, v, L, c, r);
      SectorsDisjoint(g, [c], L.chains[r]);
    }
  }

  ghost predicate ZeroCluster(g: Geometry, disk: seq<Sector>, c: nat) {
    forall x :: InCluster(g, c, x) ==> SectorOf(disk, x) == Zeros(512)
  }

  function ZeroEntries(n: nat): (r: seq<Entry>)
    ensures |r| == n
  {
    seq(n, _ => Zeros(32))
  }

  lemma ZeroSlots(g: Geometry, disk: seq<Sector>, c: nat)
    requires ZeroCluster(g, disk, c)
    ensures Slots(disk, ClusterSectors(g, c)) == ZeroEntries(16 * g.spc)
  {
    var ds := ClusterSectors(g, c);
    forall k | 0 <= k < 16 * g.spc ensures Slots(disk, ds)[k] == Zeros(32) {
      assert ds[k / 16] == Lba(g, c) + k / 16;
      assert InCluster(g, c, ds[k / 16]);
    }
  }

  lemma ZerosKeepTable(g: Geometry, L: Layout, d: nat, es: seq<Entry>, n: nat)
    requires TableOk(g, L, d, es)
    ensures TableOk(g, L, d, es + ZeroEntries(n))
  {
    var es' := es + ZeroEntries(n);
    forall j | 0 <= j < |es'| ensures EntryOk(g, L, d, j, es'[j]) {
      if j < |es| { assert EntryOk(g, L, d, j, es[j]); }
    }
  }

  /** The disk after c was appended to f: a directory gets only slots never used. */
  ghost predicate AppendDisk(g: Geometry, v: Vol, L: Layout, f: nat, c: nat, disk': seq<Sector>) {
    && AgreeOff(g, v.disk, disk', ClusterSectors(g, c))
    && (f in L.dirs ==> ZeroCluster(g, disk', c))
  }

  /** Directories read the same after an append, but for zero slots at the end of f. */
  lemma AppendTable(g: Geometry, v: Vol, L: Layout, f: nat, c: nat, disk': seq<Sector>, r: nat)
    requires Appendable(g, v, L, f, c) && AppendDisk(g, v, L, f, c, disk') && r in L.dirs
    ensures Slots(disk', Home(g, Appended(L, f, c), r)) ==
            Table(g, v, L, r) + if r == f then ZeroEntries(16 * g.spc) else []
  {
    hide SizesOk, ChainsOk, ZeroCluster, Lba;
    FreshCluster(g, v, L, c, r);
    AgreeThere(g, v, L, disk', ClusterSectors(g, c), r);
    AppendHome(g, v, L, f, c, r);
    if r == f {
      SlotsConcat(disk', Home(g, L, f), ClusterSectors(g, c));
      ZeroSlots(g, disk', c);
    }
  }

  lemma AppendHome(g: Geometry, v: Vol, L: Layout, f: nat, c: nat, r: nat)
    requires Appendable(g, v, L, f, c) && r in L.dirs
    ensures Home(g, Appended(L, f, c), r) == Home(g, L, r) + if r == f then ClusterSectors(g, c) else []
  {
    hide SizesOk, ChainsOk;
    ChainEnd(g, v, L, f, c);
    if r == f {
      assert Chain(Appended(L, f, c), f) == Chain(L, f) + [c];
      assert (Chain(L, f) + [c])[..|Chain(L, f)|] == Chain(L, f);
    }
  }

  lemma AppendEntry(g: Geometry, v: Vol, L: Layout, f: nat, c: nat, d: nat, k: nat, e: Entry)
    requires Appendable(g, v, L, f, c) && EntryOk(g, L, d, k, e)
    ensures EntryOk(g, Appended(L, f, c), d, k, e)
  {
    ChainEnd(g, v, L, f, c);
    if Visible(e) && First(e) == f {
      assert (Chain(L, f) + [c])[..|Chain(L, f)|] == Chain(L, f);
    }
  }

  lemma AppendInv(g: Geometry, v: Vol, L: Layout, f: nat, c: nat, disk': seq<Sector>)
    requires Inv(g, v, L) && Appendable(g, v, L, f, c) && AppendDisk(g, v, L, f, c, disk')
    requires Chain(L, f) == [] || Chain(L, f)[|Chain(L, f)| - 1] < |v.fat|
    ensures Inv(g, Vol(Linked(v.fat, Chain(L, f), c), disk'), Appended(L, f, c))
  {
    var v', L' := Vol(Linked(v.fat, Chain(L, f), c), disk'), Appended(L, f, c);
    AppendShape(g, v, L, f, c, disk');
    forall r | r in L'.dirs ensures TableOk(g, L', r, Table(g, v', L', r)) {
      var es := Table(g, v, L, r);
      assert TableOk(g, L, r, es);
      AppendTable(g, v, L, f, c, disk', r);
      forall j | 0 <= j < |es| ensures EntryOk(g, L', r, j, es[j]) { AppendEntry(g, v, L, f, c, r, j, es[j]); }
      assert TableOk(g, L', r, es);
      if r == f { ZerosKeepTable(g, L', r, es, 16 * g.spc); } else { assert es + [] == es; }
    }
  }

  lemma AppendBytes(g: Geometry, v: Vol, L: Layout, f: nat, c: nat, disk': seq<Sector>, d: nat, k: nat, e: Entry)
    requires Appendable(g, v, L, f, c) && AppendDisk(g, v, L, f, c, disk')
    requires FileEntry(e) && EntryOk(g, L, d, k, e)
    ensures Take(Contents(disk', Sectors(g, Chain(Appended(L, f, c), First(e)))), Size(e)) == FileBytes(g, v, L, e)
  {
    ChainEnd(g, v, L, f, c);
    if First(e) != 0 {
      FreshCluster(g, v, L, c, First(e));
      AgreeThere(g, v, L, disk', ClusterSectors(g, c), First(e));
    }
  }

  lemma AppendFiles(g: Geometry, v: Vol, L: Layout, f: nat, c: nat, disk': seq<Sector>)
    requires Inv(g, v, L) && Appendable(g, v, L, f, c) && AppendDisk(g, v, L, f, c, disk')
    requires Chain(L, f) == [] || Chain(L, f)[|Chain(L, f)| - 1] < |v.fat|
    ensures FileMap(g, Vol(Linked(v.fat, Chain(L, f), c), disk'), Appended(L, f, c)) == FileMap(g, v, L)
  {
    var v', L' := Vol(Linked(v.fat, Chain(L, f), c), disk'), Appended(L, f, c);
    forall q ensures Kept(g, v, L, v', L', q) { AppendKeeps(g, v, L, f, c, disk', q); }
    hide *;
    MapSame(g, v, L, v', L');
  }

  lemma AppendKeeps(g: Geometry, v: Vol, L: Layout, f: nat, c: nat, disk': seq<Sector>, q: Place)
    requires Inv(g, v, L) && Appendable(g, v, L, f, c) && AppendDisk(g, v, L, f, c, disk')
    requires Chain(L, f) == [] || Chain(L, f)[|Chain(L, f)| - 1] < |v.fat|
    ensures Kept(g, v, L, Vol(Linked(v.fat, Chain(L, f), c), disk'), Appended(L, f, c), q)
  {
    if q.dir in L.dirs {
      var v', L', es := Vol(Linked(v.fat, Chain(L, f), c), disk'), Appended(L, f, c), Table(g, v, L, q.dir);
      AppendTable(g, v, L, f, c, disk', q.dir);
      assert TableOk(g, L, q.dir, es);
      if q.slot < |es| && FileEntry(es[q.slot]) {
        AppendBytes(g, v, L, f, c, disk', q.dir, q.slot, es[q.slot]);
      }
      KeptBy(g, v, L, v', L', q, if q.dir == f then 16 * g.spc else 0);
    }
  }

  lemma KeptBy(g: Geometry, v: Vol, L: Layout, v': Vol, L': Layout, q: Place, n: nat)
    requires L'.dirs == L.dirs && Table(g, v', L', q.dir) == Table(g, v, L, q.dir) + ZeroEntries(n)
    requires q.slot < |Table(g, v, L, q.dir)| && FileEntry(Table(g, v, L, q.dir)[q.slot]) ==>
               FileBytes(g, v', L', Table(g, v, L, q.dir)[q.slot]) == FileBytes(g, v, L, Table(g, v, L, q.dir)[q.slot])
    ensures Kept(g, v, L, v', L', q)
  {
    hide Table, FileBytes;
  }

  // ---- New directories ---------------------------------------------------------------------------

  function WithDir(L: Layout, c: nat): Layout { L.(dirs := L.dirs + {c}) }

  lemma NewDirTable(g: Geometry, v: Vol, L: Layout, c: nat, r: nat)
    requires Inv(g, v, L) && Orphan(L, c) && r in L.dirs
    ensures TableOk(g, WithDir(L, c), r, Table(g, v, WithDir(L, c), r))
  {
    var es := Table(g, v, L, r);
    assert Table(g, v, WithDir(L, c), r) == es;
    assert TableOk(g, L, r, es);
    forall j | 0 <= j < |es| ensures EntryOk(g, WithDir(L, c), r, j, es[j]) { assert EntryOk(g, L, r, j, es[j]); }
  }

  ghost predicate NoFiles(es: seq<Entry>) { forall k :: 0 <= k < |es| ==> !FileEntry(es[k]) }

  /** An orphan chain whose sectors read as a directory without files becomes one. */
  lemma NewDirStep(g: Geometry, v: Vol, L: Layout, c: nat)
    requires Inv(g, v, L) && Orphan(L, c)
    requires TableOk(g, WithDir(L, c), c, Table(g, v, L, c)) && NoFiles(Table(g, v, L, c))
    ensures Inv(g, v, WithDir(L, c)) && FileMap(g, v, WithDir(L, c)) == FileMap(g, v, L)
  {
    var L' := WithDir(L, c);
    forall r | r in L.dirs ensures TableOk(g, L', r, Table(g, v, L', r)) { NewDirTable(g, v, L, c, r); }
    assert Inv(g, v, L') by {
      hide TableOk;
      assert Table(g, v, L', c) == Table(g, v, L, c);
    }
    forall q ensures Kept(g, v, L, v, L', q) { NewDirKeeps(g, v, L, c, q); }
    hide *;
    MapSame(g, v, L, v, L');
  }

  lemma NewDirKeeps(g: Geometry, v: Vol, L: Layout, c: nat, q: Place)
    requires NoFiles(Table(g, v, L, c))
    ensures Kept(g, v, L, v, WithDir(L, c), q)
  {
    assert Table(g, v, WithDir(L, c), q.dir) == Table(g, v, L, q.dir);
    if q.dir == c && q.slot < |Table(g, v, L, c)| { assert !FileEntry(Table(g, v, L, c)[q.slot]); }
  }
}
