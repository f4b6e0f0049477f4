/** The on-disk vocabulary of kernel/src/fat16.cpp: geometry, sectors of a cluster chain,
    32-byte directory entries and 8.3 names. Formats follow the Microsoft FAT specification
    1.03, sections "FAT Data Structure" and "FAT Directory Structure". */
module FatTypes {
  import opened Collections

  newtype Byte = x: int | 0 <= x < 256
  type Bytes = seq<Byte>

  const MAX_FAT_ENTRIES := 32768
  const FREE_CLUSTER := 0
  const END_OF_CHAIN := 0xFFFF
  const END_MARK := 0xFFF8

  // ---- Geometry ---------------------------------------------------------------------------------

  /** The fields of the boot sector that the driver uses; sectors have 512 bytes. */
  datatype Geometry = Geometry(reserved: nat, numFats: nat, fatSize: nat, rootEntries: nat, spc: nat)

  function RootLba(g: Geometry): nat { g.reserved + g.numFats * g.fatSize }

  function RootCount(g: Geometry): nat { (g.rootEntries * 32 + 511) / 512 }

  function DataStart(g: Geometry): nat { RootLba(g) + RootCount(g) }

  /** How many FAT entries the driver keeps. */
  function Total(g: Geometry): nat {
    if g.fatSize * 256 > MAX_FAT_ENTRIES then MAX_FAT_ENTRIES else g.fatSize * 256
  }

  predicate GeoOk(g: Geometry) { 1 <= g.spc <= 255 && 1 <= g.numFats <= 255 && g.fatSize <= 128 }

  /** cluster_to_lba. */
  function Lba(g: Geometry, c: nat): int { DataStart(g) + (c - 2) * g.spc }

  predicate InCluster(g: Geometry, c: nat, x: int) { Lba(g, c) <= x < Lba(g, c) + g.spc }

  /** Distinct clusters occupy disjoint sectors, clear of the FATs and the root directory. */
  lemma ClustersApart(g: Geometry, c: nat, d: nat, x: int)
    requires InCluster(g, c, x)
    ensures 2 <= c ==> DataStart(g) <= x
    ensures InCluster(g, d, x) ==> c == d
  {
    hide Lba;
    if 2 <= c { DataBelow(g, c); }
    if InCluster(g, d, x) {
      if c < d { Later(g, c, d); }
      if d < c { Later(g, d, c); }
    }
  }

  lemma DataBelow(g: Geometry, c: nat)
    requires 2 <= c
    ensures DataStart(g) <= Lba(g, c)
  {
    var n: nat := c - 2;
    assert n * g.spc >= 0;
  }

  lemma Later(g: Geometry, c: nat, d: nat)
    requires c < d
    ensures Lba(g, c) + g.spc <= Lba(g, d)
  {
    calc {
      Lba(g, d) - Lba(g, c);
      (d - 2) * g.spc - (c - 2) * g.spc;
      (d - c) * g.spc;
    >= { MulAtLeast(d - c, g.spc); }
      g.spc;
    }
  }

  lemma MulAtLeast(n: nat, k: nat)
    requires n >= 1
    ensures n * k >= k
  {
    assert n * k == (n - 1) * k + k;
  }

  // ---- Sectors of a chain -----------------------------------------------------------------------

  /** n consecutive sectors. */
  function Run(lba: int, n: nat): (r: seq<int>)
    ensures |r| == n && forall s :: 0 <= s < n ==> r[s] == lba + s
  {
    seq(n, s => lba + s)
  }

  function ClusterSectors(g: Geometry, c: nat): seq<int> { Run(Lba(g, c), g.spc) }

  /** All sectors of a chain, in file order. */
  function Sectors(g: Geometry, cs: seq<nat>): seq<int> {
    if cs == [] then [] else Sectors(g, cs[..|cs| - 1]) + ClusterSectors(g, cs[|cs| - 1])
  }

  function RootSectors(g: Geometry): seq<int> { Run(RootLba(g), RootCount(g)) }

  ghost predicate Disjoint<T>(a: seq<T>, b: seq<T>) {
    forall i, j :: 0 <= i < |a| && 0 <= j < |b| ==> a[i] != b[j]
  }

  lemma {:induction false} SectorIsInCluster(g: Geometry, cs: seq<nat>, k: nat)
    requires k < |Sectors(g, cs)|
    ensures exists i :: 0 <= i < |cs| && InCluster(g, cs[i], Sectors(g, cs)[k])
    decreases |cs|
  {
    var n := |cs| - 1;
    var front := Sectors(g, cs[..n]);
    if k < |front| {
      SectorIsInCluster(g, cs[..n], k);
      var i :| 0 <= i < n && InCluster(g, cs[..n][i], front[k]);
      assert cs[i] == cs[..n][i];
    } else {
      assert InCluster(g, cs[n], Sectors(g, cs)[k]);
    }
  }

  /** Chains that share no cluster share no sector. */
  lemma SectorsDisjoint(g: Geometry, a: seq<nat>, b: seq<nat>)
    requires Disjoint(a, b)
    ensures Disjoint(Sectors(g, a), Sectors(g, b))
  {
    var x, y := Sectors(g, a), Sectors(g, b);
    forall i, j | 0 <= i < |x| && 0 <= j < |y| ensures x[i] != y[j] {
      SectorIsInCluster(g, a, i);
      SectorIsInCluster(g, b, j);
      var p :| 0 <= p < |a| && InCluster(g, a[p], x[i]);
      var q :| 0 <= q < |b| && InCluster(g, b[q], y[j]);
      ClustersApart(g, a[p], b[q], x[i]);
    }
  }

  lemma OneCluster(g: Geometry, c: nat)
    ensures Sectors(g, [c]) == ClusterSectors(g, c)
  {
    assert [c][..0] == [];
  }

  lemma {:induction false} SectorsNoDup(g: Geometry, cs: seq<nat>)
    requires NoDup(cs)
    ensures NoDup(Sectors(g, cs))
    decreases |cs|
  {
    if cs != [] {
      var n := |cs| - 1;
      SectorsNoDup(g, cs[..n]);
      SectorsDisjoint(g, cs[..n], [cs[n]]);
      OneCluster(g, cs[n]);
    }
  }

  lemma {:induction false} SectorsConcat(g: Geometry, a: seq<nat>, b: seq<nat>)
    ensures Sectors(g, a + b) == Sectors(g, a) + Sectors(g, b)
    decreases |b|
  {
    if b == [] {
      assert a + b == a;
    } else {
      var n := |b| - 1;
      SectorsConcat(g, a, b[..n]);
      assert (a + b)[..|a + b| - 1] == a + b[..n];
    }
  }

  /** Where the sectors of the i-th cluster stand among all sectors of the chain. */
  lemma SectorsAt(g: Geometry, cs: seq<nat>, i: nat)
    requires i < |cs|
    ensures var j := |Sectors(g, cs[..i])|;
            && Sectors(g, cs[..i + 1]) == Sectors(g, cs[..i]) + ClusterSectors(g, cs[i])
            && j + g.spc <= |Sectors(g, cs)|
            && Sectors(g, cs)[j..j + g.spc] == ClusterSectors(g, cs[i])
  {
    assert cs[..i + 1][..i] == cs[..i];
    SectorsConcat(g, cs[..i + 1], cs[i + 1..]);
    assert cs[..i + 1] + cs[i + 1..] == cs;
  }

  lemma {:induction false} SectorsLen(g: Geometry, cs: seq<nat>)
    ensures |Sectors(g, cs)| == |cs| * g.spc
    decreases |cs|
  {
    if cs != [] {
      SectorsLen(g, cs[..|cs| - 1]);
      assert |cs| * g.spc == (|cs| - 1) * g.spc + g.spc;
    }
  }

  // ---- Sector contents --------------------------------------------------------------------------

  function Zeros(n: nat): (r: Bytes)
    ensures |r| == n && forall i :: 0 <= i < n ==> r[i] == 0
  {
    seq(n, _ => 0)
  }

  type Sector = s: Bytes | |s| == 512 witness Zeros(512)

  function SectorOf(disk: seq<Sector>, x: int): Sector {
    if 0 <= x < |disk| then disk[x] else Zeros(512)
  }

  /** The contents of the given sectors, one after the other. */
  function Contents(disk: seq<Sector>, ds: seq<int>): (r: Bytes)
    ensures |r| == 512 * |ds|
  {
    if ds == [] then [] else Contents(disk, ds[..|ds| - 1]) + SectorOf(disk, ds[|ds| - 1])
  }

  /** The two disks agree on the given sectors. */
  ghost predicate AgreeOn(disk: seq<Sector>, disk': seq<Sector>, ds: seq<int>) {
    forall k :: 0 <= k < |ds| ==> SectorOf(disk', ds[k]) == SectorOf(disk, ds[k])
  }

  lemma {:induction false} ContentsSame(disk: seq<Sector>, disk': seq<Sector>, ds: seq<int>)
    requires AgreeOn(disk, disk', ds)
    ensures Contents(disk', ds) == Contents(disk, ds)
    decreases |ds|
  {
    if ds != [] { ContentsSame(disk, disk', ds[..|ds| - 1]); }
  }

  lemma {:induction false} ContentsConcat(disk: seq<Sector>, a: seq<int>, b: seq<int>)
    ensures Contents(disk, a + b) == Contents(disk, a) + Contents(disk, b)
    decreases |b|
  {
    hide SectorOf;
    if b == [] {
      assert a + b == a;
    } else {
      var n := |b| - 1;
      calc {
        Contents(disk, a + b);
        { assert (a + b)[..|a| + n] == a + b[..n] && (a + b)[|a| + n] == b[n]; }
        Contents(disk, a + b[..n]) + SectorOf(disk, b[n]);
        { ContentsConcat(disk, a, b[..n]); }
        Contents(disk, a) + Contents(disk, b[..n]) + SectorOf(disk, b[n]);
      }
    }
  }

  lemma ContentsAt(disk: seq<Sector>, ds: seq<int>, j: nat)
    requires j < |ds|
    ensures Contents(disk, ds)[512 * j..512 * j + 512] == SectorOf(disk, ds[j])
  {
    assert ds[..j + 1][..j] == ds[..j];
    assert ds[..j + 1] + ds[j + 1..] == ds;
    ContentsConcat(disk, ds[..j + 1], ds[j + 1..]);
  }

  // ---- Directory entries ------------------------------------------------------------------------

  const DELETED: Byte := 0xE5
  const ATTR_DIRECTORY: Byte := 0x10
  const ATTR_ARCHIVE: Byte := 0x20

  type Entry = e: Bytes | |e| == 32 witness Zeros(32)
  type PackedName = n: Bytes | |n| == 11 witness Zeros(11)

  function EntryAt(sec: Sector, i: nat): Entry
    requires i < 16
  {
    sec[32 * i..32 * i + 32]
  }

  function PutEntry(sec: Sector, i: nat, e: Entry): Sector
    requires i < 16
  {
    sec[..32 * i] + e + sec[32 * i + 32..]
  }

  lemma EntryAfterPut(sec: Sector, i: nat, e: Entry, j: nat)
    requires i < 16 && j < 16
    ensures EntryAt(PutEntry(sec, i, e), j) == if i == j then e else EntryAt(sec, j)
  {
    var r := PutEntry(sec, i, e);
    if i != j {
      assert forall b :: 32 * j <= b < 32 * j + 32 ==> r[b] == sec[b];
    }
  }

  /** The slots of a directory whose sectors are ds. */
  function Slots(disk: seq<Sector>, ds: seq<int>): (r: seq<Entry>)
    ensures |r| == 16 * |ds|
  {
    seq(16 * |ds|, k requires 0 <= k < 16 * |ds| => EntryAt(SectorOf(disk, ds[k / 16]), k % 16))
  }

  lemma SlotsAt(disk: seq<Sector>, ds: seq<int>, j: nat, i: nat)
    requires j < |ds| && i < 16
    ensures Slots(disk, ds)[16 * j + i] == EntryAt(SectorOf(disk, ds[j]), i)
  {
    assert (16 * j + i) / 16 == j && (16 * j + i) % 16 == i;
  }

  lemma SlotsSame(disk: seq<Sector>, disk': seq<Sector>, ds: seq<int>)
    requires AgreeOn(disk, disk', ds)
    ensures Slots(disk', ds) == Slots(disk, ds)
  {
    forall k | 0 <= k < 16 * |ds| ensures Slots(disk', ds)[k] == Slots(disk, ds)[k] {
      assert SectorOf(disk', ds[k / 16]) == SectorOf(disk, ds[k / 16]);
    }
  }

  lemma SlotsConcat(disk: seq<Sector>, a: seq<int>, b: seq<int>)
    ensures Slots(disk, a + b) == Slots(disk, a) + Slots(disk, b)
  {
    hide Slots, EntryAt;
    var l, r := Slots(disk, a + b), Slots(disk, a) + Slots(disk, b);
    forall k | 0 <= k < |l| ensures l[k] == r[k] {
      var j, i := k / 16, k % 16;
      SlotsAt(disk, a + b, j, i);
      if j < |a| { SlotsAt(disk, a, j, i); } else { SlotsAt(disk, b, j - |a|, i); }
    }
  }

  /** Rewriting one slot of a directory changes that slot and nothing else. */
  lemma SlotsAfterPut(disk: seq<Sector>, ds: seq<int>, k: nat, e: Entry)
    requires k < 16 * |ds| && NoDup(ds) && 0 <= ds[k / 16] < |disk|
    ensures var x := ds[k / 16];
            Slots(disk[x := PutEntry(disk[x], k % 16, e)], ds) == Slots(disk, ds)[k := e]
  {
    var x := ds[k / 16];
    var disk' := disk[x := PutEntry(disk[x], k % 16, e)];
    forall m | 0 <= m < 16 * |ds|
      ensures Slots(disk', ds)[m] == if m == k then e else Slots(disk, ds)[m]
    {
      if m / 16 == k / 16 {
        EntryAfterPut(disk[x], k % 16, e, m % 16);
        assert m == k <==> m % 16 == k % 16;
      } else {
        assert ds[m / 16] != x;
      }
    }
  }

  function Attr(e: Entry): int { e[11] as int }

  function First(e: Entry): nat { e[26] as int + 256 * e[27] as int }

  function Size(e: Entry): nat {
    e[28] as int + 256 * (e[29] as int + 256 * (e[30] as int + 256 * e[31] as int))
  }

  predicate Used(e: Entry) { e[0] != 0 && e[0] != DELETED }

  /** Entries that lookup considers: none of the READONLY, HIDDEN, SYSTEM, VOLUME_ID bits. */
  predicate Visible(e: Entry) { Used(e) && Attr(e) % 16 == 0 }

  predicate IsDirectory(e: Entry) { Attr(e) / 16 % 2 == 1 }

  predicate ModifyProtected(e: Entry) { Attr(e) / 64 % 2 == 1 }

  predicate DeleteProtected(e: Entry) { Attr(e) / 128 == 1 }

  function Le16(n: nat): (r: Bytes)
    requires n < 0x1_0000
    ensures |r| == 2
  {
    [(n % 256) as Byte, (n / 256) as Byte]
  }

  function Le32(n: nat): (r: Bytes)
    requires n < 0x1_0000_0000
    ensures |r| == 4
  {
    [(n % 256) as Byte, (n / 256 % 256) as Byte, (n / 65536 % 256) as Byte, (n / 16777216) as Byte]
  }

  /** The entry a new file or directory gets; `stamp` is the time and date of the clock. */
  function MakeEntry(name: PackedName, attr: Byte, stamp: Bytes, first: nat, size: nat): Entry
    requires |stamp| == 4 && first < 0x1_0000 && size < 0x1_0000_0000
  {
    name + [attr] + Zeros(10) + stamp + Le16(first) + Le32(size)
  }

  /** Writing the fields and reading them back is the identity. */
  lemma MakeEntryFields(name: PackedName, attr: Byte, stamp: Bytes, first: nat, size: nat)
    requires |stamp| == 4 && first < 0x1_0000 && size < 0x1_0000_0000
    ensures var e := MakeEntry(name, attr, stamp, first, size);
            NameOf(e) == name && Attr(e) == attr as int && First(e) == first && Size(e) == size
  {
    var e := MakeEntry(name, attr, stamp, first, size);
    assert NameOf(e) == name;
    assert e[26] == Le16(first)[0] && e[27] == Le16(first)[1];
    assert e[28] == Le32(size)[0] && e[29] == Le32(size)[1] && e[30] == Le32(size)[2] && e[31] == Le32(size)[3];
    Digits(size);
  }

  lemma Digits(n: nat)
    ensures n == n % 256 + 256 * (n / 256 % 256 + 256 * (n / 65536 % 256 + 256 * (n / 16777216)))
  {
    assert n / 256 / 256 == n / 65536;
    assert n / 65536 / 256 == n / 16777216;
  }

  function NameOf(e: Entry): PackedName { e[..11] }

  function Deleted(e: Entry): Entry { [DELETED] + e[1..] }

  function Renamed(e: Entry, name: PackedName): Entry { name + e[11..] }

  lemma RenamedFields(e: Entry, name: PackedName)
    ensures var r := Renamed(e, name);
            NameOf(r) == name && Attr(r) == Attr(e) && First(r) == First(e) && Size(r) == Size(e)
  {
    var r := Renamed(e, name);
    assert NameOf(r) == name;
    assert forall i :: 11 <= i < 32 ==> r[i] == e[i];
  }

  // ---- Names -----------------------------------------------------------------------------------

  const SPACE: Byte := 0x20
  const DOT: Byte := 0x2E

  function Upper(b: Byte): Byte { if 97 <= b <= 122 then b - 32 else b }

  function UpperAll(s: Bytes): (r: Bytes)
    ensures |r| == |s| && forall i :: 0 <= i < |s| ==> r[i] == Upper(s[i])
  {
    seq(|s|, i requires 0 <= i < |s| => Upper(s[i]))
  }

  predicate Lacks(s: Bytes, b: Byte) { forall i :: 0 <= i < |s| ==> s[i] != b }

  /** The part of s before the first b. */
  function Before(s: Bytes, b: Byte): (r: Bytes)
    ensures |r| <= |s| && r == s[..|r|] && Lacks(r, b)
    ensures |r| < |s| ==> s[|r|] == b
  {
    if s == [] || s[0] == b then [] else [s[0]] + Before(s[1..], b)
  }

  /** The printable form of an entry's 11-byte name: base, and a dot and extension if any. */
  function Clean(name: PackedName): Bytes {
    Before(name[..8], SPACE) + if name[8] != SPACE then [DOT] + Before(name[8..], SPACE) else []
  }

  /** What lookup compares: the C string, case folded. */
  function Key(name: PackedName): Bytes { UpperAll(Before(Clean(name), 0)) }

  function Pad(s: Bytes, n: nat): (r: Bytes)
    requires |s| <= n
    ensures |r| == n
  {
    s + seq(n - |s|, _ => SPACE)
  }

  function Take(s: Bytes, n: nat): Bytes { if |s| <= n then s else s[..n] }

  /** The part of a file name before its first dot, and the part after it. */
  function Stem(name: Bytes): Bytes { Before(name, DOT) }

  function Tail(name: Bytes): Bytes {
    if |Stem(name)| < |name| then name[|Stem(name)| + 1..] else []
  }

  /** format_83_name: the extension is dropped when the base has more than eight characters. */
  function Format83(name: Bytes): PackedName {
    var ext := if |Stem(name)| <= 8 then Take(Tail(name), 3) else [];
    Pad(Take(UpperAll(Stem(name)), 8), 8) + Pad(UpperAll(ext), 3)
  }

  /** A name of at most eight characters, or at most eight, a dot and one to three more. */
  predicate Is83(name: Bytes) {
    && |Stem(name)| <= 8 && |Tail(name)| <= 3 && Lacks(name, SPACE)
    && (|Stem(name)| < |name| ==> Tail(name) != [])
  }

  lemma {:induction false} BeforePad(s: Bytes, n: nat)
    requires |s| <= n
    ensures Before(Pad(s, n), SPACE) == Before(s, SPACE)
    decreases |s|
  {
    if s != [] && s[0] != SPACE {
      assert Pad(s, n)[1..] == Pad(s[1..], n - 1);
      BeforePad(s[1..], n - 1);
    }
  }

  lemma BeforeWhole(s: Bytes, b: Byte)
    ensures |Before(s, b)| == |s| <==> Lacks(s, b)
    ensures Lacks(s, b) ==> Before(s, b) == s
  {
    if Lacks(s, b) { assert |Before(s, b)| == |s|; }
  }

  lemma UpperLacks(s: Bytes, b: Byte)
    requires b == SPACE || b == 0
    ensures Lacks(UpperAll(s), b) <==> Lacks(s, b)
  {
    if Lacks(UpperAll(s), b) {
      forall i | 0 <= i < |s| ensures s[i] != b { assert UpperAll(s)[i] != b; }
    }
  }

  /** The two parts of a packed name, read back. */
  lemma CleanParts(name: Bytes)
    ensures var u, t := Take(UpperAll(Stem(name)), 8), if |Stem(name)| <= 8 then UpperAll(Take(Tail(name), 3)) else [];
            Clean(Format83(name)) ==
            Before(u, SPACE) + if t != [] && t[0] != SPACE then [DOT] + Before(t, SPACE) else []
  {
    var n := Format83(name);
    var u, t := Take(UpperAll(Stem(name)), 8), if |Stem(name)| <= 8 then UpperAll(Take(Tail(name), 3)) else [];
    assert n[..8] == Pad(u, 8) && n[8..] == Pad(t, 3);
    BeforePad(u, 8);
    BeforePad(t, 3);
    assert n[8] == Pad(t, 3)[0];
  }

  lemma CleanNoNul(name: Bytes)
    requires Lacks(name, 0)
    ensures Key(Format83(name)) == UpperAll(Clean(Format83(name)))
  {
    FormatNoNul(name);
    CleanLacksNul(Format83(name));
    BeforeWhole(Clean(Format83(name)), 0);
  }

  lemma CleanLacksNul(n: PackedName)
    requires Lacks(n, 0)
    ensures Lacks(Clean(n), 0)
  {
    hide Before;
    var x, y := Before(n[..8], SPACE), Before(n[8..], SPACE);
    forall i | 0 <= i < |x| ensures x[i] != 0 { assert x[i] == n[i]; }
    forall i | 0 <= i < |y| ensures y[i] != 0 { assert y[i] == n[8 + i]; }
  }

  lemma FormatNoNul(name: Bytes)
    requires Lacks(name, 0)
    ensures Lacks(Format83(name), 0)
  {
    UpperLacks(Stem(name), 0);
    UpperLacks(Take(Tail(name), 3), 0);
  }

  /** Packing a name and reading it back gives the name, case folded, exactly for 8.3 names. */
  lemma PackedNameIff(name: Bytes)
    requires Lacks(name, 0)
    ensures Key(Format83(name)) == UpperAll(name) <==> Is83(name)
  {
    CleanNoNul(name);
    if Is83(name) { PackedName83(name); }
    if Key(Format83(name)) == UpperAll(name) {
      assert |Clean(Format83(name))| == |name|;
      PackedNameFits(name);
    }
  }

  lemma SplitName(name: Bytes)
    ensures name == Stem(name) + if |Stem(name)| < |name| then [DOT] + Tail(name) else []
  {
  }

  lemma PackedName83(name: Bytes)
    requires Lacks(name, 0) && Is83(name)
    ensures UpperAll(Clean(Format83(name))) == UpperAll(name)
  {
    var b, e := Stem(name), Tail(name);
    Clean83(name);
    SplitName(name);
    FoldJoin(b, e, |b| < |name|);
  }

  lemma FoldJoin(b: Bytes, e: Bytes, dotted: bool)
    ensures UpperAll(UpperAll(b) + if dotted then [DOT] + UpperAll(e) else [])
         == UpperAll(b + if dotted then [DOT] + e else [])
  {
  }

  lemma Clean83(name: Bytes)
    requires Is83(name)
    ensures Clean(Format83(name)) ==
            UpperAll(Stem(name)) + if |Stem(name)| < |name| then [DOT] + UpperAll(Tail(name)) else []
  {
    var b, e := Stem(name), Tail(name);
    CleanParts(name);
    UpperLacks(b, SPACE);
    UpperLacks(e, SPACE);
    assert Lacks(b, SPACE) && Lacks(e, SPACE);
    BeforeWhole(UpperAll(b), SPACE);
    BeforeWhole(UpperAll(e), SPACE);
    if e != [] { assert UpperAll(e)[0] != SPACE; }
  }

  lemma PackedNameFits(name: Bytes)
    requires |Clean(Format83(name))| == |name|
    ensures Is83(name)
  {
    var b, e := Stem(name), Tail(name);
    SplitName(name);
    CleanParts(name);
    var u := Take(UpperAll(b), 8);
    assert |Before(u, SPACE)| == |b|;
    UpperLacks(b, SPACE);
    BeforeWhole(UpperAll(b), SPACE);
    UpperLacks(e, SPACE);
    BeforeWhole(UpperAll(e), SPACE);
  }

  /** A name that both fits an entry and does not read as a deleted one. */
  predicate GoodName(name: Bytes) {
    Lacks(name, 0) && Is83(name) && (name == [] || name[0] != DELETED)
  }

  lemma GoodNameUsed(name: Bytes)
    requires GoodName(name)
    ensures Key(Format83(name)) == UpperAll(name)
    ensures Format83(name)[0] != 0 && Format83(name)[0] != DELETED
  {
    PackedNameIff(name);
    FirstByte(name);
  }

  /** A file is found under the name it was written with: the entry made for it is visible and
      matches the name. */
  predicate FoundAs(name: Bytes, stamp: Bytes, first: nat, size: nat)
    requires |stamp| == 4 && first < 0x1_0000 && size < 0x1_0000_0000
  {
    var e := MakeEntry(Format83(name), ATTR_ARCHIVE, stamp, first, size);
    Visible(e) && Key(NameOf(e)) == UpperAll(name)
  }

  /** That holds if and only if the name is 8.3 and does not start with the deleted mark. */
  lemma FoundIff(name: Bytes, stamp: Bytes, first: nat, size: nat)
    requires Lacks(name, 0) && |stamp| == 4 && first < 0x1_0000 && size < 0x1_0000_0000
    ensures FoundAs(name, stamp, first, size) <==> GoodName(name)
  {
    hide Format83, Key, MakeEntry, Is83;
    var e := MakeEntry(Format83(name), ATTR_ARCHIVE, stamp, first, size);
    MakeEntryFields(Format83(name), ATTR_ARCHIVE, stamp, first, size);
    assert e[0] == NameOf(e)[0];
    PackedNameIff(name);
    FirstByte(name);
  }

  /** The first byte of a packed name reads as deleted exactly when the name starts with that byte. */
  lemma FirstByte(name: Bytes)
    requires Lacks(name, 0)
    ensures Format83(name)[0] != 0
    ensures Format83(name)[0] == DELETED <==> name != [] && name[0] == DELETED
  {
    hide Before;
    var b := Stem(name);
    if b != [] {
      assert b[0] == name[0];
      assert Format83(name)[0] == Upper(name[0]);
    }
  }

  /** A name that starts with the deleted mark packs and reads back, yet no lookup sees its entry. */
  lemma DeletedMarkIsLost()
    ensures exists name :: Lacks(name, 0) && Key(Format83(name)) == UpperAll(name) && !FoundAs(name, Zeros(4), 0, 0)
  {
    var name: Bytes := [DELETED];
    BeforeWhole(name, DOT);
    assert Lacks(name, DOT) && Lacks(name, SPACE) && Lacks(name, 0);
    assert Is83(name);
    PackedNameIff(name);
    FoundIff(name, Zeros(4), 0, 0);
  }

  /** A longer base loses its tail: such a file is stored under a name that lookup of the
      original name does not match. */
  lemma LongNameIsLost()
    ensures exists name :: Lacks(name, 0) && Key(Format83(name)) != UpperAll(name) && !FoundAs(name, Zeros(4), 0, 0)
  {
    var name: Bytes := seq(9, _ => 65);
    PackedNameIff(name);
    BeforeWhole(name, DOT);
    assert Lacks(name, DOT);
    FoundIff(name, Zeros(4), 0, 0);
  }
}
