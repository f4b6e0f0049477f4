/** How the FAT is stored: 256 little-endian words a sector, in several copies. */
module FatImage {
  import opened FatTypes
  import opened FatSpec

  function Word(sec: Sector, j: nat): nat
    requires j < 256
  {
    sec[2 * j] as int + 256 * sec[2 * j + 1] as int
  }

  /** Sector s of a FAT copy. */
  function FatSector(fat: seq<nat>, s: nat): Sector
    requires 256 * s + 256 <= |fat| && forall c :: 0 <= c < |fat| ==> fat[c] <= 0xFFFF
  {
    seq(512, b requires 0 <= b < 512 =>
      if b % 2 == 0 then (fat[256 * s + b / 2] % 256) as Byte else (fat[256 * s + b / 2] / 256) as Byte)
  }

  lemma SectorBytes(fat: seq<nat>, s: nat, j: nat)
    requires 256 * s + 256 <= |fat| && j < 256
    requires forall c :: 0 <= c < |fat| ==> fat[c] <= 0xFFFF
    ensures FatSector(fat, s)[2 * j] == (fat[256 * s + j] % 256) as Byte
    ensures FatSector(fat, s)[2 * j + 1] == (fat[256 * s + j] / 256) as Byte
  {
  }

  lemma WordOfSector(fat: seq<nat>, s: nat, j: nat)
    requires 256 * s + 256 <= |fat| && j < 256
    requires forall c :: 0 <= c < |fat| ==> fat[c] <= 0xFFFF
    ensures Word(FatSector(fat, s), j) == fat[256 * s + j]
  {
  }

  /** The FAT that a mount reads from the first copy. */
  function LoadFat(g: Geometry, disk: seq<Sector>): (r: seq<nat>)
    ensures |r| == Total(g)
  {
    seq(Total(g), i requires 0 <= i < Total(g) => Word(SectorOf(disk, g.reserved + i / 256), i % 256))
  }

  lemma WordRead(g: Geometry, disk: seq<Sector>, s: nat, i: nat)
    requires i < 256 && 256 * s + i < Total(g) && g.reserved + s < |disk|
    ensures LoadFat(g, disk)[256 * s + i] == Word(disk[g.reserved + s], i)
  {
    hide Word;
    assert (256 * s + i) / 256 == s && (256 * s + i) % 256 == i;
  }

  /** The first copy on the disk is the FAT in memory: a remount changes nothing. */
  ghost predicate Synced(g: Geometry, v: Vol) { LoadFat(g, v.disk) == v.fat }

  /** Sector s of FAT copy f. */
  function CopyLba(g: Geometry, f: nat, s: nat): nat { g.reserved + f * g.fatSize + s }

  /** The sectors of copy f lie below the root directory. */
  lemma CopyBelowRoot(g: Geometry, f: nat, s: nat)
    requires f < g.numFats && s < g.fatSize
    ensures CopyLba(g, f, s) < RootLba(g)
    ensures CopyLba(g, 0, s) == g.reserved + s
  {
    MulSplit(f, g.numFats - f, g.fatSize);
    MulAtLeast(g.numFats - f, g.fatSize);
  }

  lemma MulSplit(a: nat, b: nat, k: nat)
    ensures (a + b) * k == a * k + b * k
  {
  }

  lemma CopiesDistinct(g: Geometry, f: nat, s: nat, e: nat, t: nat)
    requires s < g.fatSize && t < g.fatSize
    requires CopyLba(g, f, s) == CopyLba(g, e, t)
    ensures f == e && s == t
  {
    if f < e { MulSplit(f, e - f, g.fatSize); MulAtLeast(e - f, g.fatSize); }
    if e < f { MulSplit(e, f - e, g.fatSize); MulAtLeast(f - e, g.fatSize); }
  }

  /** Changes to directories and data do not reach the FATs. */
  lemma SyncedFrame(g: Geometry, fat: seq<nat>, disk: seq<Sector>, disk': seq<Sector>)
    requires GeoOk(g) && Synced(g, Vol(fat, disk)) && |disk'| == |disk|
    requires forall x :: 0 <= x < |disk| && x < RootLba(g) ==> disk'[x] == disk[x]
    ensures Synced(g, Vol(fat, disk'))
  {
    forall i | 0 <= i < Total(g) ensures LoadFat(g, disk')[i] == LoadFat(g, disk)[i] {
      CopyBelowRoot(g, 0, i / 256);
    }
  }

  ghost predicate CopyOk(g: Geometry, fat: seq<nat>, disk: seq<Sector>, f: nat, s: nat)
    requires |fat| == Total(g) && GeoOk(g) && s < g.fatSize
    requires forall c :: 0 <= c < |fat| ==> fat[c] <= 0xFFFF
  {
    SectorOf(disk, CopyLba(g, f, s)) == FatSector(fat, s)
  }

  /** Writing one sector of one copy. */
  lemma CopyPut(g: Geometry, v: Vol, f: nat, s: nat)
    requires SizesOk(g, v) && f < g.numFats && s < g.fatSize && CopyLba(g, f, s) < RootLba(g)
    ensures var disk' := v.disk[CopyLba(g, f, s) := FatSector(v.fat, s)];
            && AgreeOff(g, v.disk, disk', []) && CopyOk(g, v.fat, disk', f, s)
            && forall e, t :: 0 <= e < g.numFats && 0 <= t < g.fatSize && (e != f || t != s) ==>
                 (CopyOk(g, v.fat, v.disk, e, t) ==> CopyOk(g, v.fat, disk', e, t))
  {
    hide FatSector;
    var disk' := v.disk[CopyLba(g, f, s) := FatSector(v.fat, s)];
    forall e, t | 0 <= e < g.numFats && 0 <= t < g.fatSize && (e != f || t != s) && CopyOk(g, v.fat, v.disk, e, t)
      ensures CopyOk(g, v.fat, disk', e, t)
    {
      if CopyLba(g, f, s) == CopyLba(g, e, t) { CopiesDistinct(g, f, s, e, t); }
      hide CopyLba;
    }
  }

  /** The first n sectors of every copy are written. */
  ghost predicate CopiesOk(g: Geometry, v: Vol, n: nat)
    requires SizesOk(g, v) && n <= g.fatSize
  {
    forall f, s :: 0 <= f < g.numFats && 0 <= s < n ==> CopyOk(g, v.fat, v.disk, f, s)
  }

  /** Writing the FAT and reading it back is the identity. */
  lemma FlushedIsSynced(g: Geometry, v: Vol)
    requires SizesOk(g, v)
    requires forall s :: 0 <= s < g.fatSize ==> CopyOk(g, v.fat, v.disk, 0, s)
    ensures Synced(g, v)
  {
    forall i | 0 <= i < Total(g) ensures LoadFat(g, v.disk)[i] == v.fat[i] {
      hide SizesOk, CopyOk;
      LoadedWord(g, v, i);
    }
  }

  lemma LoadedWord(g: Geometry, v: Vol, i: nat)
    requires SizesOk(g, v) && i < Total(g) && CopyOk(g, v.fat, v.disk, 0, i / 256)
    ensures LoadFat(g, v.disk)[i] == v.fat[i]
  {
    WordOfSector(v.fat, i / 256, i % 256);
    hide FatSector, Word;
    CopyBelowRoot(g, 0, i / 256);
  }
}
