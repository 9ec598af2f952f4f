/**
 Where the parts of a FAT32 volume lie on the disk: the log in the reserved
 sectors, the copies of the table, the clusters; and what writing sectors of one
 part does to the volume as a whole.
 */
module FatLayout {
  import opened Arith
  import opened Bytes
  import opened FatTable
  import opened FatDir
  import opened FatFiles
  import opened Journal

  /** The fields of a mounted volume; sectors are counted from the start of the disk. */
  datatype Geometry = Geometry(
    bps: nat, spc: nat, reserved: nat, numFats: nat, spf: nat, total: nat, root: nat, base: nat)

  function FatStart(g: Geometry): nat { g.base + g.reserved }

  function DataStart(g: Geometry): nat { FatStart(g) + g.numFats * g.spf }

  function DataSectors(g: Geometry): int { g.total - (DataStart(g) - g.base) }

  function MaxCluster(g: Geometry): nat
    requires g.spc > 0
  {
    if DataSectors(g) <= 0 || DataSectors(g) / g.spc == 0 then 0 else DataSectors(g) / g.spc + 1
  }

  function ClusterSize(g: Geometry): nat { g.spc * g.bps }

  /** The log takes the last two reserved sectors, when there are enough of them. */
  predicate HasLog(g: Geometry) { g.reserved >= 16 }

  function LogAt(g: Geometry): nat
    requires HasLog(g)
  {
    FatStart(g) - 2
  }

  predicate InLog(g: Geometry, lba: nat) { HasLog(g) && LogAt(g) <= lba < FatStart(g) }

  /** What the mount checks. */
  predicate Mountable(g: Geometry, cap: nat) {
    && g.bps > 0 && g.spc > 0 && g.spf > 0 && g.total > 0
    && g.base + g.total <= cap
    && DataStart(g) < g.base + g.total
  }

  /** A volume with a table, whose sectors hold whole directory slots and whose cluster numbers are no marks. */
  predicate Good(g: Geometry, cap: nat) {
    && Mountable(g, cap) && g.numFats > 0
    && g.bps % SLOT == 0 && g.bps < 0x1_0000
    && 2 <= MaxCluster(g) < Bad(Fat32)
    && cap < 0x1_0000_0000_0000_0000
  }

  /** The table has an entry for every cluster. */
  predicate Covers(g: Geometry)
    requires g.spc > 0
  {
    (MaxCluster(g) + 1) * 4 <= g.spf * g.bps
  }

  ghost predicate OnDisk(g: Geometry, d: Disk) { Good(g, |d|) && Whole(d, g.bps) }

  // ------------------------------------------------------- sectors put end to end

  ghost function Join(d: Disk, lba: nat, n: nat): Buf
    requires lba + n <= |d|
    decreases n
  {
    if n == 0 then [] else d[lba] + Join(d, lba + 1, n - 1)
  }

  lemma {:induction false} JoinLength(d: Disk, lba: nat, n: nat, bps: nat)
    requires lba + n <= |d| && Whole(d, bps)
    ensures |Join(d, lba, n)| == n * bps
    decreases n
  {
    if n > 0 {
      JoinLength(d, lba + 1, n - 1, bps);
      MulDistributes(n - 1, 1, bps);
    }
  }

  lemma {:induction false} JoinSame(d: Disk, d': Disk, lba: nat, n: nat)
    requires |d| == |d'| && lba + n <= |d|
    requires forall i :: lba <= i < lba + n ==> d'[i] == d[i]
    ensures Join(d', lba, n) == Join(d, lba, n)
    decreases n
  {
    if n > 0 { JoinSame(d, d', lba + 1, n - 1); }
  }

  /** Sector `s` of a run is a stretch of its bytes. */
  lemma {:induction false} JoinAt(d: Disk, lba: nat, n: nat, s: nat, bps: nat)
    requires lba + n <= |d| && s < n && Whole(d, bps)
    ensures s * bps + bps <= |Join(d, lba, n)|
    ensures Join(d, lba, n)[s * bps..s * bps + bps] == d[lba + s]
    decreases n
  {
    JoinLength(d, lba + 1, n - 1, bps);
    var rest := Join(d, lba + 1, n - 1);
    if s > 0 {
      JoinAt(d, lba + 1, n - 1, s - 1, bps);
      MulDistributes(s - 1, 1, bps);
      var lo := (s - 1) * bps;
      assert (d[lba] + rest)[lo + bps..lo + bps + bps] == rest[lo..lo + bps];
    } else {
      assert (d[lba] + rest)[0..bps] == d[lba];
    }
  }

  lemma {:induction false} JoinSplit(d: Disk, lba: nat, s: nat, m: nat)
    requires lba + s + m <= |d|
    ensures Join(d, lba, s + m) == Join(d, lba, s) + Join(d, lba + s, m)
    decreases s
  {
    if s > 0 {
      JoinSplit(d, lba + 1, s - 1, m);
      assert d[lba] + (Join(d, lba + 1, s - 1) + Join(d, lba + s, m))
          == (d[lba] + Join(d, lba + 1, s - 1)) + Join(d, lba + s, m);
    } else {
      assert [] + Join(d, lba, m) == Join(d, lba, m);
    }
  }

  lemma {:induction false} JoinAround(d: Disk, lba: nat, n: nat, s: nat)
    requires lba + n <= |d| && s < n
    ensures Join(d, lba, n) == Join(d, lba, s) + (d[lba + s] + Join(d, lba + s + 1, n - s - 1))
  {
    JoinSplit(d, lba, s, n - s);
  }

  lemma {:induction false} SpliceMiddle(a: Buf, b: Buf, c: Buf, x: Buf)
    requires |x| == |b|
    ensures Splice(a + (b + c), |a|, x) == a + (x + c)
  {
  }

  /** Writing sector `s` of a run replaces that stretch. */
  lemma {:induction false} JoinPut(d: Disk, lba: nat, n: nat, s: nat, x: Buf, bps: nat)
    requires lba + n <= |d| && s < n && Whole(d, bps) && |x| == bps
    ensures s * bps + bps <= |Join(d, lba, n)|
    ensures Join(d[lba + s := x], lba, n) == Splice(Join(d, lba, n), s * bps, x)
  {
    var d' := d[lba + s := x];
    JoinAround(d, lba, n, s);
    JoinAround(d', lba, n, s);
    JoinSame(d, d', lba, s);
    JoinSame(d, d', lba + s + 1, n - s - 1);
    JoinLength(d, lba, s, bps);
    SpliceMiddle(Join(d, lba, s), d[lba + s], Join(d, lba + s + 1, n - s - 1), x);
  }

  /** Sectors from `lba` on, the first `n` replaced by the pieces of `data`. */
  ghost function PutRun(d: Disk, lba: nat, data: Buf, n: nat, bps: nat): (r: Disk)
    requires n * bps <= |data| && lba + n <= |d|
    ensures |r| == |d|
    decreases n
  {
    if n == 0 then d
    else
      RunStep(n, bps);
      PutRun(d, lba, data, n - 1, bps)[lba + n - 1 := data[(n - 1) * bps..(n - 1) * bps + bps]]
  }

  lemma {:induction false} RunStep(n: nat, bps: nat)
    requires n > 0
    ensures (n - 1) * bps + bps == n * bps && (n - 1) * bps >= 0
  {
  }

  lemma {:induction false} RunBound(s: nat, n: nat, bps: nat)
    requires s <= n
    ensures s * bps <= n * bps
  {
    MulDistributes(n, s, bps);
    assert (n - s) * bps >= 0;
  }

  lemma {:induction false} PutRunWhole(d: Disk, lba: nat, data: Buf, n: nat, bps: nat)
    requires n * bps <= |data| && lba + n <= |d| && Whole(d, bps)
    ensures Whole(PutRun(d, lba, data, n, bps), bps)
    decreases n
  {
    if n > 0 {
      RunStep(n, bps);
      PutRunWhole(d, lba, data, n - 1, bps);
    }
  }

  lemma {:induction false} PutRunElsewhere(d: Disk, lba: nat, data: Buf, n: nat, bps: nat, i: nat)
    requires n * bps <= |data| && lba + n <= |d| && i < |d| && !(lba <= i < lba + n)
    ensures PutRun(d, lba, data, n, bps)[i] == d[i]
    decreases n
  {
    if n > 0 {
      RunStep(n, bps);
      PutRunElsewhere(d, lba, data, n - 1, bps, i);
    }
  }

  lemma {:induction false} JoinAppend(d: Disk, lba: nat, n: nat)
    requires lba + n < |d|
    ensures Join(d, lba, n + 1) == Join(d, lba, n) + d[lba + n]
    decreases n
  {
    if n > 0 {
      JoinAppend(d, lba + 1, n - 1);
      ConcatAssociates(d[lba], Join(d, lba + 1, n - 1), d[lba + n]);
    } else {
      assert d[lba] + [] == [] + d[lba];
    }
  }

  lemma {:induction false} ConcatAssociates(a: Buf, b: Buf, c: Buf)
    ensures a + (b + c) == (a + b) + c
  {
  }

  /** The run then reads as the data. */
  lemma {:induction false} JoinPutRun(d: Disk, lba: nat, data: Buf, n: nat, bps: nat)
    requires n * bps <= |data| && lba + n <= |d|
    ensures Join(PutRun(d, lba, data, n, bps), lba, n) == data[..n * bps]
    decreases n
  {
    if n > 0 {
      RunStep(n, bps);
      JoinPutRun(d, lba, data, n - 1, bps);
      var before, after := PutRun(d, lba, data, n - 1, bps), PutRun(d, lba, data, n, bps);
      JoinSame(before, after, lba, n - 1);
      JoinAppend(after, lba, n - 1);
      var lo := (n - 1) * bps;
      assert data[..lo] + data[lo..lo + bps] == data[..lo + bps];
    }
  }

  // ------------------------------------------------------------------ the volume

  function Lba(g: Geometry, c: nat): nat
    requires c >= 2
  {
    DataStart(g) + (c - 2) * g.spc
  }

  lemma {:induction false} LbaFits(g: Geometry, cap: nat, c: nat)
    requires Mountable(g, cap) && 2 <= c <= MaxCluster(g)
    ensures DataStart(g) <= Lba(g, c) && Lba(g, c) + g.spc <= g.base + g.total
  {
    var q := DataSectors(g) / g.spc;
    assert q * g.spc <= DataSectors(g);
    MulDistributes(c - 2, 1, g.spc);
    MulDistributes(q, c - 1, g.spc);
    assert (q - (c - 1)) * g.spc >= 0;
    assert (c - 2) * g.spc >= 0;
  }

  lemma {:induction false} LbaApart(g: Geometry, c: nat, e: nat)
    requires 2 <= c < e
    ensures Lba(g, c) + g.spc <= Lba(g, e)
  {
    MulDistributes(e - 2, c - 2, g.spc);
    MulAtLeast(e - c, g.spc);
  }

  lemma {:induction false} TableFits(g: Geometry)
    requires g.numFats > 0
    ensures FatStart(g) + g.spf <= DataStart(g)
  {
    MulAtLeast(g.numFats, g.spf);
  }

  ghost function Table(d: Disk, g: Geometry): Buf {
    if FatStart(g) + g.spf <= |d| then Join(d, FatStart(g), g.spf) else []
  }

  ghost function ClusterOf(d: Disk, g: Geometry, c: nat): Buf {
    if 2 <= c && Lba(g, c) + g.spc <= |d| then Join(d, Lba(g, c), g.spc) else []
  }

  /** The volume that the disk holds. */
  ghost function Vol(d: Disk, g: Geometry): (v: Volume)
    requires g.spc > 0
    ensures |v.clusters| == MaxCluster(g) + 1
    ensures forall c :: 0 <= c < |v.clusters| ==> v.clusters[c] == ClusterOf(d, g, c)
  {
    Volume(Entries(Table(d, g), Fat32), seq(MaxCluster(g) + 1, c requires c >= 0 => ClusterOf(d, g, c)))
  }

  lemma {:induction false} ClusterLength(d: Disk, g: Geometry, c: nat)
    requires OnDisk(g, d) && 2 <= c <= MaxCluster(g)
    ensures |ClusterOf(d, g, c)| == ClusterSize(g)
  {
    LbaFits(g, |d|, c);
    JoinLength(d, Lba(g, c), g.spc, g.bps);
  }

  lemma {:induction false} TableLength(d: Disk, g: Geometry)
    requires OnDisk(g, d)
    ensures FatStart(g) + g.spf <= |d| && |Table(d, g)| == g.spf * g.bps
  {
    TableFits(g);
    JoinLength(d, FatStart(g), g.spf, g.bps);
  }

  lemma {:induction false} SizePositive(g: Geometry, cap: nat)
    requires Mountable(g, cap)
    ensures ClusterSize(g) > 0
  {
    MulAtLeast(g.spc, g.bps);
  }

  /** The volume of a good disk is sound. */
  lemma {:induction false} VolSound(d: Disk, g: Geometry)
    requires OnDisk(g, d)
    ensures Sound(Vol(d, g), ClusterSize(g))
  {
    SizePositive(g, |d|);
    TableLength(d, g);
    var v := Vol(d, g);
    forall c | 2 <= c < |v.clusters|
      ensures |v.clusters[c]| == ClusterSize(g)
    {
      ClusterLength(d, g, c);
    }
  }

  // ------------------------------------------------------- writes and the volume

  /** The sectors that the volume is read from: the first table and the clusters. */
  ghost predicate Read(g: Geometry, i: nat) {
    FatStart(g) <= i < FatStart(g) + g.spf || DataStart(g) <= i
  }

  lemma {:induction false} VolSame(d: Disk, d': Disk, g: Geometry)
    requires OnDisk(g, d) && |d'| == |d|
    requires forall i: nat :: i < |d| && Read(g, i) ==> d'[i] == d[i]
    ensures Vol(d', g) == Vol(d, g)
  {
    TableLength(d, g);
    JoinSame(d, d', FatStart(g), g.spf);
    forall c: nat | c <= MaxCluster(g)
      ensures ClusterOf(d', g, c) == ClusterOf(d, g, c)
    {
      if c >= 2 {
        LbaFits(g, |d|, c);
        JoinSame(d, d', Lba(g, c), g.spc);
      }
    }
  }

  /** Equal outside the log. */
  ghost predicate OffLog(g: Geometry, d: Disk, d': Disk) {
    |d'| == |d| && forall i: nat :: i < |d| && !InLog(g, i) ==> d'[i] == d[i]
  }

  lemma {:induction false} OffLogSameVolume(g: Geometry, d: Disk, d': Disk)
    requires OnDisk(g, d) && OffLog(g, d, d')
    ensures Vol(d', g) == Vol(d, g)
  {
    VolSame(d, d', g);
  }

  lemma {:induction false} OtherClusterSame(d: Disk, d': Disk, g: Geometry, c: nat, e: nat)
    requires OnDisk(g, d) && |d'| == |d| && 2 <= c <= MaxCluster(g) && e <= MaxCluster(g) && e != c
    requires forall i: nat :: i < |d| && !(Lba(g, c) <= i < Lba(g, c) + g.spc) ==> d'[i] == d[i]
    ensures ClusterOf(d', g, e) == ClusterOf(d, g, e)
  {
    if e >= 2 {
      LbaFits(g, |d|, e);
      if c < e { LbaApart(g, c, e); } else { LbaApart(g, e, c); }
      JoinSame(d, d', Lba(g, e), g.spc);
    }
  }

  /** Changing sectors of one cluster changes only that cluster of the volume. */
  lemma {:induction false} VolOneCluster(d: Disk, d': Disk, g: Geometry, c: nat)
    requires OnDisk(g, d) && |d'| == |d| && 2 <= c <= MaxCluster(g)
    requires forall i: nat :: i < |d| && !(Lba(g, c) <= i < Lba(g, c) + g.spc) ==> d'[i] == d[i]
    ensures Vol(d', g) == WithCluster(Vol(d, g), c, ClusterOf(d', g, c))
  {
    LbaFits(g, |d|, c);
    TableLength(d, g);
    TableFits(g);
    JoinSame(d, d', FatStart(g), g.spf);
    forall e: nat | e <= MaxCluster(g) && e != c
      ensures ClusterOf(d', g, e) == ClusterOf(d, g, e)
    {
      OtherClusterSame(d, d', g, c, e);
    }
  }

  /** Writing all the sectors of a cluster sets its content. */
  lemma {:induction false} PutCluster(d: Disk, g: Geometry, c: nat, data: Buf)
    requires OnDisk(g, d) && 2 <= c <= MaxCluster(g) && |data| == ClusterSize(g)
    ensures Lba(g, c) + g.spc <= |d|
    ensures Vol(PutRun(d, Lba(g, c), data, g.spc, g.bps), g) == WithCluster(Vol(d, g), c, data)
  {
    LbaFits(g, |d|, c);
    var d' := PutRun(d, Lba(g, c), data, g.spc, g.bps);
    forall i: nat | i < |d| && !(Lba(g, c) <= i < Lba(g, c) + g.spc)
      ensures d'[i] == d[i]
    {
      PutRunElsewhere(d, Lba(g, c), data, g.spc, g.bps, i);
    }
    VolOneCluster(d, d', g, c);
    JoinPutRun(d, Lba(g, c), data, g.spc, g.bps);
    assert data[..|data|] == data;
  }

  /** Writing the first table sets the entries. */
  lemma {:induction false} PutFirstTable(d: Disk, g: Geometry, fat: Buf)
    requires OnDisk(g, d) && |fat| == g.spf * g.bps
    ensures FatStart(g) + g.spf <= |d|
    ensures Vol(PutRun(d, FatStart(g), fat, g.spf, g.bps), g) == Vol(d, g).(fat := Entries(fat, Fat32))
  {
    TableLength(d, g);
    TableFits(g);
    var d' := PutRun(d, FatStart(g), fat, g.spf, g.bps);
    JoinPutRun(d, FatStart(g), fat, g.spf, g.bps);
    assert fat[..|fat|] == fat;
    forall c: nat | c <= MaxCluster(g)
      ensures ClusterOf(d', g, c) == ClusterOf(d, g, c)
    {
      if c >= 2 { TableKeepsCluster(d, g, FatStart(g), fat, c); }
    }
  }

  lemma {:induction false} TableKeepsCluster(d: Disk, g: Geometry, at: nat, fat: Buf, c: nat)
    requires OnDisk(g, d) && |fat| == g.spf * g.bps && at + g.spf <= DataStart(g) && at + g.spf <= |d|
    requires 2 <= c <= MaxCluster(g)
    ensures ClusterOf(PutRun(d, at, fat, g.spf, g.bps), g, c) == ClusterOf(d, g, c)
  {
    LbaFits(g, |d|, c);
    var d' := PutRun(d, at, fat, g.spf, g.bps);
    forall i | Lba(g, c) <= i < Lba(g, c) + g.spc
      ensures d'[i] == d[i]
    {
      PutRunElsewhere(d, at, fat, g.spf, g.bps, i);
    }
    JoinSame(d, d', Lba(g, c), g.spc);
  }

  function TableAt(g: Geometry, k: nat): nat { FatStart(g) + k * g.spf }

  lemma {:induction false} TableAtFits(g: Geometry, k: nat)
    requires k < g.numFats
    ensures TableAt(g, k) + g.spf <= DataStart(g)
    ensures k > 0 ==> FatStart(g) + g.spf <= TableAt(g, k)
  {
    MulDistributes(g.numFats, k, g.spf);
    MulAtLeast(g.numFats - k, g.spf);
    if k > 0 { MulAtLeast(k, g.spf); }
  }

  /** The other copies of the table are never read. */
  lemma {:induction false} PutOtherTable(d: Disk, g: Geometry, k: nat, fat: Buf)
    requires OnDisk(g, d) && |fat| == g.spf * g.bps && 0 < k < g.numFats
    ensures TableAt(g, k) + g.spf <= |d|
    ensures Vol(PutRun(d, TableAt(g, k), fat, g.spf, g.bps), g) == Vol(d, g)
  {
    TableAtFits(g, k);
    var d' := PutRun(d, TableAt(g, k), fat, g.spf, g.bps);
    forall i: nat | i < |d| && Read(g, i)
      ensures d'[i] == d[i]
    {
      PutRunElsewhere(d, TableAt(g, k), fat, g.spf, g.bps, i);
    }
    VolSame(d, d', g);
  }

  // ------------------------------------------------------ a directory entry on disk

  /** A slot lies in one sector of the cluster. */
  lemma {:induction false} SlotAligned(off: nat, bps: nat)
    requires bps > 0 && bps % SLOT == 0 && off % SLOT == 0
    ensures Rem(off, bps) + SLOT <= bps
  {
    if off >= bps { SlotAligned(off - bps, bps); }
  }

  lemma {:induction false} SlotPlace(g: Geometry, off: nat)
    requires g.bps > 0 && g.bps % SLOT == 0 && off % SLOT == 0 && off + SLOT <= ClusterSize(g)
    ensures Quot(off, g.bps) < g.spc && Rem(off, g.bps) + SLOT <= g.bps
    ensures Quot(off, g.bps) * g.bps + Rem(off, g.bps) == off
  {
    QuotDivides(off, g.bps);
    MulLess(Quot(off, g.bps), g.spc, g.bps);
    SlotAligned(off, g.bps);
  }

  lemma {:induction false} SpliceInSplice(a: Buf, at: nat, off: nat, n: nat, x: Buf)
    requires at + n <= |a| && off + |x| <= n
    ensures Splice(a, at, Splice(a[at..at + n], off, x)) == Splice(a, at + off, x)
  {
    var m := a[at..at + n];
    assert a[..at] + m[..off] == a[..at + off];
    assert m[off + |x|..] + a[at + n..] == a[at + off + |x|..];
    assert a[..at] + (m[..off] + x + m[off + |x|..]) + a[at + n..]
        == (a[..at] + m[..off]) + x + (m[off + |x|..] + a[at + n..]);
  }

  /** A sector with the entry at `at` rewritten. */
  function PatchSector(sector: Buf, at: nat, first: nat, n: nat): (r: Buf)
    requires at + SLOT <= |sector| && first < 0x1_0000_0000 && n < 0x1_0000_0000
    ensures |r| == |sector|
  {
    Splice(sector, at, PatchSlot(sector[at..at + SLOT], first, n))
  }

  lemma {:induction false} SliceSlice(a: Buf, lo: nat, hi: nat, i: nat, j: nat)
    requires lo <= hi <= |a| && i <= j <= hi - lo
    ensures a[lo..hi][i..j] == a[lo + i..lo + j]
  {
    var m := a[lo..hi];
    assert forall k :: 0 <= k < j - i ==> m[i..j][k] == m[i + k] == a[lo + i + k];
  }

  lemma {:induction false} PatchRem(whole: Buf, lo: nat, at: nat, bps: nat, first: nat, n: nat, k: nat)
    requires lo + bps <= |whole| && at + SLOT <= bps && lo + at == k * SLOT
    requires first < 0x1_0000_0000 && n < 0x1_0000_0000
    ensures Splice(whole, lo, PatchSector(whole[lo..lo + bps], at, first, n)) == Patch(whole, k, first, n)
  {
    SliceSlice(whole, lo, lo + bps, at, at + SLOT);
    var slot := SlotAt(whole, k);
    assert whole[lo..lo + bps][at..at + SLOT] == slot;
    SpliceInSplice(whole, lo, at, bps, PatchSlot(slot, first, n));
  }

  /** The sector and the offset of an entry are in range. */
  lemma {:induction false} EntryPlace(d: Disk, g: Geometry, c: nat, off: nat)
    requires OnDisk(g, d) && 2 <= c <= MaxCluster(g)
    requires off % SLOT == 0 && off + SLOT <= ClusterSize(g)
    ensures Quot(off, g.bps) < g.spc && Lba(g, c) + g.spc <= |d|
    ensures Rem(off, g.bps) + SLOT <= g.bps && Quot(off, g.bps) * g.bps + Rem(off, g.bps) == off
    ensures FatStart(g) <= Lba(g, c)
  {
    LbaFits(g, |d|, c);
    TableFits(g);
    SlotPlace(g, off);
  }

  lemma {:induction false} JoinPatched(d: Disk, lba: nat, n: nat, s: nat, at: nat, k: nat, bps: nat, first: nat, size: nat)
    requires lba + n <= |d| && s < n && Whole(d, bps) && at + SLOT <= bps && s * bps + at == k * SLOT
    requires first < 0x1_0000_0000 && size < 0x1_0000_0000
    ensures (k + 1) * SLOT <= |Join(d, lba, n)|
    ensures Join(d[lba + s := PatchSector(d[lba + s], at, first, size)], lba, n)
            == Patch(Join(d, lba, n), k, first, size)
  {
    var sector := PatchSector(d[lba + s], at, first, size);
    JoinAt(d, lba, n, s, bps);
    JoinPut(d, lba, n, s, sector, bps);
    PatchRem(Join(d, lba, n), s * bps, at, bps, first, size, k);
  }

  lemma {:induction false} VolOneSector(d: Disk, g: Geometry, c: nat, lba: nat, sector: Buf)
    requires OnDisk(g, d) && 2 <= c <= MaxCluster(g) && Lba(g, c) <= lba < Lba(g, c) + g.spc && lba < |d|
    ensures Vol(d[lba := sector], g) == WithCluster(Vol(d, g), c, ClusterOf(d[lba := sector], g, c))
  {
    VolOneCluster(d, d[lba := sector], g, c);
  }

  lemma {:induction false} ClusterPatched(d: Disk, g: Geometry, c: nat, off: nat, first: nat, n: nat, s: nat, at: nat)
    requires OnDisk(g, d) && 2 <= c && Lba(g, c) + g.spc <= |d| && s < g.spc
    requires off % SLOT == 0 && s * g.bps + at == off && at + SLOT <= g.bps
    requires first < 0x1_0000_0000 && n < 0x1_0000_0000
    ensures off + SLOT <= |ClusterOf(d, g, c)|
    ensures ClusterOf(d[Lba(g, c) + s := PatchSector(d[Lba(g, c) + s], at, first, n)], g, c)
            == Patch(ClusterOf(d, g, c), off / SLOT, first, n)
  {
    JoinPatched(d, Lba(g, c), g.spc, s, at, off / SLOT, g.bps, first, n);
  }

  /** Rewriting the entry in its sector rewrites it in the cluster. */
  lemma {:induction false} PutPatched(d: Disk, g: Geometry, c: nat, off: nat, first: nat, n: nat, s: nat, at: nat)
    requires OnDisk(g, d) && 2 <= c <= MaxCluster(g) && Lba(g, c) + g.spc <= |d| && s < g.spc
    requires off % SLOT == 0 && s * g.bps + at == off && at + SLOT <= g.bps
    requires first < 0x1_0000_0000 && n < 0x1_0000_0000
    ensures off + SLOT <= |ClusterOf(d, g, c)|
    ensures Vol(d[Lba(g, c) + s := PatchSector(d[Lba(g, c) + s], at, first, n)], g)
            == WithCluster(Vol(d, g), c, Patch(ClusterOf(d, g, c), off / SLOT, first, n))
  {
    ClusterPatched(d, g, c, off, first, n, s, at);
    var lba := Lba(g, c) + s;
    VolOneSector(d, g, c, lba, PatchSector(d[lba], at, first, n));
  }
}
