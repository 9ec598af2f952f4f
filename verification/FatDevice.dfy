/**
 The FAT32 code on the block device: sector by sector, through the log when the
 write is to be safe, proved against the volume of FatFiles.
 */
module FatDevice {
  import opened Arith
  import opened Options
  import opened Bytes
  import opened FatTable
  import opened FatDir
  import opened FatFiles
  import opened FatLayout
  import opened Journal

  /** A device of whole sectors; an access outside it fails. */
  class BlockDevice {
    var sectors: Disk
    const size: nat

    constructor (size: nat, sectors: Disk)
      requires Whole(sectors, size)
      ensures Valid() && this.size == size && this.sectors == sectors
    {
      this.size, this.sectors := size, sectors;
    }

    ghost predicate Valid()
      reads this
    {
      Whole(sectors, size)
    }

    method ReadSector(lba: nat) returns (r: Option<Buf>)
      ensures r == if lba < |sectors| then Some(sectors[lba]) else None
    {
      r := if lba < |sectors| then Some(sectors[lba]) else None;
    }

    method WriteSector(lba: nat, data: Buf) returns (ok: bool)
      requires Valid()
      modifies this`sectors
      ensures Valid() && |sectors| == |old(sectors)|
      ensures ok <==> lba < |sectors| && |data| >= size
      ensures sectors == if ok then old(sectors)[lba := data[..size]] else old(sectors)
    {
      if lba >= |sectors| || |data| < size { return false; }
      sectors := sectors[lba := data[..size]];
      return true;
    }
  }

  // ------------------------------------------------------------------ the log

  function LogOf(g: Geometry): Log
    requires HasLog(g)
  {
    Log(Fat32, LogAt(g), g.bps)
  }

  lemma {:induction false} LogFits(g: Geometry, d: Disk)
    requires OnDisk(g, d) && HasLog(g)
    ensures Fits(LogOf(g), d) && LogAt(g) + 2 == FatStart(g) < |d|
  {
  }

  /** No write is waiting in the log, so that a mount changes nothing. */
  ghost predicate LogClear(g: Geometry, d: Disk) {
    HasLog(g) && LogAt(g) < |d| ==> !Prepared(LogOf(g), d[LogAt(g)])
  }

  ghost predicate Ready(block: BlockDevice, g: Geometry)
    reads block
  {
    block.Valid() && block.size == g.bps && OnDisk(g, block.sectors)
  }

  ghost predicate Clean(block: BlockDevice, g: Geometry)
    reads block
  {
    Ready(block, g) && LogClear(g, block.sectors)
  }

  /** A write of one sector through the log. */
  method LogWrite(block: BlockDevice, l: Log, target: nat, data: Buf) returns (ok: bool)
    requires block.Valid() && block.size == l.bps && Fits(l, block.sectors) && |data| == l.bps
    requires target < 0x1_0000_0000_0000_0000 && |block.sectors| < 0x1_0000_0000_0000_0000
    modifies block`sectors
    ensures block.Valid() && |block.sectors| == |old(block.sectors)|
    ensures ok <==> target < |block.sectors|
    ensures ok ==> block.sectors == Stage(l, old(block.sectors), target, data, 4)
    ensures !ok ==> SameFiles(l, old(block.sectors), block.sectors)
  {
    ok := block.WriteSector(l.at, Header(l, target));
    ok := block.WriteSector(l.at + 1, data);
    assert data[..l.bps] == data;
    ok := block.WriteSector(target, data);
    if !ok { return false; }
    var cleared := block.WriteSector(l.at, Zeros(l.bps));
    assert Zeros(l.bps)[..l.bps] == Zeros(l.bps) && Header(l, target)[..l.bps] == Header(l, target);
  }

  /** What the mount finds on the disk, once a prepared write is finished. */
  ghost function Mounted(g: Geometry, d: Disk): (r: Disk)
    requires OnDisk(g, d)
    ensures |r| == |d| && OnDisk(g, r)
  {
    if HasLog(g) then Replay(LogOf(g), d) else d
  }

  /** A mount leaves the log clear, and a disk with a clear log as it is. */
  lemma {:induction false} MountClears(g: Geometry, d: Disk)
    requires OnDisk(g, d)
    ensures LogClear(g, Mounted(g, d)) && (LogClear(g, d) ==> Mounted(g, d) == d)
  {
    if HasLog(g) {
      LogFits(g, d);
      ClearIsNotPrepared(LogOf(g));
    }
  }

  method ReplayLog(block: BlockDevice, g: Geometry)
    requires Ready(block, g)
    modifies block`sectors
    ensures Clean(block, g) && block.sectors == Mounted(g, old(block.sectors))
  {
    MountClears(g, block.sectors);
    if !HasLog(g) { return; }
    var l := LogOf(g);
    var header := block.ReadSector(l.at);
    if !Prepared(l, header.value) { return; }
    var data := block.ReadSector(l.at + 1);
    assert data.value[..g.bps] == data.value && Zeros(g.bps)[..g.bps] == Zeros(g.bps);
    var ok := block.WriteSector(Target(header.value), data.value);
    ok := block.WriteSector(l.at, Zeros(l.bps));
  }

  /** A sector written safely or at once: the same outside the log. */
  method PutSector(block: BlockDevice, g: Geometry, lba: nat, data: Buf, safe: bool) returns (ok: bool)
    requires Clean(block, g) && FatStart(g) <= lba < |block.sectors| && |data| == g.bps
    modifies block`sectors
    ensures Clean(block, g) && |block.sectors| == |old(block.sectors)|
    ensures ok <==> safe ==> HasLog(g)
    ensures OffLog(g, if ok then old(block.sectors)[lba := data] else old(block.sectors), block.sectors)
  {
    if !safe {
      ok := block.WriteSector(lba, data);
      assert data[..g.bps] == data;
    } else if HasLog(g) {
      LogFits(g, block.sectors);
      StagesDone(LogOf(g), block.sectors, lba, data);
      ClearIsNotPrepared(LogOf(g));
      ok := LogWrite(block, LogOf(g), lba, data);
    } else {
      ok := false;
    }
  }

  /** A run of sectors. */
  method PutSectors(block: BlockDevice, g: Geometry, lba: nat, data: Buf, n: nat, safe: bool) returns (ok: bool)
    requires Clean(block, g)
    requires FatStart(g) <= lba && lba + n <= |block.sectors| && n > 0 && n * g.bps <= |data|
    modifies block`sectors
    ensures Clean(block, g) && |block.sectors| == |old(block.sectors)|
    ensures ok <==> safe ==> HasLog(g)
    ensures OffLog(g, if ok then PutRun(old(block.sectors), lba, data, n, g.bps) else old(block.sectors), block.sectors)
  {
    var s := 0;
    while s < n
      invariant 0 <= s <= n && s * g.bps <= |data|
      invariant s > 0 ==> (safe ==> HasLog(g))
      invariant Clean(block, g) && |block.sectors| == |old(block.sectors)|
      invariant OffLog(g, PutRun(old(block.sectors), lba, data, s, g.bps), block.sectors)
    {
      RunStep(s + 1, g.bps);
      RunBound(s + 1, n, g.bps);
      ok := PutSector(block, g, lba + s, data[s * g.bps..s * g.bps + g.bps], safe);
      if !ok { return false; }
      s := s + 1;
    }
    return true;
  }

  // ------------------------------------------------------- tables and clusters

  method ReadSectors(block: BlockDevice, lba: nat, n: nat) returns (out: Buf)
    requires lba + n <= |block.sectors|
    ensures out == Join(block.sectors, lba, n)
  {
    out := [];
    var s := 0;
    while s < n
      invariant 0 <= s <= n && out == Join(block.sectors, lba, s)
    {
      JoinAppend(block.sectors, lba, s);
      var part := block.ReadSector(lba + s);
      out := out + part.value;
      s := s + 1;
    }
  }

  /** The first copy of the table. */
  method ReadTable(block: BlockDevice, g: Geometry) returns (fat: Buf)
    requires Ready(block, g)
    ensures |fat| == g.spf * g.bps && Entries(fat, Fat32) == Vol(block.sectors, g).fat
  {
    TableLength(block.sectors, g);
    fat := ReadSectors(block, FatStart(g), g.spf);
  }

  method ReadCluster(block: BlockDevice, g: Geometry, c: nat) returns (r: Option<Buf>)
    requires Ready(block, g)
    ensures r == if Has(Vol(block.sectors, g), c) then Some(Vol(block.sectors, g).clusters[c]) else None
  {
    if c < 2 || c > MaxCluster(g) { return None; }
    LbaFits(g, |block.sectors|, c);
    var out := ReadSectors(block, Lba(g, c), g.spc);
    return Some(out);
  }

  method WriteCluster(block: BlockDevice, g: Geometry, c: nat, data: Buf, safe: bool) returns (ok: bool)
    requires Clean(block, g)
    modifies block`sectors
    ensures Clean(block, g)
    ensures ok <==> Has(Vol(old(block.sectors), g), c) && |data| >= ClusterSize(g) && (safe ==> HasLog(g))
    ensures Vol(block.sectors, g) ==
            if ok then WithCluster(Vol(old(block.sectors), g), c, data[..ClusterSize(g)]) else Vol(old(block.sectors), g)
  {
    if c < 2 || c > MaxCluster(g) || |data| < ClusterSize(g) { return false; }
    ghost var d := block.sectors;
    LbaFits(g, |d|, c);
    var content := data[..ClusterSize(g)];
    ok := PutSectors(block, g, Lba(g, c), content, g.spc, safe);
    PutCluster(d, g, c, content);
    PutRunWhole(d, Lba(g, c), content, g.spc, g.bps);
    ghost var aimed := if ok then PutRun(d, Lba(g, c), content, g.spc, g.bps) else d;
    OffLogSameVolume(g, aimed, block.sectors);
  }

  /** One copy of the table. */
  method WriteTable(block: BlockDevice, g: Geometry, k: nat, fat: Buf, safe: bool) returns (ok: bool)
    requires Clean(block, g) && |fat| == g.spf * g.bps && k < g.numFats
    modifies block`sectors
    ensures Clean(block, g)
    ensures ok <==> safe ==> HasLog(g)
    ensures Vol(block.sectors, g) ==
            if ok && k == 0 then Vol(old(block.sectors), g).(fat := Entries(fat, Fat32)) else Vol(old(block.sectors), g)
  {
    ghost var d := block.sectors;
    TableAtFits(g, k);
    ok := PutSectors(block, g, TableAt(g, k), fat, g.spf, safe);
    if k == 0 { PutFirstTable(d, g, fat); } else { PutOtherTable(d, g, k, fat); }
    PutRunWhole(d, TableAt(g, k), fat, g.spf, g.bps);
    ghost var aimed := if ok then PutRun(d, TableAt(g, k), fat, g.spf, g.bps) else d;
    OffLogSameVolume(g, aimed, block.sectors);
  }

  method WriteTables(block: BlockDevice, g: Geometry, fat: Buf, safe: bool) returns (ok: bool)
    requires Clean(block, g) && |fat| == g.spf * g.bps
    modifies block`sectors
    ensures Clean(block, g)
    ensures ok <==> safe ==> HasLog(g)
    ensures Vol(block.sectors, g) ==
            if ok then Vol(old(block.sectors), g).(fat := Entries(fat, Fat32)) else Vol(old(block.sectors), g)
  {
    var k := 0;
    while k < g.numFats
      invariant 0 <= k <= g.numFats && Clean(block, g)
      invariant k > 0 ==> (safe ==> HasLog(g))
      invariant Vol(block.sectors, g) ==
                if k > 0 then Vol(old(block.sectors), g).(fat := Entries(fat, Fat32)) else Vol(old(block.sectors), g)
    {
      ok := WriteTable(block, g, k, fat, safe);
      if !ok { return false; }
      k := k + 1;
    }
    return true;
  }

  function EntryLba(g: Geometry, at: Found): nat
    requires g.bps > 0 && at.cluster >= 2
  {
    Lba(g, at.cluster) + Quot(at.offset, g.bps)
  }

  function EntryOff(g: Geometry, at: Found): nat
    requires g.bps > 0
  {
    Rem(at.offset, g.bps)
  }

  /** The sector that holds an entry, and the entry's place in it, are in range. */
  lemma {:induction false} EntryFits(d: Disk, g: Geometry, at: Found)
    requires OnDisk(g, d) && Placed(Vol(d, g), at)
    ensures FatStart(g) <= EntryLba(g, at) < |d| && EntryOff(g, at) + SLOT <= g.bps
  {
    ClusterLength(d, g, at.cluster);
    EntryPlace(d, g, at.cluster, at.offset);
  }

  lemma {:induction false} EntryUpdated(d: Disk, g: Geometry, at: Found, first: nat, n: nat)
    requires OnDisk(g, d) && Placed(Vol(d, g), at) && first < 0x1_0000_0000 && n < 0x1_0000_0000
    requires EntryLba(g, at) < |d| && EntryOff(g, at) + SLOT <= g.bps
    ensures var lba := EntryLba(g, at);
            Vol(d[lba := PatchSector(d[lba], EntryOff(g, at), first, n)], g) == PatchEntry(Vol(d, g), at, first, n)
  {
    ClusterLength(d, g, at.cluster);
    EntryPlace(d, g, at.cluster, at.offset);
    PutPatched(d, g, at.cluster, at.offset, first, n, Quot(at.offset, g.bps), Rem(at.offset, g.bps));
  }

  method PatchOnDisk(block: BlockDevice, g: Geometry, lba: nat, off: nat, first: nat, n: nat, safe: bool) returns (ok: bool)
    requires Clean(block, g) && FatStart(g) <= lba < |block.sectors| && off + SLOT <= g.bps
    requires first < 0x1_0000_0000 && n < 0x1_0000_0000
    modifies block`sectors
    ensures Clean(block, g)
    ensures ok <==> safe ==> HasLog(g)
    ensures var d := old(block.sectors);
            Vol(block.sectors, g) ==
            if ok then Vol(d[lba := PatchSector(d[lba], off, first, n)], g) else Vol(d, g)
  {
    ghost var d := block.sectors;
    var sector := block.ReadSector(lba);
    var patched := PatchSector(sector.value, off, first, n);
    ok := PutSector(block, g, lba, patched, safe);
    OffLogSameVolume(g, if ok then d[lba := patched] else d, block.sectors);
  }

  method UpdateDirEntry(block: BlockDevice, g: Geometry, at: Found, first: nat, n: nat, safe: bool) returns (ok: bool)
    requires Clean(block, g) && Placed(Vol(block.sectors, g), at)
    requires first < 0x1_0000_0000 && n < 0x1_0000_0000
    modifies block`sectors
    ensures Clean(block, g)
    ensures ok <==> safe ==> HasLog(g)
    ensures Vol(block.sectors, g) ==
            if ok then PatchEntry(Vol(old(block.sectors), g), at, first, n) else Vol(old(block.sectors), g)
  {
    EntryFits(block.sectors, g, at);
    EntryUpdated(block.sectors, g, at, first, n);
    ok := PatchOnDisk(block, g, EntryLba(g, at), EntryOff(g, at), first, n, safe);
  }
}
