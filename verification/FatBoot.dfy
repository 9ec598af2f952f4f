/** The boot sector: what a volume is, where its parts are, and how many clusters it has. */
module FatBoot {
  import opened Options
  import opened Bytes
  import opened FatTable
  import opened FatLayout

  datatype Bpb = Bpb(t: FatType, bps: nat, spc: nat, reserved: nat, numFats: nat, rootEntries: nat,
                     total: nat, spf: nat, root: nat, base: nat)

  function RootDirSectors(bps: nat, rootEntries: nat): nat {
    if bps == 0 || rootEntries == 0 then 0 else (rootEntries * 32 + bps - 1) / bps
  }

  function DetectType(total: nat, reserved: nat, numFats: nat, spf: nat, rootSectors: nat, spc: nat): Option<FatType> {
    if spc == 0 then None
    else
      var data := total - reserved - numFats * spf - rootSectors;
      if data <= 0 || data / spc < 4085 then None
      else if data / spc < 65525 then Some(Fat16)
      else Some(Fat32)
  }

  function Parse(d: Buf, base: nat): Option<Bpb> {
    if |d| < 90 then None
    else
      var bps, spc, reserved, numFats := Read16(d, 11), d[13] as nat, Read16(d, 14), d[16] as nat;
      var rootEntries, total16, spf16 := Read16(d, 17), Read16(d, 19), Read16(d, 22);
      var total := if total16 != 0 then total16 else Read32(d, 32);
      var spf := if spf16 != 0 then spf16 else Read32(d, 36);
      if bps == 0 || spc == 0 || spf == 0 || total == 0 then None
      else
        var t := DetectType(total, reserved, numFats, spf, RootDirSectors(bps, rootEntries), spc);
        if t.None? then None
        else if t.value.Fat32? && (rootEntries != 0 || spf16 != 0 || Read32(d, 44) < 2) then None
        else Some(Bpb(t.value, bps, spc, reserved, numFats, rootEntries, total, spf, Read32(d, 44), base))
  }

  function RootStart(b: Bpb): nat { b.base + b.reserved + b.numFats * b.spf }

  function FirstData(b: Bpb): nat { RootStart(b) + RootDirSectors(b.bps, b.rootEntries) }

  /** The largest cluster number, as both file systems compute it when they need it. */
  function LastCluster(b: Bpb): nat
    requires b.spc > 0
  {
    var data := b.total - (FirstData(b) - b.base);
    if data <= 0 || data / b.spc == 0 then 0 else data / b.spc + 1
  }

  /** A FAT16 volume never has a cluster number that could be a mark, and a FAT32 volume has more. */
  lemma {:induction false} ParsedClusterCount(d: Buf, base: nat)
    requires Parse(d, base).Some?
    ensures var b := Parse(d, base).value;
            && (b.t.Fat16? ==> 4086 <= LastCluster(b) < Bad(Fat16))
            && (b.t.Fat32? ==> 65526 <= LastCluster(b))
  {
    var b := Parse(d, base).value;
    assert FirstData(b) - b.base == b.reserved + b.numFats * b.spf + RootDirSectors(b.bps, b.rootEntries);
  }

  function GeometryOf(b: Bpb): Geometry {
    Geometry(b.bps, b.spc, b.reserved, b.numFats, b.spf, b.total, b.root, b.base)
  }

  /** The test of the mount, beside what the parse has checked. */
  predicate Validated(b: Bpb, sectorSize: nat, cap: nat) {
    && b.bps > 0 && b.spc > 0 && b.spf > 0 && sectorSize == b.bps
    && b.total > 0 && b.base + b.total <= cap
    && b.base <= b.base + b.reserved && b.base + b.reserved + b.spf * b.numFats <= b.base + b.total
    && b.base <= FirstData(b) < b.base + b.total
  }

  /** A FAT32 volume that parses and fits the disk is mountable, and has its clusters where the layout says. */
  lemma {:induction false} ParsedIsMountable(d: Buf, base: nat, sectorSize: nat, cap: nat)
    requires Parse(d, base).Some? && Parse(d, base).value.t.Fat32? && Validated(Parse(d, base).value, sectorSize, cap)
    ensures var b := Parse(d, base).value;
            && Mountable(GeometryOf(b), cap) && b.root >= 2
            && MaxCluster(GeometryOf(b)) == LastCluster(b) >= 2
            && b.bps < 0x1_0000
  {
    ParsedClusterCount(d, base);
    var b := Parse(d, base).value;
    assert b.rootEntries == 0;
    assert FirstData(b) == DataStart(GeometryOf(b));
  }

  /** What a mounted volume must also have for its files to be modelled: none of it is tested by the mount. */
  predicate Regular(b: Bpb, cap: nat)
    requires b.spc > 0
  {
    b.numFats > 0 && b.bps % 32 == 0 && LastCluster(b) < Bad(Fat32) && cap < 0x1_0000_0000_0000_0000
  }

  /**
   A volume that parses and is mounted has the geometry of the file operations exactly when it is regular, and
   its table an entry for every cluster exactly when the table's sectors are enough.
   */
  lemma {:induction false} GoodIff(d: Buf, base: nat, sectorSize: nat, cap: nat)
    requires Parse(d, base).Some? && Parse(d, base).value.t.Fat32? && Validated(Parse(d, base).value, sectorSize, cap)
    ensures Good(GeometryOf(Parse(d, base).value), cap) <==> Regular(Parse(d, base).value, cap)
    ensures Covers(GeometryOf(Parse(d, base).value)) <==>
      (LastCluster(Parse(d, base).value) + 1) * 4 <= Parse(d, base).value.spf * Parse(d, base).value.bps
  {
    ParsedIsMountable(d, base, sectorSize, cap);
  }

  // ------------------------------------------------------------ a short table

  const SHORT: Bpb := Bpb(Fat32, 512, 1, 32, 2, 0, 100000, 1, 2, 0)

  /** A boot sector with one table sector for a hundred thousand clusters. */
  function ShortSector(): (d: Buf)
    ensures |d| == 512
  {
    Zeros(11) + [0x00, 0x02, 0x01, 0x20, 0x00, 0x02] + Zeros(15) + [0xA0, 0x86, 0x01, 0x00, 0x01, 0x00, 0x00, 0x00]
    + Zeros(4) + [0x02, 0x00, 0x00, 0x00] + Zeros(464)
  }

  lemma {:induction false} ShortReads()
    ensures var d := ShortSector();
      && Read16(d, 11) == 512 && d[13] == 1 && Read16(d, 14) == 32 && d[16] == 2
      && Read16(d, 17) == 0 && Read16(d, 19) == 0 && Read16(d, 22) == 0
      && Read32(d, 32) == 100000 && Read32(d, 36) == 1 && Read32(d, 44) == 2
  {
    var d := ShortSector();
    assert d[11..13] == [0x00, 0x02] && d[14..16] == [0x20, 0x00];
    assert d[17..19] == [0, 0] && d[19..21] == [0, 0] && d[22..24] == [0, 0];
    assert d[32..36] == [0xA0, 0x86, 0x01, 0x00] && d[36..40] == [0x01, 0x00, 0x00, 0x00];
    assert d[44..48] == [0x02, 0x00, 0x00, 0x00];
  }

  /** It parses and passes the mount's tests, and its table does not cover its clusters. */
  lemma {:induction false} ShortTableMounts()
    ensures Parse(ShortSector(), 0) == Some(SHORT) && Validated(SHORT, 512, 100000)
    ensures Good(GeometryOf(SHORT), 100000) && !Covers(GeometryOf(SHORT))
  {
    ShortReads();
    GoodIff(ShortSector(), 0, 512, 100000);
  }
}
