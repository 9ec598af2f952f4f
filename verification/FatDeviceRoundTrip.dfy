/** The round trip on the block device: what a write and the mounts and reads after it return. */
module FatDeviceRoundTrip {
  import opened Options
  import opened Bytes
  import opened FatTable
  import opened FatFiles
  import opened FatLayout
  import opened FatDevice
  import opened FatFileOps
  import opened FatWriteOps
  import opened FatRoundTrip
  import opened Journal

  /** The volume that a mount of the disk finds. */
  ghost function MountedVol(g: Geometry, d: Disk): Volume
    requires OnDisk(g, d)
  {
    Vol(Mounted(g, d), g)
  }

  /** The path, if it leads to a file, keeps the file's clusters and its directories apart. */
  ghost predicate Apart(v: Volume, root: nat, path: seq<Buf>) {
    var f := Resolve(v, root, path);
    f.Some? ==> Separate(v, f.value, root, path)
  }

  /** With a table that covers the volume, what a read after a write gives is cut by the number of clusters alone. */
  lemma {:induction false} CoveredBack(g: Geometry, d: Disk, path: seq<Buf>, data: Buf)
    requires OnDisk(g, d) && Covers(g) && Resolve(Vol(d, g), g.root, path).Some?
    ensures ClusterSize(g) > 0
    ensures Back(Vol(d, g), g.root, path, data, ClusterSize(g)) == data[..Min(|data|, GUARD * ClusterSize(g))]
  {
    VolSound(d, g);
    TableLength(d, g);
    CoveredIsTabled(Vol(d, g), Resolve(Vol(d, g), g.root, path).value.entry.first);
  }

  /**
   A write that succeeds, fast or through the log, and the next read of the path: the read mounts
   the disk anew and returns the data, whole exactly when it fits in the clusters one read visits
   and the table has an entry to hang new clusters on, as it always has when it covers the volume.
   */
  method WriteThenRead(block: BlockDevice, g: Geometry, path: seq<Buf>, data: Buf, safe: bool)
    returns (ok: bool, r: Option<Buf>)
    requires Ready(block, g) && |data| < 0x1_0000_0000
    requires Apart(MountedVol(g, block.sectors), g.root, path)
    modifies block`sectors
    ensures Clean(block, g) && ClusterSize(g) > 0
    ensures ok ==> r == Some(Back(MountedVol(g, old(block.sectors)), g.root, path, data, ClusterSize(g)))
    ensures ok ==> (r == Some(data) <==> FitsWhole(MountedVol(g, old(block.sectors)), g.root, path, data, ClusterSize(g)))
    ensures ok && Covers(g) ==> r == Some(data[..Min(|data|, GUARD * ClusterSize(g))])
  {
    ghost var v := MountedVol(g, block.sectors);
    VolSound(Mounted(g, block.sectors), g);
    ok := WriteFileData(block, g, path, data, safe);
    MountClears(g, block.sectors);
    r := ReadFileData(block, g, path);
    if ok {
      WrittenFileReadsBack(v, g.root, path, data, ClusterSize(g));
      ReadsBackWholeIff(v, g.root, path, data, ClusterSize(g));
      if Covers(g) { CoveredBack(g, old(Mounted(g, block.sectors)), path, data); }
    }
  }

  /** The other path leads to another entry, through directories and clusters that the write leaves alone. */
  ghost predicate Elsewhere(v: Volume, root: nat, path: seq<Buf>, other: seq<Buf>, size: nat) {
    var f, x := Resolve(v, root, path), Resolve(v, root, other);
    f.Some? ==>
      var ch := OldChain(v, f.value.entry.first);
      && SafePath(v, ch, root, other)
      && (x.Some? ==>
            && (x.value.cluster, x.value.offset) != (f.value.cluster, f.value.offset)
            && SafeFile(v, ch, f.value.cluster, x.value.entry.first, x.value.entry.size, size, 0))
  }

  /** What another path reads is the same before a write and after it, whether the write succeeds or is refused. */
  method ReadAroundWrite(block: BlockDevice, g: Geometry, path: seq<Buf>, data: Buf, safe: bool, other: seq<Buf>)
    returns (before: Option<Buf>, ok: bool, after: Option<Buf>)
    requires Ready(block, g) && |data| < 0x1_0000_0000
    requires Apart(MountedVol(g, block.sectors), g.root, path)
    requires Elsewhere(MountedVol(g, block.sectors), g.root, path, other, ClusterSize(g))
    modifies block`sectors
    ensures Clean(block, g)
    ensures before == after == ReadFile(MountedVol(g, old(block.sectors)), g.root, other, ClusterSize(g))
  {
    ghost var v := MountedVol(g, block.sectors);
    before := ReadFileData(block, g, other);
    MountClears(g, block.sectors);
    ok := WriteFileData(block, g, path, data, safe);
    MountClears(g, block.sectors);
    after := ReadFileData(block, g, other);
    if ok { OtherFilesKept(v, g.root, path, data, ClusterSize(g), other); }
  }

  /** The volume after a write, or as it was when the write is refused. */
  ghost function After(v: Volume, root: nat, path: seq<Buf>, data: Buf, size: nat): Volume
    requires Sound(v, size) && |data| < 0x1_0000_0000
  {
    var w := WriteFile(v, root, path, data, size);
    if w.Some? then w.value else v
  }

  /** A second write of the same path: the file then reads as the last data written. */
  method LastWriteWins(block: BlockDevice, g: Geometry, path: seq<Buf>, first: Buf, second: Buf, safe: bool)
    returns (ok: bool, r: Option<Buf>)
    requires Ready(block, g) && |first| < 0x1_0000_0000 && |second| < 0x1_0000_0000
    requires Apart(MountedVol(g, block.sectors), g.root, path)
    modifies block`sectors
    ensures Clean(block, g) && Sound(MountedVol(g, old(block.sectors)), ClusterSize(g))
    ensures ok ==> r == Some(Back(After(MountedVol(g, old(block.sectors)), g.root, path, first, ClusterSize(g)),
                                  g.root, path, second, ClusterSize(g)))
    ensures ok && Covers(g) ==> r == Some(second[..Min(|second|, GUARD * ClusterSize(g))])
  {
    ghost var v := MountedVol(g, block.sectors);
    VolSound(Mounted(g, block.sectors), g);
    var written := WriteFileData(block, g, path, first, safe);
    ok, r := false, None;
    if written {
      MountClears(g, block.sectors);
      SeparateKept(v, g.root, path, first, ClusterSize(g));
      ok, r := WriteThenRead(block, g, path, second, safe);
    }
  }
}
