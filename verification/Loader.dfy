/** The boot loader's reader of FAT16 files: any stretch of a file, with one sector of the table cached. */
module Loader {
  import opened Options
  import opened Arith
  import opened Bytes
  import opened Journal

  const SECTOR: nat := 512
  const CLUSTERS: nat := 0x1_0000  // cluster numbers are 16 bits wide

  datatype Volume = Volume(spc: nat, fatStart: nat, dataStart: nat)

  predicate Ends(c: nat) { c < 2 || c >= 0xFFF8 }

  function Lba(v: Volume, c: nat): nat
    requires c >= 2
  {
    v.dataStart + Span(c - 2, v.spc)
  }

  function ClusterSize(v: Volume): nat { v.spc * SECTOR }

  /** The entry of a cluster, read from the disk; an end mark where the disk cannot be read. */
  function NextOf(d: Disk, v: Volume, c: nat): (n: nat)
    ensures n < CLUSTERS
  {
    var lba := v.fatStart + Quot(c * 2, SECTOR);
    if lba < |d| then Read16(d[lba], Rem(c * 2, SECTOR)) else 0xFFFF
  }

  /** The whole table as the disk holds it. */
  ghost function Links(d: Disk, v: Volume): (t: seq<nat>)
    ensures |t| == CLUSTERS
    ensures forall c :: 0 <= c < |t| ==> t[c] == NextOf(d, v, c)
  {
    seq(CLUSTERS, c requires c >= 0 => NextOf(d, v, c))
  }

  function Link(t: seq<nat>, c: nat): nat { if c < |t| then t[c] else 0xFFFF }

  // ------------------------------------------------------------- what is read

  /** The cluster `k` links after `c`, unless the chain ends before. */
  ghost function Skip(t: seq<nat>, c: nat, k: nat): Option<nat>
    decreases k
  {
    if k == 0 then Some(c)
    else if Ends(Link(t, c)) then None
    else Skip(t, Link(t, c), k - 1)
  }

  function SectorOf(d: Disk, lba: nat): Buf { if lba < |d| then d[lba] else Zeros(SECTOR) }

  /** Sectors from `s` on of the cluster at `lba`, from offset `so` in the first, `len` bytes of them at most. */
  function InCluster(d: Disk, lba: nat, spc: nat, s: nat, so: nat, len: nat): Option<Buf>
    requires so <= SECTOR && Whole(d, SECTOR)
    decreases spc - s
  {
    if s >= spc || len == 0 then Some([])
    else if lba + s >= |d| then None
    else
      var n := Min(len, SECTOR - so);
      var rest := InCluster(d, lba, spc, s + 1, 0, len - n);
      if rest.None? then None else Some(d[lba + s][so..so + n] + rest.value)
  }

  function Min(a: nat, b: nat): nat { if a < b then a else b }

  /** `len` bytes from offset `off` of cluster `c` on, through as many clusters as it takes. */
  ghost function ReadFrom(d: Disk, t: seq<nat>, v: Volume, c: nat, off: nat, len: nat): Option<Buf>
    requires Whole(d, SECTOR) && v.spc > 0 && off < ClusterSize(v)
    decreases len
  {
    if len == 0 then Some([])
    else if Ends(c) then None
    else
      var n := Min(len, ClusterSize(v) - off);
      var here := InCluster(d, Lba(v, c), v.spc, Quot(off, SECTOR), Rem(off, SECTOR), n);
      var rest := ReadFrom(d, t, v, Link(t, c), 0, len - n);
      if here.None? || rest.None? then None else Some(here.value + rest.value)
  }

  /** The sum of offset and length is 32 bits wide. */
  ghost function ReadAt(d: Disk, t: seq<nat>, v: Volume, first: nat, size: nat, offset: nat, len: nat): Option<Buf>
    requires Whole(d, SECTOR) && v.spc > 0
  {
    if len == 0 then Some([])
    else if offset > size || (offset + len) % 0x1_0000_0000 > size then None
    else
      var c := Skip(t, first, Quot(offset, ClusterSize(v)));
      if c.None? then None else ReadFrom(d, t, v, c.value, Rem(offset, ClusterSize(v)), len)
  }

  // ------------------------------------------------------------------ the reader

  class Reader {
    const disk: Disk
    var cachedLba: int
    var cachedSector: Buf

    ghost predicate Valid()
      reads this
    {
      && Whole(disk, SECTOR)
      && (cachedLba >= 0 ==> cachedLba < |disk| && cachedSector == disk[cachedLba])
    }

    constructor (disk: Disk)
      requires Whole(disk, SECTOR)
      ensures Valid() && this.disk == disk
    {
      this.disk, cachedLba, cachedSector := disk, -1, Zeros(SECTOR);
    }

    /** The next cluster, with the sector of the table kept for the next time: always what the disk says. */
    method NextCluster(v: Volume, c: nat) returns (n: nat)
      requires Valid()
      modifies this`cachedLba, this`cachedSector
      ensures Valid() && n == NextOf(disk, v, c) < CLUSTERS
    {
      var lba, off := v.fatStart + Quot(c * 2, SECTOR), Rem(c * 2, SECTOR);
      if lba != cachedLba {
        if lba >= |disk| { return 0xFFFF; }
        cachedSector := disk[lba];
        cachedLba := lba;
      }
      return Read16(cachedSector, off);
    }

    method SkipClusters(v: Volume, first: nat, k: nat) returns (c: Option<nat>)
      requires Valid() && first < CLUSTERS
      modifies this`cachedLba, this`cachedSector
      ensures Valid() && c == Skip(Links(disk, v), first, k) && (c.Some? ==> c.value < CLUSTERS)
    {
      var cluster: nat, i := first, 0;
      while i < k
        invariant 0 <= i <= k && Valid() && cluster < CLUSTERS
        invariant Skip(Links(disk, v), first, k) == Skip(Links(disk, v), cluster, k - i)
      {
        cluster := NextCluster(v, cluster);
        if Ends(cluster) { return None; }
        i := i + 1;
      }
      return Some(cluster);
    }

    /** Copy out of one cluster, sector by sector. */
    method CopyCluster(lba: nat, spc: nat, s0: nat, so0: nat, len: nat) returns (r: Option<Buf>)
      requires Valid() && so0 <= SECTOR
      ensures r == InCluster(disk, lba, spc, s0, so0, len)
    {
      var s: nat, so: nat, remaining: nat, out: Buf := s0, so0, len, [];
      ghost var all := InCluster(disk, lba, spc, s0, so0, len);
      OntoNothing(all);
      while s < spc && remaining > 0
        invariant so <= SECTOR && 0 <= remaining
        invariant all == Onto(out, InCluster(disk, lba, spc, s, so, remaining))
        decreases spc - s
      {
        if lba + s >= |disk| { return None; }
        var n := Min(remaining, SECTOR - so);
        OntoOnto(out, disk[lba + s][so..so + n], InCluster(disk, lba, spc, s + 1, 0, remaining - n));
        out := out + disk[lba + s][so..so + n];
        s, so, remaining := s + 1, 0, remaining - n;
      }
      assert out + [] == out;
      return Some(out);
    }

    /** Copy from a cluster and those after it. */
    method CopyChain(v: Volume, c: nat, off: nat, len: nat) returns (r: Option<Buf>)
      requires Valid() && v.spc > 0 && off < ClusterSize(v) && c < CLUSTERS
      modifies this`cachedLba, this`cachedSector
      ensures Valid() && r == ReadFrom(disk, Links(disk, v), v, c, off, len)
    {
      var cluster: nat, o: nat, remaining: nat, out: Buf := c, off, len, [];
      ghost var all := ReadFrom(disk, Links(disk, v), v, c, off, len);
      OntoNothing(all);
      while remaining > 0
        invariant 0 <= remaining && o < ClusterSize(v) && Valid() && cluster < CLUSTERS
        invariant all == Onto(out, ReadFrom(disk, Links(disk, v), v, cluster, o, remaining))
        decreases remaining
      {
        if Ends(cluster) { return None; }
        var n := Min(remaining, ClusterSize(v) - o);
        var here := CopyCluster(Lba(v, cluster), v.spc, Quot(o, SECTOR), Rem(o, SECTOR), n);
        if here.None? { return None; }
        OntoOnto(out, here.value, ReadFrom(disk, Links(disk, v), v, Link(Links(disk, v), cluster), 0, remaining - n));
        out := out + here.value;
        o, remaining := 0, remaining - n;
        if remaining > 0 { cluster := NextCluster(v, cluster); }
      }
      assert out + [] == out;
      return Some(out);
    }

    method ReadFileAt(v: Volume, first: nat, size: nat, offset: nat, len: nat) returns (r: Option<Buf>)
      requires Valid() && v.spc > 0 && first < CLUSTERS
      modifies this`cachedLba, this`cachedSector
      ensures Valid() && r == ReadAt(disk, Links(disk, v), v, first, size, offset, len)
    {
      if len == 0 { return Some([]); }
      if offset > size { return None; }
      if (offset + len) % 0x1_0000_0000 > size { return None; }
      var skip, rest := Quot(offset, ClusterSize(v)), Rem(offset, ClusterSize(v));
      var c := SkipClusters(v, first, skip);
      if c.None? { return None; }
      r := CopyChain(v, c.value, rest, len);
    }
  }

  // ------------------------------------------------------------- the file's bytes

  ghost function Sectors(d: Disk, lba: nat, n: nat): Buf
    decreases n
  {
    if n == 0 then [] else SectorOf(d, lba) + Sectors(d, lba + 1, n - 1)
  }

  ghost function ClusterBytes(d: Disk, v: Volume, c: nat): Buf
    requires c >= 2
  {
    Sectors(d, Lba(v, c), v.spc)
  }

  /** The first `n` clusters of the chain from `c` on, end to end. */
  ghost function Content(d: Disk, t: seq<nat>, v: Volume, c: nat, n: nat): Buf
    decreases n
  {
    if n == 0 || Ends(c) then [] else ClusterBytes(d, v, c) + Content(d, t, v, Link(t, c), n - 1)
  }

  lemma {:induction false} SectorsLength(d: Disk, lba: nat, n: nat)
    requires Whole(d, SECTOR)
    ensures |Sectors(d, lba, n)| == n * SECTOR
    decreases n
  {
    if n > 0 { SectorsLength(d, lba + 1, n - 1); }
  }

  lemma {:induction false} SectorsDrop(d: Disk, lba: nat, n: nat, s: nat)
    requires Whole(d, SECTOR) && s <= n
    ensures |Sectors(d, lba, n)| == n * SECTOR && Sectors(d, lba, n)[s * SECTOR..] == Sectors(d, lba + s, n - s)
    decreases s
  {
    SectorsLength(d, lba, n);
    if s > 0 {
      SectorsDrop(d, lba + 1, n - 1, s - 1);
      var head, rest := SectorOf(d, lba), Sectors(d, lba + 1, n - 1);
      var k := (s - 1) * SECTOR;
      assert (head + rest)[SECTOR + k..] == rest[k..];
    }
  }

  lemma {:induction false} SliceAcross(a: Buf, b: Buf, so: nat, len: nat)
    requires so <= |a| <= so + len <= |a| + |b|
    ensures (a + b)[so..so + len] == a[so..] + b[..so + len - |a|]
  {
  }

  /** A stretch that starts in a first piece, from that piece's part and the part after it. */
  lemma {:induction false} Stretch(head: Buf, tail: Buf, off: nat, len: nat, n: nat, rest: Buf)
    requires off <= |head| && n == Min(len, |head| - off)
    requires len - n <= |tail| && rest == tail[..len - n]
    ensures off + len <= |head + tail| && head[off..off + n] + rest == (head + tail)[off..off + len]
  {
    if n == len {
      assert rest == [] && (head + tail)[off..off + len] == head[off..off + n];
    } else {
      SliceAcross(head, tail, off, len);
    }
  }

  lemma {:induction false} InClusterParts(d: Disk, lba: nat, spc: nat, s: nat, so: nat, len: nat)
    requires Whole(d, SECTOR) && s < spc && so <= SECTOR && len > 0 && InCluster(d, lba, spc, s, so, len).Some?
    ensures var n := Min(len, SECTOR - so);
            && lba + s < |d| && |d[lba + s]| == SECTOR && InCluster(d, lba, spc, s + 1, 0, len - n).Some?
            && InCluster(d, lba, spc, s, so, len).value
               == d[lba + s][so..so + n] + InCluster(d, lba, spc, s + 1, 0, len - n).value
  {
  }

  /** What is copied out of one cluster is a stretch of its sectors. */
  lemma {:induction false} InClusterIsSlice(d: Disk, lba: nat, spc: nat, s: nat, so: nat, len: nat)
    requires Whole(d, SECTOR) && s <= spc && so <= SECTOR && so + len <= (spc - s) * SECTOR
    requires InCluster(d, lba, spc, s, so, len).Some?
    ensures so + len <= |Sectors(d, lba + s, spc - s)|
    ensures InCluster(d, lba, spc, s, so, len).value == Sectors(d, lba + s, spc - s)[so..so + len]
    decreases spc - s
  {
    SectorsLength(d, lba + s, spc - s);
    if len > 0 {
      var n := Min(len, SECTOR - so);
      InClusterParts(d, lba, spc, s, so, len);
      InClusterIsSlice(d, lba, spc, s + 1, 0, len - n);
      var tail := Sectors(d, lba + s + 1, spc - s - 1);
      Stretch(d[lba + s], tail, so, len, n, tail[..len - n]);
    }
  }

  lemma {:induction false} OffsetSplits(v: Volume, off: nat, len: nat)
    requires v.spc > 0 && off < ClusterSize(v) && off + len <= ClusterSize(v)
    ensures var s := Quot(off, SECTOR); s < v.spc && s * SECTOR + Rem(off, SECTOR) == off && Rem(off, SECTOR) + len <= (v.spc - s) * SECTOR
  {
    QuotDivides(off, SECTOR);
  }

  lemma {:induction false} SliceOfDrop(all: Buf, rest: Buf, j: nat, off: nat, len: nat)
    requires j <= |all| && all[j..] == rest && off + len <= |rest|
    ensures j + off + len <= |all| && rest[off..off + len] == all[j + off..j + off + len]
  {
  }

  lemma {:induction false} ClusterSlice(d: Disk, v: Volume, c: nat, off: nat, len: nat)
    requires Whole(d, SECTOR) && v.spc > 0 && c >= 2 && 0 < len && off + len <= ClusterSize(v)
    requires InCluster(d, Lba(v, c), v.spc, Quot(off, SECTOR), Rem(off, SECTOR), len).Some?
    ensures |ClusterBytes(d, v, c)| == ClusterSize(v)
    ensures InCluster(d, Lba(v, c), v.spc, Quot(off, SECTOR), Rem(off, SECTOR), len).value == ClusterBytes(d, v, c)[off..off + len]
  {
    OffsetSplits(v, off, len);
    SectorsLength(d, Lba(v, c), v.spc);
    var s, so, all := Quot(off, SECTOR), Rem(off, SECTOR), ClusterBytes(d, v, c);
    InClusterIsSlice(d, Lba(v, c), v.spc, s, so, len);
    SectorsDrop(d, Lba(v, c), v.spc, s);
    SliceOfDrop(all, Sectors(d, Lba(v, c) + s, v.spc - s), s * SECTOR, so, len);
  }

  /** How many clusters a read of `len` bytes at offset `off` goes through. */
  ghost function Needed(off: nat, len: nat, size: nat): nat
    requires off < size
    decreases len
  {
    if len == 0 then 0 else if off + len <= size then 1 else 1 + Needed(0, len - (size - off), size)
  }

  lemma {:induction false} ContentStep(d: Disk, t: seq<nat>, v: Volume, c: nat, n: nat)
    requires n > 0 && !Ends(c)
    ensures Content(d, t, v, c, n) == ClusterBytes(d, v, c) + Content(d, t, v, Link(t, c), n - 1)
  {
  }

  lemma {:induction false} ReadFromParts(d: Disk, t: seq<nat>, v: Volume, c: nat, off: nat, len: nat)
    requires Whole(d, SECTOR) && v.spc > 0 && off < ClusterSize(v) && 0 < len
    requires ReadFrom(d, t, v, c, off, len).Some?
    ensures var n := Min(len, ClusterSize(v) - off);
            && !Ends(c) && off + n <= ClusterSize(v)
            && InCluster(d, Lba(v, c), v.spc, Quot(off, SECTOR), Rem(off, SECTOR), n).Some?
            && ReadFrom(d, t, v, Link(t, c), 0, len - n).Some?
            && ReadFrom(d, t, v, c, off, len).value
               == InCluster(d, Lba(v, c), v.spc, Quot(off, SECTOR), Rem(off, SECTOR), n).value
                  + ReadFrom(d, t, v, Link(t, c), 0, len - n).value
  {
  }

  /** The first cluster's part of a read. */
  lemma {:induction false} FirstPart(d: Disk, t: seq<nat>, v: Volume, c: nat, off: nat, len: nat)
    requires Whole(d, SECTOR) && v.spc > 0 && off < ClusterSize(v) && 0 < len
    requires ReadFrom(d, t, v, c, off, len).Some?
    ensures var n, next := Min(len, ClusterSize(v) - off), Link(t, c);
            && !Ends(c) && |ClusterBytes(d, v, c)| == ClusterSize(v)
            && ReadFrom(d, t, v, next, 0, len - n).Some?
            && ReadFrom(d, t, v, c, off, len).value == ClusterBytes(d, v, c)[off..off + n] + ReadFrom(d, t, v, next, 0, len - n).value
  {
    ReadFromParts(d, t, v, c, off, len);
    ClusterSlice(d, v, c, off, Min(len, ClusterSize(v) - off));
  }

  /** The rest of a read, and its clusters, once the first cluster is done with. */
  lemma {:induction false} NeededStep(off: nat, len: nat, size: nat)
    requires off < size && 0 < len
    ensures var n := Min(len, size - off);
            n > 0 && Needed(off, len, size) == 1 + Needed(0, len - n, size)
  {
    if off + len <= size { assert Needed(0, 0, size) == 0; }
  }

  /** A read that begins in cluster `c`, from the cluster's bytes and those read after it. */
  lemma {:induction false} OneMore(d: Disk, t: seq<nat>, v: Volume, c: nat, off: nat, len: nat, n: nat, tail: Buf, rest: Buf)
    requires Whole(d, SECTOR) && v.spc > 0 && off < ClusterSize(v) && 0 < len && n == Min(len, ClusterSize(v) - off)
    requires ReadFrom(d, t, v, c, off, len).Some? && ReadFrom(d, t, v, Link(t, c), 0, len - n) == Some(rest)
    requires len - n <= |tail| && rest == tail[..len - n]
    ensures c >= 2 && off + len <= |ClusterBytes(d, v, c) + tail|
    ensures ReadFrom(d, t, v, c, off, len).value == (ClusterBytes(d, v, c) + tail)[off..off + len]
  {
    FirstPart(d, t, v, c, off, len);
    Stretch(ClusterBytes(d, v, c), tail, off, len, n, rest);
  }

  /** The content that a read goes through, cluster by cluster. */
  ghost function Through(d: Disk, t: seq<nat>, v: Volume, c: nat, off: nat, len: nat): Buf
    requires off < ClusterSize(v)
  {
    Content(d, t, v, c, Needed(off, len, ClusterSize(v)))
  }

  lemma {:induction false} ThroughStep(d: Disk, t: seq<nat>, v: Volume, c: nat, off: nat, len: nat)
    requires off < ClusterSize(v) && 0 < len && !Ends(c)
    ensures Through(d, t, v, c, off, len)
            == ClusterBytes(d, v, c) + Through(d, t, v, Link(t, c), 0, len - Min(len, ClusterSize(v) - off))
  {
    NeededStep(off, len, ClusterSize(v));
    ContentStep(d, t, v, c, Needed(off, len, ClusterSize(v)));
  }

  lemma {:induction false} ReadBegins(d: Disk, t: seq<nat>, v: Volume, c: nat, off: nat, len: nat)
    requires Whole(d, SECTOR) && v.spc > 0 && off < ClusterSize(v) && 0 < len && ReadFrom(d, t, v, c, off, len).Some?
    ensures !Ends(c) && ReadFrom(d, t, v, Link(t, c), 0, len - Min(len, ClusterSize(v) - off)).Some?
  {
  }

  /** What is read along the chain is a stretch of its clusters. */
  lemma {:induction false} ReadFromIsSlice(d: Disk, t: seq<nat>, v: Volume, c: nat, off: nat, len: nat)
    requires Whole(d, SECTOR) && v.spc > 0 && off < ClusterSize(v) && ReadFrom(d, t, v, c, off, len).Some?
    requires len == 0 ==> off == 0
    ensures off + len <= |Through(d, t, v, c, off, len)|
    ensures ReadFrom(d, t, v, c, off, len).value == Through(d, t, v, c, off, len)[off..off + len]
    decreases len
  {
    if len > 0 {
      var n := Min(len, ClusterSize(v) - off);
      ReadBegins(d, t, v, c, off, len);
      ReadFromIsSlice(d, t, v, Link(t, c), 0, len - n);
      var tail := Through(d, t, v, Link(t, c), 0, len - n);
      OneMore(d, t, v, c, off, len, n, tail, tail[..len - n]);
      ThroughStep(d, t, v, c, off, len);
    }
  }

  lemma {:induction false} QuotRemSpan(n: nat, b: nat)
    requires b > 0
    ensures n == Span(Quot(n, b), b) + Rem(n, b)
    decreases n
  {
    if n >= b { QuotRemSpan(n - b, b); }
  }

  lemma {:induction false} DropMore(head: Buf, tail: Buf, j: nat)
    requires j <= |tail|
    ensures (head + tail)[|head| + j..] == tail[j..]
  {
  }

  /** Skipping clusters drops their bytes. */
  lemma {:induction false} SkipDrops(d: Disk, t: seq<nat>, v: Volume, first: nat, k: nat, n: nat)
    requires Whole(d, SECTOR) && !Ends(first) && Skip(t, first, k).Some?
    ensures var all, j := Content(d, t, v, first, k + n), Span(k, ClusterSize(v));
            j <= |all| && all[j..] == Content(d, t, v, Skip(t, first, k).value, n)
    decreases k
  {
    if k > 0 {
      var next := Link(t, first);
      SkipDrops(d, t, v, next, k - 1, n);
      SectorsLength(d, Lba(v, first), v.spc);
      ContentStep(d, t, v, first, k + n);
      DropMore(ClusterBytes(d, v, first), Content(d, t, v, next, k - 1 + n), Span(k - 1, ClusterSize(v)));
    }
  }

  lemma {:induction false} ReadAtParts(d: Disk, t: seq<nat>, v: Volume, first: nat, size: nat, offset: nat, len: nat)
    requires Whole(d, SECTOR) && v.spc > 0 && offset + len < 0x1_0000_0000 && 0 < len
    requires ReadAt(d, t, v, first, size, offset, len).Some?
    ensures offset + len <= size
    ensures var c := Skip(t, first, Quot(offset, ClusterSize(v)));
            && c.Some?
            && ReadAt(d, t, v, first, size, offset, len) == ReadFrom(d, t, v, c.value, Rem(offset, ClusterSize(v)), len)
  {
    DivUnique(offset + len, 0x1_0000_0000, 0, offset + len);
  }

  /** A read from a cluster that was skipped to is a stretch of the content from the first one on. */
  lemma {:induction false} SkippedReadIsSlice(d: Disk, t: seq<nat>, v: Volume, first: nat, k: nat, off: nat, len: nat)
    requires Whole(d, SECTOR) && v.spc > 0 && !Ends(first) && off < ClusterSize(v) && 0 < len
    requires Skip(t, first, k).Some? && ReadFrom(d, t, v, Skip(t, first, k).value, off, len).Some?
    ensures var all, at := Content(d, t, v, first, k + Needed(off, len, ClusterSize(v))), Span(k, ClusterSize(v)) + off;
            && at + len <= |all|
            && ReadFrom(d, t, v, Skip(t, first, k).value, off, len).value == all[at..at + len]
  {
    var c, n := Skip(t, first, k).value, Needed(off, len, ClusterSize(v));
    ReadFromIsSlice(d, t, v, c, off, len);
    SkipDrops(d, t, v, first, k, n);
    SliceOfDrop(Content(d, t, v, first, k + n), Content(d, t, v, c, n), Span(k, ClusterSize(v)), off, len);
  }

  lemma {:induction false} ReadAtThrough(d: Disk, t: seq<nat>, v: Volume, first: nat, size: nat, offset: nat, len: nat)
    requires Whole(d, SECTOR) && v.spc > 0 && !Ends(first) && offset + len < 0x1_0000_0000 && 0 < len
    requires ReadAt(d, t, v, first, size, offset, len).Some?
    ensures offset + len <= size
    ensures var cs := ClusterSize(v);
            var all := Content(d, t, v, first, Quot(offset, cs) + Needed(Rem(offset, cs), len, cs));
            offset + len <= |all| && ReadAt(d, t, v, first, size, offset, len).value == all[offset..offset + len]
  {
    var cs := ClusterSize(v);
    QuotRemSpan(offset, cs);
    ReadAtParts(d, t, v, first, size, offset, len);
    SkippedReadIsSlice(d, t, v, first, Quot(offset, cs), Rem(offset, cs), len);
  }

  // ----------------------------------------------------- one content for the file

  /** More clusters only add bytes at the end. */
  lemma {:induction false} ContentGrows(d: Disk, t: seq<nat>, v: Volume, c: nat, n: nat, m: nat)
    requires n <= m
    ensures Content(d, t, v, c, n) <= Content(d, t, v, c, m)
    decreases n
  {
    if n > 0 && !Ends(c) {
      ContentGrows(d, t, v, Link(t, c), n - 1, m - 1);
      var head := ClusterBytes(d, v, c);
      ContentStep(d, t, v, c, n);
      ContentStep(d, t, v, c, m);
    }
  }

  /** The number of clusters that hold `n` bytes. */
  ghost function ClustersOf(n: nat, size: nat): nat
    requires size > 0
  {
    if n == 0 then 0 else 1 + ClustersOf(if n > size then n - size else 0, size)
  }

  lemma {:induction false} ClustersGrow(a: nat, b: nat, size: nat)
    requires size > 0 && a <= b
    ensures ClustersOf(a, size) <= ClustersOf(b, size)
    decreases a
  {
    if a > 0 { ClustersGrow(if a > size then a - size else 0, if b > size then b - size else 0, size); }
  }

  lemma {:induction false} NeededIs(off: nat, len: nat, size: nat)
    requires off < size && (len == 0 ==> off == 0)
    ensures Needed(off, len, size) == ClustersOf(off + len, size)
    decreases len
  {
    if off + len > size { NeededIs(0, len - (size - off), size); }
  }

  lemma {:induction false} SkippedAndNeeded(offset: nat, len: nat, size: nat)
    requires size > 0 && len > 0
    ensures Quot(offset, size) + Needed(Rem(offset, size), len, size) == ClustersOf(offset + len, size)
    decreases offset
  {
    if offset >= size {
      SkippedAndNeeded(offset - size, len, size);
    } else {
      NeededIs(offset, len, size);
    }
  }

  /** The clusters that hold a file of `size` bytes. */
  ghost function FileContent(d: Disk, t: seq<nat>, v: Volume, first: nat, size: nat): Buf
    requires v.spc > 0
  {
    Content(d, t, v, first, ClustersOf(size, ClusterSize(v)))
  }

  lemma {:induction false} SlicePrefix(a: Buf, b: Buf, lo: nat, hi: nat)
    requires a <= b && lo <= hi <= |a|
    ensures a[lo..hi] == b[lo..hi]
  {
    assert a == b[..|a|];
  }

  /** The clusters of a part of the file are the first of those of the whole. */
  lemma {:induction false} PartOfFile(d: Disk, t: seq<nat>, v: Volume, first: nat, size: nat, offset: nat, len: nat)
    requires v.spc > 0 && offset + len <= size
    ensures var cs := ClusterSize(v);
            var part, file := Content(d, t, v, first, ClustersOf(offset + len, cs)), FileContent(d, t, v, first, size);
            offset + len <= |part| ==> offset + len <= |file| && part[offset..offset + len] == file[offset..offset + len]
  {
    var cs := ClusterSize(v);
    ClustersGrow(offset + len, size, cs);
    ContentGrows(d, t, v, first, ClustersOf(offset + len, cs), ClustersOf(size, cs));
    var part, file := Content(d, t, v, first, ClustersOf(offset + len, cs)), FileContent(d, t, v, first, size);
    if offset + len <= |part| { SlicePrefix(part, file, offset, offset + len); }
  }

  /** A read that succeeds gives exactly that stretch of the file, whatever the offset and the length. */
  lemma {:induction false} ReadAtIsSlice(d: Disk, t: seq<nat>, v: Volume, first: nat, size: nat, offset: nat, len: nat)
    requires Whole(d, SECTOR) && v.spc > 0 && !Ends(first) && offset + len < 0x1_0000_0000 && 0 < len
    requires ReadAt(d, t, v, first, size, offset, len).Some?
    ensures offset + len <= size
    ensures var file := FileContent(d, t, v, first, size);
            offset + len <= |file| && ReadAt(d, t, v, first, size, offset, len).value == file[offset..offset + len]
  {
    var cs := ClusterSize(v);
    ReadAtThrough(d, t, v, first, size, offset, len);
    SkippedAndNeeded(offset, len, cs);
    PartOfFile(d, t, v, first, size, offset, len);
  }
}
