/** Finding, reading and writing files on the block device, proved against FatFiles. */
module FatFileOps {
  import opened Options
  import opened Bytes
  import opened FatTable
  import opened FatDir
  import opened FatFiles
  import opened FatLayout
  import opened FatDevice
  import opened Journal

  /** Cluster `c` and its entry in the table that was read are those of the volume. */
  ghost predicate ShowsAt(d: Disk, g: Geometry, fat: Buf, v: Volume, c: nat) {
    && g.spc > 0
    && (Has(v, c) <==> 2 <= c <= MaxCluster(g))
    && (Has(v, c) ==> Lba(g, c) + g.spc <= |d| && v.clusters[c] == Join(d, Lba(g, c), g.spc))
    && NextCluster(fat, Fat32, c) == Next(v, c)
  }

  ghost predicate Shows(d: Disk, g: Geometry, fat: Buf, v: Volume) {
    forall c: nat :: ShowsAt(d, g, fat, v, c)
  }

  lemma {:induction false} VolShows(d: Disk, g: Geometry, fat: Buf)
    requires OnDisk(g, d) && Entries(fat, Fat32) == Vol(d, g).fat
    ensures Shows(d, g, fat, Vol(d, g))
  {
    forall c: nat
      ensures ShowsAt(d, g, fat, Vol(d, g), c)
    {
      NextIsAt(fat, Fat32, c);
      if 2 <= c <= MaxCluster(g) { LbaFits(g, |d|, c); }
    }
  }

  method LoadCluster(block: BlockDevice, g: Geometry, c: nat, ghost fat: Buf, ghost v: Volume) returns (r: Option<Buf>)
    requires ShowsAt(block.sectors, g, fat, v, c)
    ensures r == if Has(v, c) then Some(v.clusters[c]) else None
  {
    if c < 2 || c > MaxCluster(g) { return None; }
    var out := ReadSectors(block, Lba(g, c), g.spc);
    return Some(out);
  }

  /** The cluster after `c`, or nothing where the chain stops. */
  method Follow(fat: Buf, c: nat, ghost d: Disk, ghost g: Geometry, ghost v: Volume) returns (next: Option<nat>)
    requires ShowsAt(d, g, fat, v, c)
    ensures next == if Next(v, c) >= Bad(Fat32) then None else Some(Next(v, c))
  {
    var n := NextCluster(fat, Fat32, c);
    if n >= Eoc(Fat32) || n == Bad(Fat32) { return None; }
    return Some(n);
  }

  lemma {:induction false} MatchSkips(list: seq<Found>, name: Buf, i: nat)
    requires i <= |list| && forall k :: 0 <= k < i ==> list[k].entry.name != name
    ensures Match(list, name) == Match(list[i..], name)
    decreases i
  {
    if i > 0 {
      MatchSkips(list, name, i - 1);
      assert list[i - 1..][1..] == list[i..];
    } else {
      assert list[0..] == list;
    }
  }

  /** The first record of that name. */
  method FirstNamed(records: seq<Record>, c: nat, name: Buf, ghost list: seq<Found>) returns (r: Option<Found>)
    requires |list| == |records|
    requires forall i :: 0 <= i < |list| ==> list[i] == Found(records[i].entry, c, records[i].offset)
    ensures r == Match(list, name)
  {
    var i := 0;
    while i < |records|
      invariant 0 <= i <= |records|
      invariant forall k :: 0 <= k < i ==> list[k].entry.name != name
    {
      if records[i].entry.name == name {
        MatchSkips(list, name, i);
        return Some(Found(records[i].entry, c, records[i].offset));
      }
      i := i + 1;
    }
    MatchSkips(list, name, i);
    return None;
  }

  /** The entries of one directory cluster, when there is such a cluster. */
  method ScanCluster(block: BlockDevice, g: Geometry, c: nat, ghost fat: Buf, ghost v: Volume)
    returns (r: Option<seq<Record>>)
    requires Shows(block.sectors, g, fat, v)
    ensures r == if Has(v, c) then Some(Records(v.clusters[c])) else None
  {
    assert ShowsAt(block.sectors, g, fat, v, c);
    var data := LoadCluster(block, g, c, fat, v);
    if data.None? { return None; }
    var records := ScanEntries(data.value);
    return Some(records);
  }

  method FindEntryLocation(block: BlockDevice, g: Geometry, fat: Buf, start: nat, name: Buf, ghost v: Volume)
    returns (r: Option<Found>)
    requires Shows(block.sectors, g, fat, v)
    ensures r == FindIn(v, start, name, 0)
  {
    var c, guardCount := start, 0;
    while c >= 2 && guardCount < GUARD
      invariant 0 <= c && 0 <= guardCount <= GUARD
      invariant FindIn(v, start, name, 0) == FindIn(v, c, name, guardCount)
      decreases GUARD - guardCount
    {
      var records := ScanCluster(block, g, c, fat, v);
      if records.None? { return None; }
      var m := FirstNamed(records.value, c, name, In(v, c));
      if m.Some? { return m; }
      assert ShowsAt(block.sectors, g, fat, v, c);
      var next := Follow(fat, c, block.sectors, g, v);
      if next.None? { return None; }
      c, guardCount := next.value, guardCount + 1;
    }
    return None;
  }

  function Tagged(records: seq<Record>, c: nat): (r: seq<Found>)
    ensures |r| == |records|
    ensures forall i :: 0 <= i < |r| ==> r[i] == Found(records[i].entry, c, records[i].offset)
  {
    seq(|records|, i requires 0 <= i < |records| => Found(records[i].entry, c, records[i].offset))
  }

  method ListCluster(block: BlockDevice, g: Geometry, c: nat, ghost fat: Buf, ghost v: Volume)
    returns (r: Option<seq<Found>>)
    requires Shows(block.sectors, g, fat, v)
    ensures r == if Has(v, c) then Some(In(v, c)) else None
  {
    var records := ScanCluster(block, g, c, fat, v);
    if records.None? { return None; }
    assert Tagged(records.value, c) == In(v, c);
    return Some(Tagged(records.value, c));
  }

  lemma {:induction false} ListStep(v: Volume, c: nat, g: nat, before: seq<Found>)
    requires 2 <= c && g < GUARD && Has(v, c)
    ensures Onto(before, ListDir(v, c, g)) ==
            if Next(v, c) >= Bad(Fat32) then Some(before + In(v, c))
            else Onto(before + In(v, c), ListDir(v, Next(v, c), g + 1))
  {
    if Next(v, c) < Bad(Fat32) {
      var rest := ListDir(v, Next(v, c), g + 1);
      if rest.Some? { assert before + (In(v, c) + rest.value) == before + In(v, c) + rest.value; }
    }
  }

  method ReadDirEntries(block: BlockDevice, g: Geometry, fat: Buf, start: nat, ghost v: Volume)
    returns (r: Option<seq<Found>>)
    requires Shows(block.sectors, g, fat, v)
    ensures r == ListDir(v, start, 0)
  {
    var c, guardCount, entries: seq<Found> := start, 0, [];
    ghost var all := ListDir(v, start, 0);
    assert Onto([], all) == all by { if all.Some? { assert [] + all.value == all.value; } }
    while c >= 2 && guardCount < GUARD
      invariant 0 <= c && 0 <= guardCount <= GUARD
      invariant all == Onto(entries, ListDir(v, c, guardCount))
      decreases GUARD - guardCount
    {
      var list := ListCluster(block, g, c, fat, v);
      if list.None? { return None; }
      ListStep(v, c, guardCount, entries);
      entries := entries + list.value;
      assert ShowsAt(block.sectors, g, fat, v, c);
      var next := Follow(fat, c, block.sectors, g, v);
      if next.None? { return Some(entries); }
      c, guardCount := next.value, guardCount + 1;
    }
    assert entries + [] == entries;
    return Some(entries);
  }

  method FirstMatch(list: seq<Found>, name: Buf) returns (r: Option<Found>)
    ensures r == Match(list, name)
  {
    var i := 0;
    while i < |list|
      invariant 0 <= i <= |list|
      invariant forall k :: 0 <= k < i ==> list[k].entry.name != name
    {
      if list[i].entry.name == name {
        MatchSkips(list, name, i);
        return Some(list[i]);
      }
      i := i + 1;
    }
    MatchSkips(list, name, i);
    return None;
  }

  method FindEntry(block: BlockDevice, g: Geometry, fat: Buf, start: nat, name: Buf, ghost v: Volume)
    returns (r: Option<Found>)
    requires Shows(block.sectors, g, fat, v)
    ensures r == FindListed(v, start, name)
  {
    var list := ReadDirEntries(block, g, fat, start, v);
    if list.None? { return None; }
    r := FirstMatch(list.value, name);
  }

  method ResolvePath(block: BlockDevice, g: Geometry, fat: Buf, path: seq<Buf>, ghost v: Volume)
    returns (r: Option<Found>)
    requires Shows(block.sectors, g, fat, v)
    ensures r == Resolve(v, g.root, path)
  {
    var c, i := g.root, 0;
    assert path[0..] == path;
    while i < |path|
      invariant 0 <= i <= |path| && 0 <= c
      invariant Resolve(v, g.root, path) == Resolve(v, c, path[i..])
      decreases |path| - i
    {
      if i == |path| - 1 {
        r := FindEntryLocation(block, g, fat, c, path[i], v);
        return;
      }
      var dir := FindEntry(block, g, fat, c, path[i], v);
      if dir.None? || !Enterable(dir.value.entry) { return None; }
      assert path[i..][1..] == path[i + 1..];
      c, i := dir.value.entry.first, i + 1;
    }
    return None;
  }

  // -------------------------------------------------------------------- reading

  lemma {:induction false} ReadStep(v: Volume, c: nat, remaining: nat, size: nat, g: nat, out: Buf)
    requires 2 <= c && remaining > 0 && g < GUARD && Has(v, c)
    ensures Onto(out, ReadFrom(v, c, remaining, size, g)) ==
            if Next(v, c) >= Bad(Fat32) then Some(out + v.clusters[c])
            else Onto(out + v.clusters[c], ReadFrom(v, Next(v, c), Less(remaining, size), size, g + 1))
  {
    if Next(v, c) < Bad(Fat32) {
      var rest := ReadFrom(v, Next(v, c), Less(remaining, size), size, g + 1);
      if rest.Some? { assert out + (v.clusters[c] + rest.value) == out + v.clusters[c] + rest.value; }
    }
  }

  /** The clusters of a file, one after the other. */
  method ReadChain(block: BlockDevice, g: Geometry, fat: Buf, first: nat, n: nat, size: nat, ghost v: Volume)
    returns (r: Option<Buf>)
    requires Shows(block.sectors, g, fat, v)
    ensures r == ReadFrom(v, first, n, size, 0)
  {
    var c, remaining, guardCount, out: Buf := first, n, 0, [];
    ghost var all := ReadFrom(v, first, n, size, 0);
    assert Onto([], all) == all by { if all.Some? { assert [] + all.value == all.value; } }
    while c >= 2 && remaining > 0 && guardCount < GUARD
      invariant 0 <= c && 0 <= remaining && 0 <= guardCount <= GUARD
      invariant all == Onto(out, ReadFrom(v, c, remaining, size, guardCount))
      decreases GUARD - guardCount
    {
      assert ShowsAt(block.sectors, g, fat, v, c);
      var data := LoadCluster(block, g, c, fat, v);
      if data.None? { return None; }
      ReadStep(v, c, remaining, size, guardCount, out);
      out := out + data.value;
      var next := Follow(fat, c, block.sectors, g, v);
      if next.None? { return Some(out); }
      c, remaining, guardCount := next.value, Less(remaining, size), guardCount + 1;
    }
    assert out + [] == out;
    return Some(out);
  }

  /** What a path reads, on a volume whose table has been read. */
  method ReadPath(block: BlockDevice, g: Geometry, fat: Buf, path: seq<Buf>, ghost v: Volume) returns (r: Option<Buf>)
    requires Shows(block.sectors, g, fat, v)
    ensures r == ReadFile(v, g.root, path, ClusterSize(g))
  {
    var f := ResolvePath(block, g, fat, path, v);
    if f.None? { return None; }
    var e := f.value.entry;
    if e.IsDir() { return None; }
    if e.size == 0 { return Some([]); }
    if e.first < 2 { return None; }
    var out := ReadChain(block, g, fat, e.first, e.size, ClusterSize(g), v);
    if out.None? { return None; }
    return Some(Shorten(out.value, e.size));
  }

  /** Read a file: mount, read the table, and read the path. */
  method ReadFileData(block: BlockDevice, g: Geometry, path: seq<Buf>) returns (r: Option<Buf>)
    requires Ready(block, g)
    modifies block`sectors
    ensures Clean(block, g) && block.sectors == Mounted(g, old(block.sectors))
    ensures r == ReadFile(Vol(block.sectors, g), g.root, path, ClusterSize(g))
  {
    ReplayLog(block, g);
    var fat := ReadTable(block, g);
    VolShows(block.sectors, g, fat);
    r := ReadPath(block, g, fat, path, Vol(block.sectors, g));
  }
}
