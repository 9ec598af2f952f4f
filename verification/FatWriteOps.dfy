/** Writing a file on the block device, proved against FatFiles. */
module FatWriteOps {
  import opened Arith
  import opened Options
  import opened Bytes
  import opened FatTable
  import opened FatAlloc
  import opened FatFiles
  import opened FatLayout
  import opened FatDevice
  import opened FatFileOps

  ghost predicate Allowed(g: Geometry, safe: bool) { safe ==> HasLog(g) }

  /** One cluster of the data, over its old content or over zeros. */
  method WriteChunk(block: BlockDevice, g: Geometry, c: nat, kept: nat, part: Buf, safe: bool) returns (ok: bool)
    requires Clean(block, g) && 2 <= c <= MaxCluster(g) && |part| <= ClusterSize(g)
    modifies block`sectors
    ensures Clean(block, g)
    ensures ok <==> Allowed(g, safe)
    ensures var v := Vol(old(block.sectors), g);
            && |v.clusters[c]| == ClusterSize(g)
            && Vol(block.sectors, g) ==
               if ok then WithCluster(v, c, Overlay(Base(v, c, ClusterSize(g), kept), part)) else v
  {
    ClusterLength(block.sectors, g, c);
    var base: Buf;
    if kept > 0 {
      var existing := ReadCluster(block, g, c);
      base := existing.value;
    } else {
      base := Zeros(ClusterSize(g));
    }
    var content := Overlay(base, part);
    assert content[..ClusterSize(g)] == content;
    ok := WriteCluster(block, g, c, content, safe);
  }

  /** What is left of a write: clusters, how many of them keep their content, data, and clusters written. */
  datatype Job = Job(ch: seq<nat>, kept: nat, data: Buf, done: nat)

  predicate More(j: Job) { j.ch != [] && j.data != [] && j.done < GUARD }

  function Part(j: Job, size: nat): (p: Buf)
    ensures |p| <= size
  {
    j.data[..Min(|j.data|, size)]
  }

  function Rest(j: Job, size: nat): Job
    requires More(j)
  {
    Job(j.ch[1..], Less(j.kept, 1), j.data[Min(|j.data|, size)..], j.done + 1)
  }

  /** What is still to be written leads from `v` to `aim`. */
  ghost predicate Todo(v: Volume, j: Job, size: nat, aim: Volume) {
    Uniform(v, size) && Numbers(v, j.ch) && WriteData(v, j.ch, j.kept, j.data, size, j.done) == aim
  }

  lemma {:induction false} TodoStep(v: Volume, j: Job, size: nat, aim: Volume)
    requires Todo(v, j, size, aim) && More(j)
    ensures Has(v, j.ch[0]) && |v.clusters[j.ch[0]]| == size
    ensures Todo(WithCluster(v, j.ch[0], Overlay(Base(v, j.ch[0], size, j.kept), Part(j, size))), Rest(j, size), size, aim)
  {
  }

  lemma {:induction false} TodoDone(v: Volume, j: Job, size: nat, aim: Volume)
    requires Todo(v, j, size, aim) && !More(j)
    ensures v == aim
  {
  }

  /** The next cluster of the write. */
  method WriteOne(block: BlockDevice, g: Geometry, j: Job, safe: bool, ghost v: Volume, ghost aim: Volume)
    returns (ok: bool, ghost v1: Volume)
    requires Clean(block, g) && v == Vol(block.sectors, g) && Todo(v, j, ClusterSize(g), aim) && More(j)
    modifies block`sectors
    ensures Clean(block, g) && v1 == Vol(block.sectors, g)
    ensures ok <==> Allowed(g, safe)
    ensures if ok then Todo(v1, Rest(j, ClusterSize(g)), ClusterSize(g), aim) else v1 == v
  {
    TodoStep(v, j, ClusterSize(g), aim);
    ok := WriteChunk(block, g, j.ch[0], j.kept, Part(j, ClusterSize(g)), safe);
    v1 := Vol(block.sectors, g);
  }

  /** The data along the chain. */
  method WriteChunks(block: BlockDevice, g: Geometry, job: Job, safe: bool, ghost v: Volume, ghost aim: Volume)
    returns (ok: bool)
    requires Clean(block, g) && v == Vol(block.sectors, g) && Todo(v, job, ClusterSize(g), aim) && More(job)
    modifies block`sectors
    ensures Clean(block, g)
    ensures ok <==> Allowed(g, safe)
    ensures Vol(block.sectors, g) == if ok then aim else v
  {
    var j := job;
    ghost var now, started := v, false;
    while More(j)
      invariant Clean(block, g) && now == Vol(block.sectors, g) && Todo(now, j, ClusterSize(g), aim)
      invariant if started then Allowed(g, safe) else now == v && More(j)
      decreases |j.ch|
    {
      ok, now := WriteOne(block, g, j, safe, now, aim);
      if !ok { return false; }
      started := true;
      j := Rest(j, ClusterSize(g));
    }
    TodoDone(now, j, ClusterSize(g), aim);
    return true;
  }

  method ChainOf(g: Geometry, fat: Buf, first: nat, ghost v: Volume) returns (ch: seq<nat>)
    requires g.spc > 0 && Entries(fat, Fat32) == v.fat && |v.clusters| == MaxCluster(g) + 1
    ensures ch == OldChain(v, first)
  {
    if first < 2 { return []; }
    var walked := ClusterChain(fat, Fat32, first, MaxCluster(g));
    return if walked.None? then [] else walked.value;
  }

  /** The grown table and the entry, before the data. */
  method Grow(block: BlockDevice, g: Geometry, f: Found, fat: Buf, first: nat, n: nat, safe: bool) returns (ok: bool)
    requires Clean(block, g) && Placed(Vol(block.sectors, g), f) && |fat| == g.spf * g.bps
    requires first < 0x1_0000_0000 && n < 0x1_0000_0000
    modifies block`sectors
    ensures Clean(block, g)
    ensures ok <==> Allowed(g, safe)
    ensures var v := Vol(old(block.sectors), g);
            Vol(block.sectors, g) == if ok then PatchEntry(v.(fat := Entries(fat, Fat32)), f, first, n) else v
  {
    ok := WriteTables(block, g, fat, safe);
    if !ok { return false; }
    ok := UpdateDirEntry(block, g, f, first, n, safe);
  }

  /** The data and the entry, on a chain that is long enough. */
  method Fill(block: BlockDevice, g: Geometry, f: Found, all: seq<nat>, kept: nat, data: Buf, safe: bool)
    returns (ok: bool)
    requires Clean(block, g) && Placed(Vol(block.sectors, g), f)
    requires Uniform(Vol(block.sectors, g), ClusterSize(g)) && Numbers(Vol(block.sectors, g), all)
    requires all != [] && all[0] < 0x1_0000_0000 && 0 < |data| < 0x1_0000_0000
    modifies block`sectors
    ensures Clean(block, g)
    ensures ok <==> Allowed(g, safe)
    ensures var v := Vol(old(block.sectors), g);
            Vol(block.sectors, g) ==
            if ok then PatchEntry(WriteData(v, all, kept, data, ClusterSize(g), 0), f, all[0], |data|) else v
  {
    ghost var v := Vol(block.sectors, g);
    ok := WriteChunks(block, g, Job(all, kept, data, 0), safe, v, WriteData(v, all, kept, data, ClusterSize(g), 0));
    if !ok { return false; }
    ok := UpdateDirEntry(block, g, f, all[0], |data|, safe);
  }

  method CountClusters(g: Geometry, n: nat) returns (k: nat)
    requires ClusterSize(g) > 0 && n > 0
    ensures k == Clusters(n, ClusterSize(g)) && k > 0
  {
    ClustersPositive(n, ClusterSize(g));
    QuotDivides(n + ClusterSize(g) - 1, ClusterSize(g));
    k := (n + ClusterSize(g) - 1) / ClusterSize(g);
  }

  /** The chain the data goes to, and the grown table when the chain is too short. */
  method PlanWrite(g: Geometry, fat: Buf, ch: seq<nat>, n: nat, ghost v: Volume) returns (r: Option<(Buf, seq<nat>)>)
    requires g.spc > 0 && Entries(fat, Fat32) == v.fat && |v.clusters| == MaxCluster(g) + 1 <= Bad(Fat32)
    ensures var plan := Plan(v, ch, n);
            && (r.None? <==> plan.None?)
            && (r.Some? ==> |r.value.0| == |fat| && (Entries(r.value.0, Fat32), r.value.1) == plan.value)
  {
    if n <= |ch| { return Some((fat, ch)); }
    r := GrowChain(fat, Fat32, MaxCluster(g), ch, n - |ch|);
  }

  /** A write to a found file that needs at least one cluster. */
  method WriteAll(block: BlockDevice, g: Geometry, f: Found, ch: seq<nat>, fat: Buf, all: seq<nat>, data: Buf, safe: bool,
                  ghost v: Volume)
    returns (ok: bool)
    requires Clean(block, g) && v == Vol(block.sectors, g) && Sound(v, ClusterSize(g)) && Placed(v, f)
    requires Numbers(v, all) && all != [] && all[0] < 0x1_0000_0000 && 0 < |data| < 0x1_0000_0000
    requires |fat| == g.spf * g.bps && (|all| <= |ch| ==> Entries(fat, Fat32) == v.fat)
    modifies block`sectors
    ensures Clean(block, g)
    ensures ok <==> Allowed(g, safe)
    ensures Vol(block.sectors, g) ==
            if ok then WriteTo(v, f, ch, Entries(fat, Fat32), all, data, ClusterSize(g)) else v
  {
    if |all| > |ch| {
      ok := Grow(block, g, f, fat, all[0], |data|, safe);
      if !ok { return; }
    }
    ok := Fill(block, g, f, all, |ch|, data, safe);
  }

  /** Replace the content of a found file. */
  method WriteFound(block: BlockDevice, g: Geometry, fat: Buf, f: Found, data: Buf, safe: bool, ghost v: Volume)
    returns (ok: bool)
    requires Clean(block, g) && v == Vol(block.sectors, g) && Sound(v, ClusterSize(g))
    requires Placed(v, f) && f.entry.first < 0x1_0000_0000 && |data| < 0x1_0000_0000
    requires |fat| == g.spf * g.bps && Entries(fat, Fat32) == v.fat
    modifies block`sectors
    ensures Clean(block, g)
    ensures ok <==> WriteEntry(v, f, data, ClusterSize(g)).Some? && Allowed(g, safe)
    ensures Vol(block.sectors, g) == if ok then WriteEntry(v, f, data, ClusterSize(g)).value else v
  {
    if data == [] {
      ok := UpdateDirEntry(block, g, f, f.entry.first, 0, safe);
      return;
    }
    var n := CountClusters(g, |data|);
    var ch := ChainOf(g, fat, f.entry.first, v);
    var plan := PlanWrite(g, fat, ch, n, v);
    if plan.None? { return false; }
    OldChainNumbers(v, f.entry.first);
    PlanNumbers(v, ch, n);
    ok := WriteAll(block, g, f, ch, plan.value.0, plan.value.1, data, safe, v);
  }

  /**
   Write a file: mount, read the table, find the path, and replace the content.
   A write that is refused leaves the volume as it was.
   */
  method WriteFileData(block: BlockDevice, g: Geometry, path: seq<Buf>, data: Buf, safe: bool) returns (ok: bool)
    requires Ready(block, g) && |data| < 0x1_0000_0000
    modifies block`sectors
    ensures Clean(block, g)
    ensures var v := Vol(Mounted(g, old(block.sectors)), g);
            && Sound(v, ClusterSize(g))
            && (ok <==> WriteFile(v, g.root, path, data, ClusterSize(g)).Some? && Allowed(g, safe))
            && Vol(block.sectors, g) == if ok then WriteFile(v, g.root, path, data, ClusterSize(g)).value else v
  {
    ReplayLog(block, g);
    ghost var v := Vol(block.sectors, g);
    VolSound(block.sectors, g);
    var fat := ReadTable(block, g);
    VolShows(block.sectors, g, fat);
    var f := ResolvePath(block, g, fat, path, v);
    if f.None? || f.value.entry.IsDir() { return false; }
    ResolveStored(v, g.root, path);
    ok := WriteFound(block, g, fat, f.value, data, safe, v);
  }
}
