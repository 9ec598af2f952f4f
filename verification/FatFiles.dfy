/**
 Files of a FAT32 volume: finding a path, reading a file and writing one, on the
 table's entries and the contents of the clusters.
 */
module FatFiles {
  import opened Arith
  import opened Options
  import opened Bytes
  import opened FatTable
  import opened FatAlloc
  import opened FatDir

  /** The entries of the table, and what each cluster holds (numbers 0 and 1 are unused). */
  datatype Volume = Volume(fat: seq<nat>, clusters: seq<Buf>)

  datatype Found = Found(entry: Entry, cluster: nat, offset: nat)

  ghost predicate Has(v: Volume, c: nat) { 2 <= c < |v.clusters| }

  function Next(v: Volume, c: nat): nat { At(v.fat, Fat32, c) }

  // ------------------------------------------------------------- finding a path

  function Match(list: seq<Found>, name: Buf): Option<Found> {
    if list == [] then None
    else if list[0].entry.name == name then Some(list[0])
    else Match(list[1..], name)
  }

  ghost function In(v: Volume, c: nat): (r: seq<Found>)
    requires Has(v, c)
    ensures |r| == |Records(v.clusters[c])|
    ensures forall i :: 0 <= i < |r| ==>
      r[i] == Found(Records(v.clusters[c])[i].entry, c, Records(v.clusters[c])[i].offset)
  {
    var recs := Records(v.clusters[c]);
    seq(|recs|, i requires 0 <= i < |recs| => Found(recs[i].entry, c, recs[i].offset))
  }

  /** The first entry of that name, cluster by cluster along the directory. */
  ghost function FindIn(v: Volume, c: nat, name: Buf, g: nat): Option<Found>
    decreases GUARD - g, v
  {
    if c < 2 || g >= GUARD || !Has(v, c) then None
    else
      var here := Match(In(v, c), name);
      if here.Some? then here
      else if Next(v, c) >= Bad(Fat32) then None
      else FindIn(v, Next(v, c), name, g + 1)
  }

  /** The whole directory, or nothing when a cluster of it cannot be read. */
  ghost function ListDir(v: Volume, c: nat, g: nat): Option<seq<Found>>
    decreases GUARD - g, v
  {
    if c < 2 || g >= GUARD then Some([])
    else if !Has(v, c) then None
    else if Next(v, c) >= Bad(Fat32) then Some(In(v, c))
    else
      var rest := ListDir(v, Next(v, c), g + 1);
      if rest.None? then None else Some(In(v, c) + rest.value)
  }

  ghost function FindListed(v: Volume, c: nat, name: Buf): Option<Found> {
    var list := ListDir(v, c, 0);
    if list.None? then None else Match(list.value, name)
  }

  predicate Enterable(e: Entry) { e.IsDir() && e.first >= 2 }

  ghost function Resolve(v: Volume, c: nat, path: seq<Buf>): Option<Found>
    decreases |path|
  {
    if path == [] then None
    else if |path| == 1 then FindIn(v, c, path[0], 0)
    else
      var dir := FindListed(v, c, path[0]);
      if dir.None? || !Enterable(dir.value.entry) then None
      else Resolve(v, dir.value.entry.first, path[1..])
  }

  // -------------------------------------------------------------------- reading

  function Less(remaining: nat, size: nat): nat {
    if remaining > size then remaining - size else 0
  }

  ghost function ReadFrom(v: Volume, c: nat, remaining: nat, size: nat, g: nat): Option<Buf>
    decreases GUARD - g, v
  {
    if c < 2 || remaining == 0 || g >= GUARD then Some([])
    else if !Has(v, c) then None
    else if Next(v, c) >= Bad(Fat32) then Some(v.clusters[c])
    else
      var rest := ReadFrom(v, Next(v, c), Less(remaining, size), size, g + 1);
      if rest.None? then None else Some(v.clusters[c] + rest.value)
  }

  function Shorten(out: Buf, n: nat): Buf { if |out| > n then out[..n] else out }

  ghost function ReadEntry(v: Volume, e: Entry, size: nat): Option<Buf> {
    if e.IsDir() then None
    else if e.size == 0 then Some([])
    else if e.first < 2 then None
    else
      var out := ReadFrom(v, e.first, e.size, size, 0);
      if out.None? then None else Some(Shorten(out.value, e.size))
  }

  ghost function ReadFile(v: Volume, root: nat, path: seq<Buf>, size: nat): Option<Buf> {
    var f := Resolve(v, root, path);
    if f.None? then None else ReadEntry(v, f.value.entry, size)
  }

  // -------------------------------------------------------------------- writing

  function Min(a: nat, b: nat): nat { if a < b then a else b }

  /** The clusters the write uses, before it grows the chain. */
  ghost function OldChain(v: Volume, first: nat): seq<nat> {
    if first < 2 || |v.clusters| < 3 then []
    else
      var ch := Walk(v.fat, Fat32, first, |v.clusters| - 1, 0);
      if ch.None? then [] else ch.value
  }

  /** One cluster of the write: new bytes over the old content, or over zeros. */
  function Overlay(base: Buf, data: Buf): (r: Buf)
    requires |data| <= |base|
    ensures |r| == |base|
  {
    Splice(base, 0, data)
  }

  function Base(v: Volume, c: nat, size: nat, kept: nat): (r: Buf)
    requires c < |v.clusters| && |v.clusters[c]| == size
    ensures |r| == size
  {
    if kept > 0 then v.clusters[c] else Zeros(size)
  }

  ghost predicate Uniform(v: Volume, size: nat) {
    forall c :: 2 <= c < |v.clusters| ==> |v.clusters[c]| == size
  }

  function WithCluster(v: Volume, c: nat, data: Buf): Volume
    requires c < |v.clusters|
  {
    v.(clusters := v.clusters[c := data])
  }

  /** Clusters numbered from two to the last. */
  ghost predicate Numbers(v: Volume, ch: seq<nat>) {
    forall i :: 0 <= i < |ch| ==> Has(v, ch[i])
  }

  /** The data laid out along the chain; the first `kept` clusters keep the bytes not written. */
  ghost function WriteData(v: Volume, ch: seq<nat>, kept: nat, data: Buf, size: nat, g: nat): (r: Volume)
    requires Uniform(v, size) && Numbers(v, ch)
    ensures |r.clusters| == |v.clusters| && r.fat == v.fat && Uniform(r, size)
    decreases |ch|
  {
    if ch == [] || data == [] || g >= GUARD then v
    else
      var take := Min(|data|, size);
      var v1 := WithCluster(v, ch[0], Overlay(Base(v, ch[0], size, kept), data[..take]));
      WriteData(v1, ch[1..], Less(kept, 1), data[take..], size, g + 1)
  }

  /** The entry's slot lies in the cluster. */
  ghost predicate Placed(v: Volume, at: Found) {
    && Has(v, at.cluster)
    && at.offset % SLOT == 0 && at.offset + SLOT <= |v.clusters[at.cluster]|
  }

  /** The slot holds an entry with these attributes and this first cluster. */
  ghost predicate Stored(v: Volume, at: Found) {
    && Placed(v, at)
    && Stands(Slots(v.clusters[at.cluster]), Record(at.entry, at.offset))
    && at.entry.first < 0x1_0000_0000
  }

  lemma {:induction false} InStored(v: Volume, c: nat, i: nat)
    requires Has(v, c) && i < |In(v, c)|
    ensures Stored(v, In(v, c)[i])
  {
    var slots := Slots(v.clusters[c]);
    ListedStands(slots, 0, [], i);
    var k := In(v, c)[i].offset / SLOT;
    assert slots[k] == Parse(SlotAt(v.clusters[c], k));
  }

  lemma {:induction false} MatchIsListed(list: seq<Found>, name: Buf)
    ensures var m := Match(list, name); m.Some? ==> exists i :: 0 <= i < |list| && list[i] == m.value
  {
    if list != [] && list[0].entry.name != name {
      MatchIsListed(list[1..], name);
      if Match(list[1..], name).Some? {
        var i :| 0 <= i < |list[1..]| && list[1..][i] == Match(list[1..], name).value;
        assert list[i + 1] == Match(list, name).value;
      }
    }
  }

  lemma {:induction false} FindInStored(v: Volume, c: nat, name: Buf, g: nat)
    requires FindIn(v, c, name, g).Some?
    ensures Stored(v, FindIn(v, c, name, g).value)
    decreases GUARD - g
  {
    MatchIsListed(In(v, c), name);
    if Match(In(v, c), name).Some? {
      var i :| 0 <= i < |In(v, c)| && In(v, c)[i] == Match(In(v, c), name).value;
      InStored(v, c, i);
    } else {
      FindInStored(v, Next(v, c), name, g + 1);
    }
  }

  lemma {:induction false} ResolveStored(v: Volume, c: nat, path: seq<Buf>)
    requires Resolve(v, c, path).Some?
    ensures Stored(v, Resolve(v, c, path).value)
    decreases |path|
  {
    if |path| == 1 {
      FindInStored(v, c, path[0], 0);
    } else {
      ResolveStored(v, FindListed(v, c, path[0]).value.entry.first, path[1..]);
    }
  }

  /** The directory entry rewritten. */
  ghost function PatchEntry(v: Volume, at: Found, first: nat, n: nat): (r: Volume)
    requires Placed(v, at) && first < 0x1_0000_0000 && n < 0x1_0000_0000
    ensures |r.clusters| == |v.clusters| && r.fat == v.fat
    ensures forall size :: Uniform(v, size) ==> Uniform(r, size)
  {
    WithCluster(v, at.cluster, Patch(v.clusters[at.cluster], at.offset / SLOT, first, n))
  }

  function Clusters(n: nat, size: nat): nat
    requires size > 0
  {
    Quot(n + size - 1, size)
  }

  /** A volume whose cluster numbers cannot be taken for marks. */
  ghost predicate Sound(v: Volume, size: nat) {
    && size > 0 && Uniform(v, size)
    && 3 <= |v.clusters| <= Bad(Fat32)
  }

  /** The table and the chain the data goes to. */
  ghost function Plan(v: Volume, ch: seq<nat>, n: nat): Option<(seq<nat>, seq<nat>)>
    requires |v.clusters| > 0
  {
    if n <= |ch| then Some((v.fat, ch))
    else
      var extra := FreeFrom(v.fat, Fat32, 2, |v.clusters| - 1, n - |ch|);
      if extra.None? || extra.value == [] then None
      else Some((Extend(v.fat, Fat32, ch, extra.value), ch + extra.value))
  }

  lemma {:induction false} OldChainNumbers(v: Volume, first: nat)
    ensures Numbers(v, OldChain(v, first))
  {
    if first >= 2 && |v.clusters| >= 3 && Walk(v.fat, Fat32, first, |v.clusters| - 1, 0).Some? {
      WalkIsLinked(v.fat, Fat32, first, |v.clusters| - 1, 0);
    }
  }

  lemma {:induction false} PlanNumbers(v: Volume, ch: seq<nat>, n: nat)
    requires 0 < |v.clusters| && Plan(v, ch, n).Some? && Numbers(v, ch)
    ensures var all := Plan(v, ch, n).value.1; Numbers(v, all) && |all| >= n
  {
    if n > |ch| {
      FreeFromFinds(v.fat, Fat32, 2, |v.clusters| - 1, n - |ch|);
      var extra := FreeFrom(v.fat, Fat32, 2, |v.clusters| - 1, n - |ch|).value;
      assert Numbers(v, extra);
    }
  }

  lemma {:induction false} ClustersPositive(n: nat, size: nat)
    requires size > 0 && n > 0
    ensures Clusters(n, size) > 0
  {
    QuotDivides(n + size - 1, size);
  }

  /** Steps of the write once the file is found: the table and the entry when the chain grew, the data, the entry. */
  ghost function WriteTo(v: Volume, f: Found, ch: seq<nat>, fat: seq<nat>, all: seq<nat>, data: Buf, size: nat): (r: Volume)
    requires Sound(v, size) && Placed(v, f) && all != [] && Numbers(v, all)
    requires all[0] < 0x1_0000_0000 && |data| < 0x1_0000_0000
    ensures |r.clusters| == |v.clusters| && r.fat == fat && Uniform(r, size)
  {
    var v1 := if |all| > |ch| then PatchEntry(v.(fat := fat), f, all[0], |data|) else v.(fat := fat);
    PatchEntry(WriteData(v1, all, |ch|, data, size, 0), f, all[0], |data|)
  }

  /** The volume after the data of a file found at `f` is replaced; nothing when too few clusters are free. */
  ghost function WriteEntry(v: Volume, f: Found, data: Buf, size: nat): (r: Option<Volume>)
    requires Sound(v, size) && Placed(v, f) && f.entry.first < 0x1_0000_0000 && |data| < 0x1_0000_0000
    ensures r.Some? ==> |r.value.clusters| == |v.clusters| && Uniform(r.value, size)
  {
    if data == [] then Some(PatchEntry(v, f, f.entry.first, 0))
    else
      var ch, n := OldChain(v, f.entry.first), Clusters(|data|, size);
      var plan := Plan(v, ch, n);
      if plan.None? then None
      else
        OldChainNumbers(v, f.entry.first);
        PlanNumbers(v, ch, n);
        ClustersPositive(|data|, size);
        Some(WriteTo(v, f, ch, plan.value.0, plan.value.1, data, size))
  }

  /** The volume after a write that succeeds. */
  ghost function WriteFile(v: Volume, root: nat, path: seq<Buf>, data: Buf, size: nat): (r: Option<Volume>)
    requires Sound(v, size) && |data| < 0x1_0000_0000
    ensures r.Some? ==> |r.value.clusters| == |v.clusters| && Uniform(r.value, size)
  {
    var f := Resolve(v, root, path);
    if f.None? || f.value.entry.IsDir() then None
    else
      ResolveStored(v, root, path);
      WriteEntry(v, f.value, data, size)
  }
}
