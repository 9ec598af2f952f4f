/**
 What a write does to the whole volume: the file reads back as written, and every
 other file reads as before.
 */
module FatRoundTrip {
  import opened Arith
  import opened Options
  import opened Bytes
  import opened FatTable
  import opened FatAlloc
  import opened FatDir
  import opened FatFiles

  // ------------------------------------------- directories under a rewritten entry

  /** An entry rewritten with a new first cluster and size. */
  datatype Change = Change(at: Found, first: nat, n: nat)

  /** A cluster in use outside `ch` keeps its link and, up to the rewritten entry, its content. */
  ghost predicate KeptAt(v: Volume, v': Volume, ch: seq<nat>, d: Change, c: nat) {
    Has(v, c) && Next(v, c) != 0 && c !in ch ==>
      && Next(v', c) == Next(v, c)
      && Has(v', c)
      && v'.clusters[c] == After(v, d, c)
  }

  ghost predicate Legal(v: Volume, d: Change) {
    Stored(v, d.at) && d.first < 0x1_0000_0000 && d.n < 0x1_0000_0000
  }

  ghost function After(v: Volume, d: Change, c: nat): Buf
    requires Has(v, c)
  {
    if Legal(v, d) && c == d.at.cluster then Patch(v.clusters[c], d.at.offset / SLOT, d.first, d.n)
    else v.clusters[c]
  }

  ghost predicate Kept(v: Volume, v': Volume, ch: seq<nat>, d: Change) {
    && Legal(v, d) && |v'.clusters| == |v.clusters|
    && forall c: nat :: KeptAt(v, v', ch, d, c)
  }

  function Changed(x: Found, d: Change): Found {
    if x.cluster == d.at.cluster && x.offset == d.at.offset
    then x.(entry := x.entry.(first := d.first, size := d.n)) else x
  }

  function ChangedAll(list: seq<Found>, d: Change): (r: seq<Found>)
    ensures |r| == |list|
    ensures forall i :: 0 <= i < |r| ==> r[i] == Changed(list[i], d)
  {
    seq(|list|, i requires 0 <= i < |list| => Changed(list[i], d))
  }

  function ChangedOption(x: Option<Found>, d: Change): Option<Found> {
    if x.None? then None else Some(Changed(x.value, d))
  }

  lemma {:induction false} MatchChanged(list: seq<Found>, name: Buf, d: Change)
    ensures Match(ChangedAll(list, d), name) == ChangedOption(Match(list, name), d)
  {
    if list != [] {
      assert ChangedAll(list, d)[1..] == ChangedAll(list[1..], d);
      MatchChanged(list[1..], name, d);
    }
  }

  /** A directory cluster that the write may only patch. */
  ghost predicate Safe(v: Volume, ch: seq<nat>, c: nat) {
    Has(v, c) && Next(v, c) != 0 && c !in ch
  }

  lemma {:induction false} InChanged(v: Volume, v': Volume, ch: seq<nat>, d: Change, c: nat)
    requires Kept(v, v', ch, d) && Safe(v, ch, c)
    ensures Has(v', c) && In(v', c) == ChangedAll(In(v, c), d)
  {
    assert KeptAt(v, v', ch, d, c);
    if c == d.at.cluster {
      PatchedRecords(v.clusters[c], d.at.offset / SLOT, d.first, d.n);
    }
  }

  /** Every cluster of the directory that starts at `c` is safe. */
  ghost predicate SafeDir(v: Volume, ch: seq<nat>, c: nat, g: nat)
    decreases GUARD - g, v
  {
    c < 2 || g >= GUARD || !Has(v, c) ||
    (Safe(v, ch, c) && (Next(v, c) >= Bad(Fat32) || SafeDir(v, ch, Next(v, c), g + 1)))
  }

  lemma {:induction false} FindInChanged(v: Volume, v': Volume, ch: seq<nat>, d: Change, c: nat, name: Buf, g: nat)
    requires Kept(v, v', ch, d) && SafeDir(v, ch, c, g)
    ensures FindIn(v', c, name, g) == ChangedOption(FindIn(v, c, name, g), d)
    decreases GUARD - g
  {
    if 2 <= c && g < GUARD && Has(v, c) {
      InChanged(v, v', ch, d, c);
      MatchChanged(In(v, c), name, d);
      assert KeptAt(v, v', ch, d, c);
      if Match(In(v, c), name).None? && Next(v, c) < Bad(Fat32) {
        FindInChanged(v, v', ch, d, Next(v, c), name, g + 1);
      }
    }
  }

  function ChangedList(x: Option<seq<Found>>, d: Change): Option<seq<Found>> {
    if x.None? then None else Some(ChangedAll(x.value, d))
  }

  lemma {:induction false} ChangedJoined(a: seq<Found>, x: Option<seq<Found>>, d: Change)
    ensures ChangedList(Onto(a, x), d) == Onto(ChangedAll(a, d), ChangedList(x, d))
  {
    if x.Some? { assert ChangedAll(a + x.value, d) == ChangedAll(a, d) + ChangedAll(x.value, d); }
  }

  lemma {:induction false} ListDirStep(v: Volume, c: nat, g: nat)
    requires 2 <= c && g < GUARD && Has(v, c) && Next(v, c) < Bad(Fat32)
    ensures ListDir(v, c, g) == Onto(In(v, c), ListDir(v, Next(v, c), g + 1))
  {
  }

  lemma {:induction false} ListDirChanged(v: Volume, v': Volume, ch: seq<nat>, d: Change, c: nat, g: nat)
    requires Kept(v, v', ch, d) && SafeDir(v, ch, c, g)
    ensures ListDir(v', c, g) == ChangedList(ListDir(v, c, g), d)
    decreases GUARD - g
  {
    if 2 <= c && g < GUARD && Has(v, c) {
      InChanged(v, v', ch, d, c);
      assert KeptAt(v, v', ch, d, c);
      if Next(v, c) < Bad(Fat32) {
        ListDirChanged(v, v', ch, d, Next(v, c), g + 1);
        ListDirStep(v, c, g);
        ListDirStep(v', c, g);
        ChangedJoined(In(v, c), ListDir(v, Next(v, c), g + 1), d);
      }
    }
  }

  lemma {:induction false} FindListedChanged(v: Volume, v': Volume, ch: seq<nat>, d: Change, c: nat, name: Buf)
    requires Kept(v, v', ch, d) && SafeDir(v, ch, c, 0)
    ensures FindListed(v', c, name) == ChangedOption(FindListed(v, c, name), d)
  {
    ListDirChanged(v, v', ch, d, c, 0);
    var list := ListDir(v, c, 0);
    if list.Some? { MatchChanged(list.value, name, d); }
  }

  /** Every directory that the path goes through is safe. */
  ghost predicate SafePath(v: Volume, ch: seq<nat>, c: nat, path: seq<Buf>)
    decreases |path|
  {
    path == [] ||
    (&& SafeDir(v, ch, c, 0)
     && (|path| > 1 ==>
           var dir := FindListed(v, c, path[0]);
           dir.Some? && Enterable(dir.value.entry) ==> SafePath(v, ch, dir.value.entry.first, path[1..])))
  }

  lemma {:induction false} ListedIsStored(v: Volume, c: nat, g: nat, i: nat)
    requires ListDir(v, c, g).Some? && i < |ListDir(v, c, g).value|
    ensures Stored(v, ListDir(v, c, g).value[i])
    decreases GUARD - g
  {
    if i < |In(v, c)| {
      InStored(v, c, i);
    } else {
      ListedIsStored(v, Next(v, c), g + 1, i - |In(v, c)|);
    }
  }

  lemma {:induction false} FindListedIsStored(v: Volume, c: nat, name: Buf)
    requires FindListed(v, c, name).Some?
    ensures Stored(v, FindListed(v, c, name).value)
  {
    var list := ListDir(v, c, 0).value;
    MatchIsListed(list, name);
    var i :| 0 <= i < |list| && list[i] == Match(list, name).value;
    ListedIsStored(v, c, 0, i);
  }

  /** A directory is never the file whose entry is rewritten. */
  lemma {:induction false} DirIsNotChanged(v: Volume, d: Change, x: Found)
    requires Stored(v, x) && Stored(v, d.at) && !d.at.entry.IsDir()
    ensures Enterable(Changed(x, d).entry) <==> Enterable(x.entry)
    ensures Enterable(x.entry) ==> Changed(x, d) == x
  {
  }

  /** The path leads to the same entry as before, rewritten if it is the file that was written. */
  lemma {:induction false} ResolveChanged(v: Volume, v': Volume, ch: seq<nat>, d: Change, c: nat, path: seq<Buf>)
    requires Kept(v, v', ch, d) && !d.at.entry.IsDir() && SafePath(v, ch, c, path)
    ensures Resolve(v', c, path) == ChangedOption(Resolve(v, c, path), d)
    decreases |path|
  {
    if |path| == 1 {
      FindInChanged(v, v', ch, d, c, path[0], 0);
    } else if |path| > 1 {
      FindListedChanged(v, v', ch, d, c, path[0]);
      var dir := FindListed(v, c, path[0]);
      if dir.Some? {
        FindListedIsStored(v, c, path[0]);
        DirIsNotChanged(v, d, dir.value);
        if Enterable(dir.value.entry) {
          ResolveChanged(v, v', ch, d, dir.value.entry.first, path[1..]);
        }
      }
    }
  }

  // ----------------------------------------------------------- data along a chain

  /** The bytes of `data` that fit in the clusters one read visits. */
  function Readable(data: Buf, size: nat, g: nat): Buf
    decreases |data|
  {
    if data == [] || g >= GUARD || size == 0 then []
    else data[..Min(|data|, size)] + Readable(data[Min(|data|, size)..], size, g + 1)
  }

  lemma {:induction false} ReadableIs(data: Buf, size: nat, g: nat)
    requires size > 0 && g <= GUARD
    ensures Readable(data, size, g) == data[..Min(|data|, (GUARD - g) * size)]
    decreases |data|
  {
    if g < GUARD { assert (GUARD - g) * size == (GUARD - g - 1) * size + size; }
    if data != [] && g < GUARD {
      ReadableIs(data[Min(|data|, size)..], size, g + 1);
    }
  }

  /** The clusters of `ch` begin with the bytes of `data`, in order. */
  ghost predicate Holds(v: Volume, ch: seq<nat>, data: Buf, size: nat, g: nat)
    decreases |ch|
  {
    data == [] || g >= GUARD || ch == [] ||
    (&& Has(v, ch[0]) && |v.clusters[ch[0]]| == size
     && v.clusters[ch[0]][..Min(|data|, size)] == data[..Min(|data|, size)]
     && Holds(v, ch[1..], data[Min(|data|, size)..], size, g + 1))
  }

  lemma {:induction false} HoldsFrame(v: Volume, v': Volume, ch: seq<nat>, data: Buf, size: nat, g: nat)
    requires Holds(v, ch, data, size, g) && |v'.clusters| == |v.clusters|
    requires forall i :: 0 <= i < |ch| ==> Has(v, ch[i]) && v'.clusters[ch[i]] == v.clusters[ch[i]]
    ensures Holds(v', ch, data, size, g)
    decreases |ch|
  {
    if data != [] && g < GUARD && ch != [] {
      HoldsFrame(v, v', ch[1..], data[Min(|data|, size)..], size, g + 1);
    }
  }

  lemma {:induction false} WriteDataElsewhere(v: Volume, ch: seq<nat>, kept: nat, data: Buf, size: nat, g: nat, c: nat)
    requires Uniform(v, size) && Numbers(v, ch) && c < |v.clusters| && c !in ch
    ensures WriteData(v, ch, kept, data, size, g).clusters[c] == v.clusters[c]
    decreases |ch|
  {
    if ch != [] && data != [] && g < GUARD {
      var take := Min(|data|, size);
      var v1 := WithCluster(v, ch[0], Overlay(Base(v, ch[0], size, kept), data[..take]));
      WriteDataElsewhere(v1, ch[1..], Less(kept, 1), data[take..], size, g + 1, c);
    }
  }

  lemma {:induction false} DistinctTail(ch: seq<nat>)
    requires Distinct(ch) && ch != []
    ensures Distinct(ch[1..]) && ch[0] !in ch[1..]
  {
  }

  lemma {:induction false} WriteDataHolds(v: Volume, ch: seq<nat>, kept: nat, data: Buf, size: nat, g: nat)
    requires Uniform(v, size) && Numbers(v, ch) && Distinct(ch)
    ensures Holds(WriteData(v, ch, kept, data, size, g), ch, data, size, g)
    decreases |ch|
  {
    if ch != [] && data != [] && g < GUARD {
      var take := Min(|data|, size);
      var block := Overlay(Base(v, ch[0], size, kept), data[..take]);
      var v1 := WithCluster(v, ch[0], block);
      DistinctTail(ch);
      WriteDataHolds(v1, ch[1..], Less(kept, 1), data[take..], size, g + 1);
      WriteDataElsewhere(v1, ch[1..], Less(kept, 1), data[take..], size, g + 1, ch[0]);
      assert block[0..take] == data[..take];
    }
  }

  lemma {:induction false} ReadStep(cluster: Buf, rest: Buf, data: Buf, size: nat, g: nat)
    requires size > 0 && |cluster| == size && |data| > size && g < GUARD
    requires cluster == data[..size]
    requires Shorten(rest, |data| - size) == Readable(data[size..], size, g + 1)
    ensures Shorten(cluster + rest, |data|) == Readable(data, size, g)
  {
    assert Shorten(cluster + rest, |data|) == cluster + Shorten(rest, |data| - size);
  }

  /** Reading along a chain that holds the data gives the data back, up to what one read visits. */
  lemma {:induction false} ReadHolds(v: Volume, ch: seq<nat>, data: Buf, size: nat, g: nat)
    requires size > 0 && ch != [] && data != [] && |data| <= |ch| * size && g < GUARD
    requires 0 < |v.clusters| <= Bad(Fat32) && Linked(v.fat, Fat32, ch, |v.clusters| - 1)
    requires Holds(v, ch, data, size, g)
    ensures var out := ReadFrom(v, ch[0], |data|, size, g);
            out.Some? && Shorten(out.value, |data|) == Readable(data, size, g)
    decreases |ch|
  {
    var cluster := v.clusters[ch[0]];
    if |data| <= size {
      assert data[..|data|] == data && data[|data|..] == [];
    } else {
      assert |ch| * size == (|ch| - 1) * size + size;
      var tail := ch[1..];
      assert (|ch| - 1) * size > 0;
      assert Next(v, ch[0]) == ch[1];
      forall i | 0 <= i < |tail| - 1
        ensures At(v.fat, Fat32, tail[i]) == tail[i + 1]
      {
        assert At(v.fat, Fat32, ch[i + 1]) == ch[i + 2];
      }
      if g + 1 < GUARD { ReadHolds(v, tail, data[size..], size, g + 1); }
      var rest := ReadFrom(v, ch[1], |data| - size, size, g + 1).value;
      ReadStep(cluster, rest, data, size, g);
    }
  }

  // ------------------------------------------------------- one write of one file

  /** The file's own clusters, and the directories of the path, as a sound volume has them. */
  ghost predicate Separate(v: Volume, f: Found, root: nat, path: seq<Buf>) {
    && Distinct(OldChain(v, f.entry.first))
    && SafePath(v, OldChain(v, f.entry.first), root, path)
  }

  lemma {:induction false} FindInIsSafe(v: Volume, ch: seq<nat>, c: nat, name: Buf, g: nat)
    requires SafeDir(v, ch, c, g) && FindIn(v, c, name, g).Some?
    ensures Safe(v, ch, FindIn(v, c, name, g).value.cluster)
    decreases GUARD - g
  {
    MatchIsListed(In(v, c), name);
    if Match(In(v, c), name).None? { FindInIsSafe(v, ch, Next(v, c), name, g + 1); }
  }

  lemma {:induction false} ResolveIsSafe(v: Volume, ch: seq<nat>, c: nat, path: seq<Buf>)
    requires SafePath(v, ch, c, path) && Resolve(v, c, path).Some?
    ensures Safe(v, ch, Resolve(v, c, path).value.cluster)
    decreases |path|
  {
    if |path| == 1 {
      FindInIsSafe(v, ch, c, path[0], 0);
    } else {
      ResolveIsSafe(v, ch, FindListed(v, c, path[0]).value.entry.first, path[1..]);
    }
  }

  lemma {:induction false} PlanElsewhere(v: Volume, ch: seq<nat>, n: nat, c: nat)
    requires |v.clusters| > 0 && Plan(v, ch, n).Some? && Next(v, c) != 0 && c !in ch
    ensures c !in Plan(v, ch, n).value.1 && At(Plan(v, ch, n).value.0, Fat32, c) == Next(v, c)
  {
    if n > |ch| {
      var max := |v.clusters| - 1;
      FreeFromFinds(v.fat, Fat32, 2, max, n - |ch|);
      ExtendElsewhere(v.fat, Fat32, ch, FreeFrom(v.fat, Fat32, 2, max, n - |ch|).value, c);
    }
  }

  lemma {:induction false} OldChainOwned(v: Volume, first: nat)
    requires Distinct(OldChain(v, first)) && |v.clusters| > 0
    ensures OwnChain(v.fat, Fat32, OldChain(v, first), |v.clusters| - 1)
  {
    if first >= 2 && |v.clusters| >= 3 && Walk(v.fat, Fat32, first, |v.clusters| - 1, 0).Some? {
      WalkIsLinked(v.fat, Fat32, first, |v.clusters| - 1, 0);
    }
  }

  /** The new clusters can be hung on: there are none, or the chain's last cluster has an entry in the table. */
  ghost predicate Hangs(e: seq<nat>, ch: seq<nat>, n: nat) { n <= |ch| || Tabled(e, ch) }

  /** The chain the data goes to is without repeats. */
  lemma {:induction false} PlanDistinct(v: Volume, first: nat, n: nat)
    requires |v.clusters| >= 3 && Distinct(OldChain(v, first)) && Plan(v, OldChain(v, first), n).Some?
    ensures Distinct(Plan(v, OldChain(v, first), n).value.1)
  {
    var ch, max := OldChain(v, first), |v.clusters| - 1;
    if n > |ch| {
      OldChainOwned(v, first);
      FreeFromFinds(v.fat, Fat32, 2, max, n - |ch|);
      var extra := FreeFrom(v.fat, Fat32, 2, max, n - |ch|).value;
      OwnedIsNotSpare(v.fat, Fat32, ch, extra, max);
      AscendingIsDistinct(extra);
      DistinctAppend(ch, extra);
    }
  }

  lemma {:induction false} GrownIsLinked(v: Volume, first: nat, n: nat)
    requires |v.clusters| >= 3 && Distinct(OldChain(v, first)) && Tabled(v.fat, OldChain(v, first)) && n > |OldChain(v, first)|
    requires Plan(v, OldChain(v, first), n).Some?
    ensures var plan := Plan(v, OldChain(v, first), n).value; IsChain(plan.0, Fat32, plan.1, |v.clusters| - 1)
  {
    var ch, max := OldChain(v, first), |v.clusters| - 1;
    OldChainOwned(v, first);
    FoundCanExtend(v.fat, Fat32, ch, max, n - |ch|);
    var extra := FreeFrom(v.fat, Fat32, 2, max, n - |ch|).value;
    ExtendMakesChain(v.fat, Fat32, ch, extra, max);
    assert Plan(v, ch, n).value == (Extend(v.fat, Fat32, ch, extra), ch + extra);
  }

  /** The chain the data goes to is linked, if the new clusters can be hung on. */
  lemma {:induction false} PlanIsLinked(v: Volume, first: nat, n: nat)
    requires |v.clusters| >= 3 && Distinct(OldChain(v, first)) && Hangs(v.fat, OldChain(v, first), n)
    requires Plan(v, OldChain(v, first), n).Some?
    ensures var plan := Plan(v, OldChain(v, first), n).value; Linked(plan.0, Fat32, plan.1, |v.clusters| - 1)
  {
    if n > |OldChain(v, first)| { GrownIsLinked(v, first, n); } else { OldChainOwned(v, first); }
  }

  /** Where they cannot, the last cluster of the old chain is past the table, and the old chain stays as it was. */
  lemma {:induction false} PlanStops(v: Volume, first: nat, n: nat)
    requires 3 <= |v.clusters| <= Bad(Fat32) && Distinct(OldChain(v, first)) && !Hangs(v.fat, OldChain(v, first), n)
    requires Plan(v, OldChain(v, first), n).Some?
    ensures var ch, plan := OldChain(v, first), Plan(v, OldChain(v, first), n).value;
            && ch != [] && |ch| <= GUARD && ch[|ch| - 1] >= |v.fat|
            && |plan.1| == n && plan.1[..|ch|] == ch && Linked(plan.0, Fat32, ch, |v.clusters| - 1)
            && At(plan.0, Fat32, ch[|ch| - 1]) == LastMark(Fat32)
            && forall i :: 0 <= i < |ch| ==> At(plan.0, Fat32, ch[i]) == At(v.fat, Fat32, ch[i])
  {
    var ch, max := OldChain(v, first), |v.clusters| - 1;
    OldChainOwned(v, first);
    WalkIsLinked(v.fat, Fat32, first, max, 0);
    LastUntabled(v.fat, ch, max);
    FreeFromFinds(v.fat, Fat32, 2, max, n - |ch|);
    var extra := FreeFrom(v.fat, Fat32, 2, max, n - |ch|).value;
    OwnedIsNotSpare(v.fat, Fat32, ch, extra, max);
    forall i | 0 <= i < |ch| ensures At(Extend(v.fat, Fat32, ch, extra), Fat32, ch[i]) == Next(v, ch[i]) {
      LinkUpElsewhere(v.fat, Fat32, extra, 0, ch[i]);
    }
    SameLinks(v.fat, Extend(v.fat, Fat32, ch, extra), ch, max);
  }

  lemma {:induction false} LastUntabled(e: seq<nat>, ch: seq<nat>, max: nat)
    requires Linked(e, Fat32, ch, max) && max < Bad(Fat32) && !Tabled(e, ch)
    ensures ch != [] && ch[|ch| - 1] >= |e|
  {
    forall i | 0 <= i < |ch| - 1 ensures ch[i] < |e| { assert At(e, Fat32, ch[i]) == ch[i + 1]; }
  }

  lemma {:induction false} SameLinks(e: seq<nat>, e': seq<nat>, ch: seq<nat>, max: nat)
    requires Linked(e, Fat32, ch, max) && forall i :: 0 <= i < |ch| ==> At(e', Fat32, ch[i]) == At(e, Fat32, ch[i])
    ensures Linked(e', Fat32, ch, max)
  {
    forall i | 0 <= i < |ch| - 1 ensures At(e', Fat32, ch[i]) == ch[i + 1] { assert At(e, Fat32, ch[i]) == ch[i + 1]; }
  }

  /** Outside the clusters written, the write only rewrites the entry. */
  lemma {:induction false} WriteToKeeps(v: Volume, f: Found, ch: seq<nat>, fat: seq<nat>, all: seq<nat>, data: Buf, size: nat, c: nat)
    requires Sound(v, size) && Stored(v, f) && all != [] && Numbers(v, all)
    requires all[0] < 0x1_0000_0000 && |data| < 0x1_0000_0000
    requires Has(v, c) && c !in all && f.cluster !in all
    ensures WriteTo(v, f, ch, fat, all, data, size).clusters[c] == After(v, Change(f, all[0], |data|), c)
  {
    var v1 := if |all| > |ch| then PatchEntry(v.(fat := fat), f, all[0], |data|) else v.(fat := fat);
    WriteDataElsewhere(v1, all, |ch|, data, size, 0, c);
    if c == f.cluster {
      PatchTwice(v.clusters[c], f.offset / SLOT, all[0], |data|);
    }
  }

  lemma {:induction false} WriteToHolds(v: Volume, f: Found, ch: seq<nat>, fat: seq<nat>, all: seq<nat>, data: Buf, size: nat)
    requires Sound(v, size) && Stored(v, f) && all != [] && Numbers(v, all) && Distinct(all)
    requires all[0] < 0x1_0000_0000 && |data| < 0x1_0000_0000 && f.cluster !in all
    ensures Holds(WriteTo(v, f, ch, fat, all, data, size), all, data, size, 0)
  {
    var v1 := if |all| > |ch| then PatchEntry(v.(fat := fat), f, all[0], |data|) else v.(fat := fat);
    var v2 := WriteData(v1, all, |ch|, data, size, 0);
    WriteDataHolds(v1, all, |ch|, data, size, 0);
    HoldsFrame(v2, PatchEntry(v2, f, all[0], |data|), all, data, size, 0);
  }

  /** The entry as a write of `data` leaves it. */
  ghost function Written(v: Volume, f: Found, data: Buf, size: nat): Change
    requires Sound(v, size)
  {
    if data == [] then Change(f, f.entry.first, 0)
    else
      var plan := Plan(v, OldChain(v, f.entry.first), Clusters(|data|, size));
      Change(f, if plan.None? || plan.value.1 == [] then 0 else plan.value.1[0], |data|)
  }

  lemma {:induction false} PlanReady(v: Volume, f: Found, data: Buf, size: nat)
    requires Sound(v, size) && data != []
    requires Plan(v, OldChain(v, f.entry.first), Clusters(|data|, size)).Some?
    ensures var all := Plan(v, OldChain(v, f.entry.first), Clusters(|data|, size)).value.1;
            Numbers(v, all) && |all| >= Clusters(|data|, size) && all != [] && all[0] < 0x1_0000_0000
  {
    OldChainNumbers(v, f.entry.first);
    PlanNumbers(v, OldChain(v, f.entry.first), Clusters(|data|, size));
    ClustersPositive(|data|, size);
  }

  /** A write keeps every cluster in use outside the file, up to the file's own entry. */
  lemma {:induction false} WriteEntryKeeps(v: Volume, f: Found, data: Buf, size: nat)
    requires Sound(v, size) && Stored(v, f) && |data| < 0x1_0000_0000
    requires WriteEntry(v, f, data, size).Some?
    requires Safe(v, OldChain(v, f.entry.first), f.cluster)
    ensures Kept(v, WriteEntry(v, f, data, size).value, OldChain(v, f.entry.first), Written(v, f, data, size))
  {
    var ch, v', d := OldChain(v, f.entry.first), WriteEntry(v, f, data, size).value, Written(v, f, data, size);
    if data != [] {
      PlanReady(v, f, data, size);
      var plan := Plan(v, ch, Clusters(|data|, size)).value;
      PlanElsewhere(v, ch, Clusters(|data|, size), f.cluster);
      forall c: nat
        ensures KeptAt(v, v', ch, d, c)
      {
        if Safe(v, ch, c) {
          PlanElsewhere(v, ch, Clusters(|data|, size), c);
          WriteToKeeps(v, f, ch, plan.0, plan.1, data, size, c);
        }
      }
    } else {
      assert forall c: nat :: KeptAt(v, v', ch, d, c);
    }
  }

  lemma {:induction false} EnoughRoom(n: nat, size: nat, k: nat)
    requires size > 0 && k >= Clusters(n, size)
    ensures n <= k * size
  {
    var q := Clusters(n, size);
    QuotDivides(n + size - 1, size);
    assert k * size == q * size + (k - q) * size;
    assert (k - q) * size >= 0;
  }

  /** The part of `data` that `k` clusters hold. */
  function Head(data: Buf, k: nat, size: nat): Buf { data[..Min(|data|, k * size)] }

  lemma {:induction false} HeadIsWhole(data: Buf, k: nat, size: nat)
    ensures Head(data, k, size) == data <==> |data| <= k * size
  {
    if |data| <= k * size { assert data[..|data|] == data; }
  }

  lemma {:induction false} HeadStep(data: Buf, k: nat, size: nat)
    requires k > 0 && k * size < |data|
    ensures size < |data| || k == 1
    ensures size <= |data| && (k - 1) * size <= |data| - size && k * size == (k - 1) * size + size
    ensures data[..size] + Head(data[size..], k - 1, size) == Head(data, k, size)
  {
    MulDistributes(k - 1, 1, size);
    if k > 1 { MulAtLeast(k - 1, size); }
  }

  /** Reading a chain whose last cluster is past the table stops there. */
  lemma {:induction false} ReadStops(v: Volume, ch: seq<nat>, data: Buf, size: nat, g: nat)
    requires size > 0 && ch != [] && |data| > |ch| * size && g + |ch| <= GUARD
    requires 0 < |v.clusters| <= Bad(Fat32) && Linked(v.fat, Fat32, ch, |v.clusters| - 1) && Next(v, ch[|ch| - 1]) >= Bad(Fat32)
    requires Holds(v, ch, data, size, g)
    ensures ReadFrom(v, ch[0], |data|, size, g) == Some(Head(data, |ch|, size))
    decreases |ch|
  {
    var cluster := v.clusters[ch[0]];
    HeadStep(data, |ch|, size);
    assert cluster == cluster[..size] == data[..size];
    if |ch| > 1 {
      var tail := ch[1..];
      assert Next(v, ch[0]) == ch[1];
      forall i | 0 <= i < |tail| - 1 ensures At(v.fat, Fat32, tail[i]) == tail[i + 1] {
        assert At(v.fat, Fat32, ch[i + 1]) == ch[i + 2];
      }
      ReadStops(v, tail, data[size..], size, g + 1);
    } else {
      assert Head(data[size..], 0, size) == [];
    }
  }

  lemma {:induction false} HoldsPrefix(v: Volume, ch: seq<nat>, k: nat, data: Buf, size: nat, g: nat)
    requires Holds(v, ch, data, size, g) && k <= |ch|
    ensures Holds(v, ch[..k], data, size, g)
    decreases |ch|
  {
    if data != [] && g < GUARD && k > 0 {
      HoldsPrefix(v, ch[1..], k - 1, data[Min(|data|, size)..], size, g + 1);
      assert ch[..k][1..] == ch[1..][..k - 1];
    }
  }

  lemma {:induction false} LittleRoom(n: nat, size: nat, k: nat)
    requires size > 0 && k < Clusters(n, size)
    ensures k * size < n
  {
    var q := Clusters(n, size);
    QuotDivides(n + size - 1, size);
    MulDistributes(q, k, size);
    MulAtLeast(q - k, size);
  }

  /** How many clusters a read visits after a write that takes `n` clusters. */
  ghost function Visits(v: Volume, first: nat, n: nat): nat {
    if Hangs(v.fat, OldChain(v, first), n) then GUARD else |OldChain(v, first)|
  }

  lemma {:induction false} HungReads(v: Volume, f: Found, data: Buf, size: nat)
    requires Sound(v, size) && Stored(v, f) && 0 < |data| < 0x1_0000_0000
    requires WriteEntry(v, f, data, size).Some? && Hangs(v.fat, OldChain(v, f.entry.first), Clusters(|data|, size))
    requires Safe(v, OldChain(v, f.entry.first), f.cluster) && Distinct(OldChain(v, f.entry.first))
    ensures var out := ReadFrom(WriteEntry(v, f, data, size).value, Written(v, f, data, size).first, |data|, size, 0);
            out.Some? && Shorten(out.value, |data|) == Readable(data, size, 0)
  {
    var ch, v', n := OldChain(v, f.entry.first), WriteEntry(v, f, data, size).value, Clusters(|data|, size);
    PlanReady(v, f, data, size);
    var plan := Plan(v, ch, n).value;
    PlanElsewhere(v, ch, n, f.cluster);
    PlanDistinct(v, f.entry.first, n);
    PlanIsLinked(v, f.entry.first, n);
    WriteToHolds(v, f, ch, plan.0, plan.1, data, size);
    EnoughRoom(|data|, size, |plan.1|);
    ReadHolds(v', plan.1, data, size, 0);
  }

  /** A write that cannot be hung on leaves the old chain, with the first bytes, as all that is linked. */
  lemma {:induction false} StoppedLayout(v: Volume, f: Found, data: Buf, size: nat, v': Volume)
    requires Sound(v, size) && Stored(v, f) && 0 < |data| < 0x1_0000_0000
    requires WriteEntry(v, f, data, size) == Some(v') && !Hangs(v.fat, OldChain(v, f.entry.first), Clusters(|data|, size))
    requires Safe(v, OldChain(v, f.entry.first), f.cluster) && Distinct(OldChain(v, f.entry.first))
    ensures var ch := OldChain(v, f.entry.first);
            && ch != [] && |ch| <= GUARD && |v'.clusters| == |v.clusters| && Written(v, f, data, size).first == ch[0]
            && Linked(v'.fat, Fat32, ch, |v.clusters| - 1) && Next(v', ch[|ch| - 1]) == LastMark(Fat32)
            && Holds(v', ch, data, size, 0)
  {
    var ch, n := OldChain(v, f.entry.first), Clusters(|data|, size);
    PlanReady(v, f, data, size);
    var plan := Plan(v, ch, n).value;
    PlanElsewhere(v, ch, n, f.cluster);
    PlanDistinct(v, f.entry.first, n);
    PlanStops(v, f.entry.first, n);
    WriteToHolds(v, f, ch, plan.0, plan.1, data, size);
    HoldsPrefix(v', plan.1, |ch|, data, size, 0);
    assert plan.1[0] == plan.1[..|ch|][0];
  }

  lemma {:induction false} StoppedReads(v: Volume, f: Found, data: Buf, size: nat, v': Volume)
    requires Sound(v, size) && Stored(v, f) && 0 < |data| < 0x1_0000_0000
    requires WriteEntry(v, f, data, size) == Some(v') && !Hangs(v.fat, OldChain(v, f.entry.first), Clusters(|data|, size))
    requires Safe(v, OldChain(v, f.entry.first), f.cluster) && Distinct(OldChain(v, f.entry.first))
    ensures var ch := OldChain(v, f.entry.first);
            && ch != [] && Written(v, f, data, size).first == ch[0]
            && ReadFrom(v', ch[0], |data|, size, 0) == Some(Head(data, |ch|, size))
  {
    StoppedLayout(v, f, data, size, v');
    ReadsShort(v', OldChain(v, f.entry.first), data, size);
  }

  lemma {:induction false} ReadsShort(v: Volume, ch: seq<nat>, data: Buf, size: nat)
    requires size > 0 && ch != [] && |ch| < Clusters(|data|, size) && |ch| <= GUARD
    requires 0 < |v.clusters| <= Bad(Fat32) && Linked(v.fat, Fat32, ch, |v.clusters| - 1) && Next(v, ch[|ch| - 1]) >= Bad(Fat32)
    requires Holds(v, ch, data, size, 0)
    ensures ReadFrom(v, ch[0], |data|, size, 0) == Some(Head(data, |ch|, size))
  {
    LittleRoom(|data|, size, |ch|);
    ReadStops(v, ch, data, size, 0);
  }

  /** After the write the volume is kept as above, and the path leads to the rewritten entry. */
  lemma {:induction false} AfterWrite(v: Volume, root: nat, path: seq<Buf>, data: Buf, size: nat)
    requires Sound(v, size) && |data| < 0x1_0000_0000
    requires WriteFile(v, root, path, data, size).Some?
    requires Separate(v, Resolve(v, root, path).value, root, path)
    ensures var f, v' := Resolve(v, root, path).value, WriteFile(v, root, path, data, size).value;
            && Stored(v, f) && Safe(v, OldChain(v, f.entry.first), f.cluster)
            && Kept(v, v', OldChain(v, f.entry.first), Written(v, f, data, size))
            && Resolve(v', root, path) == Some(Changed(f, Written(v, f, data, size)))
  {
    var f := Resolve(v, root, path).value;
    var ch, v', d := OldChain(v, f.entry.first), WriteFile(v, root, path, data, size).value, Written(v, f, data, size);
    ResolveStored(v, root, path);
    ResolveIsSafe(v, ch, root, path);
    WriteEntryKeeps(v, f, data, size);
    ResolveChanged(v, v', ch, d, root, path);
  }

  lemma {:induction false} ReadsWritten(v: Volume, f: Found, data: Buf, size: nat)
    requires Sound(v, size) && Stored(v, f) && |data| < 0x1_0000_0000 && !f.entry.IsDir()
    requires WriteEntry(v, f, data, size).Some?
    requires Safe(v, OldChain(v, f.entry.first), f.cluster) && Distinct(OldChain(v, f.entry.first))
    ensures ReadEntry(WriteEntry(v, f, data, size).value, Changed(f, Written(v, f, data, size)).entry, size)
            == Some(Head(data, Visits(v, f.entry.first, Clusters(|data|, size)), size))
  {
    if data != [] {
      PlanReady(v, f, data, size);
      if Hangs(v.fat, OldChain(v, f.entry.first), Clusters(|data|, size)) {
        HungReads(v, f, data, size);
        ReadableIs(data, size, 0);
      } else {
        StoppedReads(v, f, data, size, WriteEntry(v, f, data, size).value);
      }
    }
  }

  /** What a read gives after a write of `data`. */
  ghost function Back(v: Volume, root: nat, path: seq<Buf>, data: Buf, size: nat): Buf
    requires size > 0
  {
    var f := Resolve(v, root, path);
    if f.None? then [] else Head(data, Visits(v, f.value.entry.first, Clusters(|data|, size)), size)
  }

  /**
   A file that was written reads back as the data, cut only where one read stops after its greatest
   number of clusters, or where the table has no entry to hang the new clusters on.
   */
  lemma {:induction false} WrittenFileReadsBack(v: Volume, root: nat, path: seq<Buf>, data: Buf, size: nat)
    requires Sound(v, size) && |data| < 0x1_0000_0000
    requires WriteFile(v, root, path, data, size).Some?
    requires Separate(v, Resolve(v, root, path).value, root, path)
    ensures ReadFile(WriteFile(v, root, path, data, size).value, root, path, size) == Some(Back(v, root, path, data, size))
  {
    AfterWrite(v, root, path, data, size);
    ReadsWritten(v, Resolve(v, root, path).value, data, size);
  }

  /** The data fits in the clusters one read visits, and what the file lacks can be hung on its chain. */
  ghost predicate FitsWhole(v: Volume, root: nat, path: seq<Buf>, data: Buf, size: nat)
    requires size > 0
  {
    var f := Resolve(v, root, path);
    f.Some? && |data| <= GUARD * size && Hangs(v.fat, OldChain(v, f.value.entry.first), Clusters(|data|, size))
  }

  /** So the write is complete exactly then. */
  lemma {:induction false} ReadsBackWholeIff(v: Volume, root: nat, path: seq<Buf>, data: Buf, size: nat)
    requires Sound(v, size) && |data| < 0x1_0000_0000
    requires WriteFile(v, root, path, data, size).Some?
    requires Separate(v, Resolve(v, root, path).value, root, path)
    ensures ReadFile(WriteFile(v, root, path, data, size).value, root, path, size) == Some(data)
            <==> FitsWhole(v, root, path, data, size)
  {
    WrittenFileReadsBack(v, root, path, data, size);
    var first := Resolve(v, root, path).value.entry.first;
    var n := Clusters(|data|, size);
    if !Hangs(v.fat, OldChain(v, first), n) { LittleRoom(|data|, size, |OldChain(v, first)|); }
    HeadIsWhole(data, Visits(v, first, n), size);
  }

  /** With an entry for every cluster, only the number of clusters counts. */
  lemma {:induction false} CoveredIsTabled(v: Volume, first: nat)
    requires |v.clusters| <= |v.fat|
    ensures Tabled(v.fat, OldChain(v, first))
  {
    OldChainNumbers(v, first);
    var ch := OldChain(v, first);
    assert forall i :: 0 <= i < |ch| ==> Has(v, ch[i]);
  }

  // ---------------------------------------------------------------- other files

  /** The clusters that reading a file visits are outside the file written and hold no directory entry of it. */
  ghost predicate SafeFile(v: Volume, ch: seq<nat>, at: nat, c: nat, remaining: nat, size: nat, g: nat)
    decreases GUARD - g, v
  {
    c < 2 || remaining == 0 || g >= GUARD || !Has(v, c) ||
    (&& Safe(v, ch, c) && c != at
     && (Next(v, c) >= Bad(Fat32) || SafeFile(v, ch, at, Next(v, c), Less(remaining, size), size, g + 1)))
  }

  lemma {:induction false} ReadFromKept(
      v: Volume, v': Volume, ch: seq<nat>, d: Change, c: nat, remaining: nat, size: nat, g: nat)
    requires Kept(v, v', ch, d) && SafeFile(v, ch, d.at.cluster, c, remaining, size, g)
    ensures ReadFrom(v', c, remaining, size, g) == ReadFrom(v, c, remaining, size, g)
    decreases GUARD - g
  {
    if 2 <= c && remaining > 0 && g < GUARD && Has(v, c) {
      assert KeptAt(v, v', ch, d, c);
      if Next(v, c) < Bad(Fat32) { ReadFromKept(v, v', ch, d, Next(v, c), Less(remaining, size), size, g + 1); }
    }
  }

  /** A write leaves what every other path reads as it was. */
  lemma {:induction false} OtherFilesKept(v: Volume, root: nat, path: seq<Buf>, data: Buf, size: nat, other: seq<Buf>)
    requires Sound(v, size) && |data| < 0x1_0000_0000
    requires WriteFile(v, root, path, data, size).Some?
    requires Separate(v, Resolve(v, root, path).value, root, path)
    requires var f := Resolve(v, root, path).value;
             var ch, x := OldChain(v, f.entry.first), Resolve(v, root, other);
             && SafePath(v, ch, root, other)
             && (x.Some? ==>
                   && (x.value.cluster, x.value.offset) != (f.cluster, f.offset)
                   && SafeFile(v, ch, f.cluster, x.value.entry.first, x.value.entry.size, size, 0))
    ensures ReadFile(WriteFile(v, root, path, data, size).value, root, other, size)
            == ReadFile(v, root, other, size)
  {
    var f, x := Resolve(v, root, path).value, Resolve(v, root, other);
    var ch, v', d := OldChain(v, f.entry.first), WriteFile(v, root, path, data, size).value, Written(v, f, data, size);
    AfterWrite(v, root, path, data, size);
    ResolveChanged(v, v', ch, d, root, other);
    if x.Some? {
      ReadFromKept(v, v', ch, d, x.value.entry.first, x.value.entry.size, size, 0);
    }
  }

  /** An end-marked chain is the one the write finds, and it never repeats a cluster. */
  lemma {:induction false} EndMarkedIsFound(v: Volume, ch: seq<nat>)
    requires 3 <= |v.clusters| <= Bad(Fat32) && IsChain(v.fat, Fat32, ch, |v.clusters| - 1) && |ch| <= GUARD
    ensures OldChain(v, ch[0]) == ch && Distinct(OldChain(v, ch[0]))
  {
    WalkFindsChain(v.fat, Fat32, ch, |v.clusters| - 1, 0);
    ChainIsDistinct(v.fat, Fat32, ch, |v.clusters| - 1);
  }

  /** So a file with an end-marked chain, off the directories of its path, can be written and read back. */
  lemma {:induction false} EndMarkedIsSeparate(v: Volume, f: Found, root: nat, path: seq<Buf>, ch: seq<nat>)
    requires 3 <= |v.clusters| <= Bad(Fat32) && IsChain(v.fat, Fat32, ch, |v.clusters| - 1) && |ch| <= GUARD
    requires f.entry.first == ch[0] && SafePath(v, ch, root, path)
    ensures Separate(v, f, root, path)
  {
    EndMarkedIsFound(v, ch);
  }

  // ------------------------------------------------------- the next write can follow

  /** The walk of a chain stops at its end or after its greatest number of steps. */
  lemma {:induction false} WalkTakes(e: seq<nat>, ch: seq<nat>, max: nat, g: nat)
    requires IsChain(e, Fat32, ch, max) && max < Bad(Fat32) && g <= GUARD
    ensures Walk(e, Fat32, ch[0], max, g) == Some(ch[..Min(|ch|, GUARD - g)])
    decreases |ch|
  {
    if g < GUARD {
      if |ch| == 1 {
        assert ch[..1] == [ch[0]];
      } else {
        ChainTail(e, Fat32, ch, max);
        WalkTakes(e, ch[1..], max, g + 1);
        var k := Min(|ch| - 1, GUARD - g - 1);
        assert [ch[0]] + ch[1..][..k] == ch[..k + 1];
      }
    }
  }

  /** Every safe cluster stays safe, for the chain that the file has after the write. */
  ghost predicate StaysSafe(v: Volume, v': Volume, ch: seq<nat>, ch': seq<nat>, c: nat) {
    Safe(v, ch, c) ==> Safe(v', ch', c) && Next(v', c) == Next(v, c)
  }

  lemma {:induction false} SafeDirKept(v: Volume, v': Volume, ch: seq<nat>, ch': seq<nat>, c: nat, g: nat)
    requires |v'.clusters| == |v.clusters| && (forall x: nat :: StaysSafe(v, v', ch, ch', x)) && SafeDir(v, ch, c, g)
    ensures SafeDir(v', ch', c, g)
    decreases GUARD - g
  {
    if 2 <= c && g < GUARD && Has(v, c) {
      assert StaysSafe(v, v', ch, ch', c);
      if Next(v, c) < Bad(Fat32) { SafeDirKept(v, v', ch, ch', Next(v, c), g + 1); }
    }
  }

  lemma {:induction false} SafePathKept(v: Volume, v': Volume, ch: seq<nat>, ch': seq<nat>, d: Change, c: nat, path: seq<Buf>)
    requires Kept(v, v', ch, d) && !d.at.entry.IsDir() && SafePath(v, ch, c, path)
    requires forall x: nat :: StaysSafe(v, v', ch, ch', x)
    ensures SafePath(v', ch', c, path)
    decreases |path|
  {
    if path != [] {
      SafeDirKept(v, v', ch, ch', c, 0);
      if |path| > 1 {
        FindListedChanged(v, v', ch, d, c, path[0]);
        var dir := FindListed(v, c, path[0]);
        if dir.Some? {
          FindListedIsStored(v, c, path[0]);
          DirIsNotChanged(v, d, dir.value);
          if Enterable(dir.value.entry) { SafePathKept(v, v', ch, ch', d, dir.value.entry.first, path[1..]); }
        }
      }
    }
  }

  lemma {:induction false} OldChainStarts(v: Volume, first: nat)
    ensures OldChain(v, first) != [] ==> OldChain(v, first)[0] == first
  {
    if first >= 2 && |v.clusters| >= 3 && Walk(v.fat, Fat32, first, |v.clusters| - 1, 0).Some? {
      WalkIsLinked(v.fat, Fat32, first, |v.clusters| - 1, 0);
    }
  }

  lemma {:induction false} WalkFrame(e: seq<nat>, e': seq<nat>, c: nat, max: nat, g: nat, ch: seq<nat>)
    requires Walk(e, Fat32, c, max, g) == Some(ch)
    requires forall i :: 0 <= i < |ch| ==> At(e', Fat32, ch[i]) == At(e, Fat32, ch[i])
    ensures Walk(e', Fat32, c, max, g) == Some(ch)
    decreases GUARD - g
  {
    if 2 <= c <= max && g < GUARD {
      assert ch[0] == c;
      if At(e, Fat32, c) < Eoc(Fat32) {
        var rest := Walk(e, Fat32, At(e, Fat32, c), max, g + 1).value;
        assert ch == [c] + rest;
        forall i | 0 <= i < |rest| ensures At(e', Fat32, rest[i]) == At(e, Fat32, rest[i]) { assert rest[i] == ch[i + 1]; }
        WalkFrame(e, e', At(e, Fat32, c), max, g + 1, rest);
      }
    }
  }

  lemma {:induction false} GrownChain(v: Volume, first: nat, n: nat, v': Volume)
    requires 3 <= |v.clusters| <= Bad(Fat32) && |v'.clusters| == |v.clusters|
    requires Distinct(OldChain(v, first)) && n > |OldChain(v, first)| && Plan(v, OldChain(v, first), n).Some?
    requires v'.fat == Plan(v, OldChain(v, first), n).value.0 && Tabled(v.fat, OldChain(v, first))
    ensures var all := Plan(v, OldChain(v, first), n).value.1; all != [] && OldChain(v', all[0]) == all[..Min(|all|, GUARD)]
  {
    GrownIsLinked(v, first, n);
    WalkTakes(v'.fat, Plan(v, OldChain(v, first), n).value.1, |v.clusters| - 1, 0);
  }

  lemma {:induction false} StoppedChain(v: Volume, first: nat, n: nat, v': Volume)
    requires 3 <= |v.clusters| <= Bad(Fat32) && |v'.clusters| == |v.clusters|
    requires Distinct(OldChain(v, first)) && Plan(v, OldChain(v, first), n).Some? && !Hangs(v.fat, OldChain(v, first), n)
    requires v'.fat == Plan(v, OldChain(v, first), n).value.0
    ensures var all := Plan(v, OldChain(v, first), n).value.1; all != [] && OldChain(v', all[0]) == OldChain(v, first)
  {
    PlanStops(v, first, n);
    OldChainStarts(v, first);
    var ch, all := OldChain(v, first), Plan(v, OldChain(v, first), n).value.1;
    assert all[0] == all[..|ch|][0] == first;
    WalkFrame(v.fat, v'.fat, first, |v.clusters| - 1, 0, ch);
  }

  lemma {:induction false} SameChain(v: Volume, first: nat, v': Volume)
    requires |v'.clusters| == |v.clusters| && v'.fat == v.fat && OldChain(v, first) != []
    ensures var ch := OldChain(v, first); OldChain(v', ch[0]) == ch == ch[..Min(|ch|, GUARD)]
  {
    var ch := OldChain(v, first);
    assert first >= 2 && |v.clusters| >= 3 && Walk(v.fat, Fat32, first, |v.clusters| - 1, 0) == Some(ch);
    WalkIsLinked(v.fat, Fat32, first, |v.clusters| - 1, 0);
    assert ch[..|ch|] == ch;
  }

  /** After the write the file's chain is the one planned, as far as a walk goes; or the old one, if it cannot grow. */
  lemma {:induction false} NewChain(v: Volume, first: nat, n: nat, v': Volume)
    requires 3 <= |v.clusters| <= Bad(Fat32) && |v'.clusters| == |v.clusters|
    requires n > 0 && Distinct(OldChain(v, first)) && Plan(v, OldChain(v, first), n).Some?
    requires v'.fat == Plan(v, OldChain(v, first), n).value.0
    ensures var ch, all := OldChain(v, first), Plan(v, OldChain(v, first), n).value.1;
            all != [] && OldChain(v', all[0]) == if Hangs(v.fat, ch, n) then all[..Min(|all|, GUARD)] else ch
  {
    var ch := OldChain(v, first);
    if n <= |ch| {
      SameChain(v, first, v');
    } else if Tabled(v.fat, ch) {
      GrownChain(v, first, n, v');
    } else {
      StoppedChain(v, first, n, v');
    }
  }

  lemma {:induction false} PlanUses(v: Volume, ch: seq<nat>, n: nat, k: nat)
    requires |v.clusters| > 0 && Plan(v, ch, n).Some? && k <= |Plan(v, ch, n).value.1|
    ensures forall c :: c in Plan(v, ch, n).value.1[..k] && Next(v, c) != 0 ==> c in ch
  {
    var all := Plan(v, ch, n).value.1;
    forall c | c in all[..k] && Next(v, c) != 0
      ensures c in ch
    {
      if c !in ch { PlanElsewhere(v, ch, n, c); }
    }
  }

  /** The planned chain, as far as a walk goes, is without repeats and takes no safe cluster. */
  lemma {:induction false} PlannedIsApart(v: Volume, first: nat, n: nat)
    requires 3 <= |v.clusters| && Distinct(OldChain(v, first)) && Plan(v, OldChain(v, first), n).Some?
    ensures var ch := OldChain(v, first);
            var all := Plan(v, ch, n).value.1;
            var walked := all[..Min(|all|, GUARD)];
            Distinct(walked) && forall c :: c in walked && Next(v, c) != 0 ==> c in ch
  {
    var ch := OldChain(v, first);
    var all := Plan(v, ch, n).value.1;
    PlanDistinct(v, first, n);
    PrefixOfDistinct(all, Min(|all|, GUARD));
    PlanUses(v, ch, n, Min(|all|, GUARD));
  }

  lemma {:induction false} PrefixOfDistinct(s: seq<nat>, k: nat)
    requires Distinct(s) && k <= |s|
    ensures Distinct(s[..k])
  {
  }

  lemma {:induction false} WrittenChain(v: Volume, f: Found, data: Buf, size: nat, v': Volume)
    requires Sound(v, size) && Stored(v, f) && 0 < |data| < 0x1_0000_0000 && WriteEntry(v, f, data, size) == Some(v')
    ensures var plan := Plan(v, OldChain(v, f.entry.first), Clusters(|data|, size));
            && plan.Some? && plan.value.1 != [] && Clusters(|data|, size) > 0
            && v'.fat == plan.value.0 && |v'.clusters| == |v.clusters|
            && Written(v, f, data, size).first == plan.value.1[0]
  {
    PlanReady(v, f, data, size);
    ClustersPositive(|data|, size);
  }

  /** The chain after the write is without repeats, and holds no safe cluster. */
  lemma {:induction false} ChainAfterWrite(v: Volume, f: Found, data: Buf, size: nat, v': Volume)
    requires Sound(v, size) && Stored(v, f) && |data| < 0x1_0000_0000 && WriteEntry(v, f, data, size) == Some(v')
    requires Distinct(OldChain(v, f.entry.first))
    ensures var ch, ch' := OldChain(v, f.entry.first), OldChain(v', Written(v, f, data, size).first);
            Distinct(ch') && forall c :: c in ch' && Next(v, c) != 0 ==> c in ch
  {
    if data == [] {
      EmptyWritten(v, f, size, v');
    } else {
      WrittenNext(v, f, data, size, v');
      PlannedIsApart(v, f.entry.first, Clusters(|data|, size));
    }
  }

  lemma {:induction false} EmptyWritten(v: Volume, f: Found, size: nat, v': Volume)
    requires Sound(v, size) && Stored(v, f) && WriteEntry(v, f, [], size) == Some(v')
    ensures OldChain(v', Written(v, f, [], size).first) == OldChain(v, f.entry.first)
  {
  }

  lemma {:induction false} WrittenNext(v: Volume, f: Found, data: Buf, size: nat, v': Volume)
    requires Sound(v, size) && Stored(v, f) && 0 < |data| < 0x1_0000_0000 && WriteEntry(v, f, data, size) == Some(v')
    requires Distinct(OldChain(v, f.entry.first))
    ensures var ch, n := OldChain(v, f.entry.first), Clusters(|data|, size);
            && Plan(v, ch, n).Some?
            && var all := Plan(v, ch, n).value.1;
               OldChain(v', Written(v, f, data, size).first) == if Hangs(v.fat, ch, n) then all[..Min(|all|, GUARD)] else ch
  {
    WrittenChain(v, f, data, size, v');
    NewChain(v, f.entry.first, Clusters(|data|, size), v');
  }

  /** A write leaves the volume fit for the next write of the same path. */
  lemma {:induction false} SeparateKept(v: Volume, root: nat, path: seq<Buf>, data: Buf, size: nat)
    requires Sound(v, size) && |data| < 0x1_0000_0000
    requires WriteFile(v, root, path, data, size).Some?
    requires Separate(v, Resolve(v, root, path).value, root, path)
    ensures var v' := WriteFile(v, root, path, data, size).value;
            Resolve(v', root, path).Some? && Separate(v', Resolve(v', root, path).value, root, path)
  {
    var f, v' := Resolve(v, root, path).value, WriteFile(v, root, path, data, size).value;
    var d := Written(v, f, data, size);
    var ch, ch' := OldChain(v, f.entry.first), OldChain(v', d.first);
    AfterWrite(v, root, path, data, size);
    ChainAfterWrite(v, f, data, size, v');
    forall c: nat ensures StaysSafe(v, v', ch, ch', c) { assert KeptAt(v, v', ch, d, c); }
    SafePathKept(v, v', ch, ch', d, root, path);
  }
}
