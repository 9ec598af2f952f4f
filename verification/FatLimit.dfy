/** Files longer than one read or write visits: when a write succeeds, and a volume on which it does. */
module FatLimit {
  import opened Arith
  import opened Bytes
  import opened FatAlloc
  import opened FatDir
  import opened FatFiles
  import opened FatRoundTrip
  import opened FatTable
  import opened Options

  lemma {:induction false} PlanIff(v: Volume, ch: seq<nat>, n: nat)
    requires |v.clusters| > 0
    ensures Plan(v, ch, n).Some? <==> n <= |ch| + CountFree(v.fat, Fat32, 2, |v.clusters| - 1)
  {
    if n > |ch| { FreeFromFinds(v.fat, Fat32, 2, |v.clusters| - 1, n - |ch|); }
  }

  /** What the clusters of a file and the free ones can hold. */
  ghost function Available(v: Volume, f: Found): nat
    requires |v.clusters| > 0
  {
    |OldChain(v, f.entry.first)| + CountFree(v.fat, Fat32, 2, |v.clusters| - 1)
  }

  lemma {:induction false} EntryWriteIff(v: Volume, f: Found, data: Buf, size: nat)
    requires Sound(v, size) && Stored(v, f) && |data| < 0x1_0000_0000
    ensures WriteEntry(v, f, data, size).Some? <==> data == [] || Clusters(|data|, size) <= Available(v, f)
  {
    PlanIff(v, OldChain(v, f.entry.first), Clusters(|data|, size));
  }

  /** A write to a file succeeds exactly when the file's clusters and the free ones suffice. */
  lemma {:induction false} WriteSucceedsIff(v: Volume, root: nat, path: seq<Buf>, data: Buf, size: nat)
    requires Sound(v, size) && |data| < 0x1_0000_0000
    requires Resolve(v, root, path).Some? && !Resolve(v, root, path).value.entry.IsDir()
    ensures WriteFile(v, root, path, data, size).Some? <==>
      data == [] || Clusters(|data|, size) <= Available(v, Resolve(v, root, path).value)
  {
    var f := Resolve(v, root, path).value;
    ResolveStored(v, root, path);
    EntryWriteIff(v, f, data, size);
  }

  // ---------------------------------------------------------------- the volumes

  const SIZE: nat := 512
  const BASE: Buf := [0x41, 0x41, 0x41, 0x41, 0x41, 0x41, 0x41, 0x41]
  const EXT: Buf := [0x42, 0x42, 0x42]
  const PATH: seq<Buf> := [BASE + [0x2E] + EXT]

  /** A directory cluster with one entry, an empty file whose first cluster is `first`. */
  function Directory(first: byte): (d: Buf)
    ensures |d| == SIZE
  {
    BASE + EXT + [0x20] + Zeros(14) + [first] + Zeros(485)
  }

  /** A volume of `n` clusters and a table of `k` entries: cluster 2 is the directory, no entry but its own is in use. */
  ghost function OneFile(n: nat, k: nat, first: byte): Volume
    requires n >= 3 && k >= 3
  {
    Volume(seq(k, _ => 0)[2 := Eoc(Fat32)], seq(n, _ => Zeros(SIZE))[2 := Directory(first)])
  }

  lemma {:induction false} NameReads()
    ensures ShortName(BASE + EXT) == Some(PATH[0])
  {
    var eleven := BASE + EXT;
    assert eleven[..8] == BASE && eleven[8..] == EXT;
    assert TrimLeft(BASE) == BASE && TrimRight(BASE) == BASE && TrimLeft(EXT) == EXT && TrimRight(EXT) == EXT;
    assert Upper(BASE) == BASE && Upper(EXT) == EXT;
    assert BASE + ([0x2E] + EXT) == PATH[0];
  }

  lemma {:induction false} EntryParses(first: byte)
    ensures Parse(SlotAt(Directory(first), 0)) == Plain(0x20, Some(PATH[0]), first as nat, 0)
    ensures Parse(SlotAt(Directory(first), 1)) == End
  {
    var s := SlotAt(Directory(first), 0);
    assert s[..11] == BASE + EXT;
    NameReads();
    assert s[0] == 0x41 && s[11] == 0x20 && s[26] == first;
    assert forall i :: 12 <= i < SLOT && i != 26 ==> s[i] == 0;
    assert s[20..22] == [0, 0] && s[26..28] == [first, 0] && s[28..32] == [0, 0, 0, 0];
    assert SlotAt(Directory(first), 1)[0] == 0;
  }

  lemma {:induction false} EntryListed(first: byte)
    ensures Records(Directory(first)) == [Record(Entry(PATH[0], 0x20, first as nat, 0), 0)]
  {
    EntryParses(first);
    var slots := Slots(Directory(first));
    assert slots[0] == Plain(0x20, Some(PATH[0]), first as nat, 0) && slots[1] == End;
    assert Scan(slots, 1, Carry(slots[0], [])) == [];
    assert NameOf(Some(PATH[0]), []) == Some(PATH[0]);
  }

  lemma {:induction false} FreeBelow(e: seq<nat>, c: nat, k: nat, max: nat)
    requires c <= max + 1 && c <= k
    requires forall i: nat :: c <= i <= max ==> (At(e, Fat32, i) == 0 <==> i < k)
    ensures CountFree(e, Fat32, c, max) == if k <= max then k - c else max + 1 - c
    decreases max + 1 - c
  {
    if c <= max { FreeBelow(e, c + 1, if k == c then c + 1 else k, max); }
  }

  /** The path leads to the file, past the clusters of no chain but the directory's. */
  lemma {:induction false} OneFileIs(n: nat, k: nat, first: byte, ch: seq<nat>)
    requires 3 <= n <= Bad(Fat32) && k >= 3 && 2 !in ch
    ensures var v := OneFile(n, k, first);
      && Sound(v, SIZE) && Resolve(v, 2, PATH) == Some(Found(Entry(PATH[0], 0x20, first as nat, 0), 2, 0))
      && SafePath(v, ch, 2, PATH)
  {
    var v := OneFile(n, k, first);
    EntryListed(first);
    assert v.clusters[2] == Directory(first);
    assert In(v, 2) == [Found(Entry(PATH[0], 0x20, first as nat, 0), 2, 0)];
    assert FindIn(v, 2, PATH[0], 0) == Some(Found(Entry(PATH[0], 0x20, first as nat, 0), 2, 0));
    assert Next(v, 2) == Eoc(Fat32);
    assert SafeDir(v, ch, 2, 0);
  }

  // ------------------------------------------------------------- a file too long

  lemma {:induction false} FewClusters(n: nat)
    requires n < 0x1_0000_0000
    ensures Clusters(n, SIZE) + 3 <= Bad(Fat32)
  {
    QuotDivides(n + SIZE - 1, SIZE);
  }

  lemma {:induction false} EmptyFileHangs(n: nat, k: nat, data: Buf)
    requires 3 <= n <= k && n <= Bad(Fat32)
    ensures var v := OneFile(n, k, 0);
      && Sound(v, SIZE) && Resolve(v, 2, PATH).Some? && !Resolve(v, 2, PATH).value.entry.IsDir()
      && Separate(v, Resolve(v, 2, PATH).value, 2, PATH) && Available(v, Resolve(v, 2, PATH).value) == n - 3
      && Back(v, 2, PATH, data, SIZE) == Head(data, GUARD, SIZE)
  {
    OneFileIs(n, k, 0, []);
    FreeBelow(OneFile(n, k, 0).fat, 3, k, n - 1);
  }

  /**
   Any data of more than 0x100000 clusters: there is a volume on which its write succeeds, and the next read
   gives only the part that one write and one read visit.
   */
  lemma {:induction false} LongFileIsCut(data: Buf)
    requires GUARD * SIZE < |data| < 0x1_0000_0000
    ensures var n := Clusters(|data|, SIZE) + 3;
      && Sound(OneFile(n, n, 0), SIZE) && WriteFile(OneFile(n, n, 0), 2, PATH, data, SIZE).Some?
      && ReadFile(WriteFile(OneFile(n, n, 0), 2, PATH, data, SIZE).value, 2, PATH, SIZE) == Some(data[..GUARD * SIZE])
  {
    var n := Clusters(|data|, SIZE) + 3;
    FewClusters(|data|);
    EmptyFileHangs(n, n, data);
    WriteSucceedsIff(OneFile(n, n, 0), 2, PATH, data, SIZE);
    WrittenFileReadsBack(OneFile(n, n, 0), 2, PATH, data, SIZE);
  }

  // ---------------------------------------------------------------- a short table

  /** The file's one cluster, `first`, lies past the table of `k` entries, of which all but the directory's are free. */
  lemma {:induction false} ShortVolume(n: nat, k: nat, first: byte)
    requires 3 < k <= first as nat < n <= Bad(Fat32)
    ensures var v := OneFile(n, k, first);
      && Sound(v, SIZE) && Resolve(v, 2, PATH).Some? && !Resolve(v, 2, PATH).value.entry.IsDir()
      && Resolve(v, 2, PATH).value.entry.first == first as nat && OldChain(v, first as nat) == [first as nat]
      && Separate(v, Resolve(v, 2, PATH).value, 2, PATH) && Available(v, Resolve(v, 2, PATH).value) == k - 2
  {
    var v := OneFile(n, k, first);
    OneFileIs(n, k, first, [first as nat]);
    PastTable(v, first as nat);
    FreeBelow(v.fat, 3, k, n - 1);
  }

  lemma {:induction false} PastTable(v: Volume, c: nat)
    requires 2 <= c && |v.fat| <= c < |v.clusters| && 3 <= |v.clusters|
    ensures OldChain(v, c) == [c]
  {
    assert At(v.fat, Fat32, c) == LastMark(Fat32);
  }

  /**
   A table shorter than the volume, and a file whose cluster has no entry: a write that needs more clusters, and
   finds them, succeeds, and the next read gives the first cluster only.
   */
  lemma {:induction false} ShortTableLosesTail(n: nat, k: nat, first: byte, data: Buf)
    requires 3 < k <= first as nat < n <= Bad(Fat32) && SIZE < |data| <= (k - 2) * SIZE
    ensures var v := OneFile(n, k, first);
      && |data| < 0x1_0000_0000 && Sound(v, SIZE) && WriteFile(v, 2, PATH, data, SIZE).Some?
      && ReadFile(WriteFile(v, 2, PATH, data, SIZE).value, 2, PATH, SIZE) == Some(data[..SIZE])
  {
    var v := OneFile(n, k, first);
    ShortVolume(n, k, first);
    QuotDivides(|data| + SIZE - 1, SIZE);
    WriteSucceedsIff(v, 2, PATH, data, SIZE);
    WrittenFileReadsBack(v, 2, PATH, data, SIZE);
    assert [first as nat][0] >= |v.fat|;
    assert !Tabled(v.fat, [first as nat]);
  }
}
