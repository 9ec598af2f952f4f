/**
 The file allocation table: entries in the bytes of the table, cluster chains,
 the search for free clusters, and linking clusters into a chain.
 */
module FatTable {
  import opened Options
  import opened Bytes

  datatype FatType = Fat16 | Fat32

  function Width(t: FatType): nat { if t.Fat32? then 4 else 2 }
  function Eoc(t: FatType): nat { if t.Fat32? then 0x0FFF_FFF8 else 0xFFF8 }
  function Bad(t: FatType): nat { if t.Fat32? then 0x0FFF_FFF7 else 0xFFF7 }
  function LastMark(t: FatType): nat { if t.Fat32? then 0x0FFF_FFFF else 0xFFFF }
  function Radix(t: FatType): nat { if t.Fat32? then 0x1000_0000 else 0x1_0000 }

  const GUARD: nat := 0x10_0000

  // ------------------------------------------------------- entries in the bytes

  predicate InTable(fat: Buf, t: FatType, c: nat) { (c + 1) * Width(t) <= |fat| }

  function NextCluster(fat: Buf, t: FatType, c: nat): (n: nat)
    ensures n < Radix(t)
  {
    if !InTable(fat, t, c) then LastMark(t)
    else if t.Fat32? then Read32(fat, c * 4) % Radix(t)
    else Read16(fat, c * 2)
  }

  /** Store an entry; a FAT32 entry keeps its four reserved top bits. */
  function SetCluster(fat: Buf, t: FatType, c: nat, v: nat): (r: Buf)
    requires v < Radix(t)
    ensures |r| == |fat|
  {
    if !InTable(fat, t, c) then fat
    else if t.Fat32? then Write32(fat, c * 4, Read32(fat, c * 4) / Radix(t) * Radix(t) + v)
    else Write16(fat, c * 2, v)
  }

  lemma {:induction false} MergeBits(w: nat, v: nat)
    requires w < 0x1_0000_0000 && v < 0x1000_0000
    ensures w / 0x1000_0000 * 0x1000_0000 + v < 0x1_0000_0000
    ensures (w / 0x1000_0000 * 0x1000_0000 + v) % 0x1000_0000 == v
  {
  }

  lemma {:induction false} SetThenNext16(fat: Buf, c: nat, v: nat, d: nat)
    requires v < 0x1_0000 && InTable(fat, Fat16, c) && InTable(fat, Fat16, d)
    ensures Read16(Write16(fat, c * 2, v), d * 2) == if d == c then v else Read16(fat, d * 2)
  {
    LE16Back(v);
    if c != d { SpliceApart(fat, c * 2, LE16(v), d * 2, d * 2 + 2); }
  }

  lemma {:induction false} SetThenNext32(fat: Buf, c: nat, w: nat, d: nat)
    requires w < 0x1_0000_0000 && InTable(fat, Fat32, c) && InTable(fat, Fat32, d)
    ensures Read32(Write32(fat, c * 4, w), d * 4) == if d == c then w else Read32(fat, d * 4)
  {
    LE32Back(w);
    if c != d { SpliceApart(fat, c * 4, LE32(w), d * 4, d * 4 + 4); }
  }

  lemma {:induction false} SetEntry32(fat: Buf, c: nat, v: nat, d: nat)
    requires v < 0x1000_0000 && InTable(fat, Fat32, c) && InTable(fat, Fat32, d)
    ensures NextCluster(SetCluster(fat, Fat32, c, v), Fat32, d) == if d == c then v else NextCluster(fat, Fat32, d)
  {
    var w := Read32(fat, c * 4);
    MergeBits(w, v);
    SetThenNext32(fat, c, w / 0x1000_0000 * 0x1000_0000 + v, d);
  }

  lemma {:induction false} SetThenNext(fat: Buf, t: FatType, c: nat, v: nat, d: nat)
    requires v < Radix(t)
    ensures NextCluster(SetCluster(fat, t, c, v), t, d) ==
            if d == c && InTable(fat, t, c) then v else NextCluster(fat, t, d)
  {
    if InTable(fat, t, c) && InTable(fat, t, d) {
      if t.Fat32? { SetEntry32(fat, c, v, d); } else { SetThenNext16(fat, c, v, d); }
    }
  }

  /** The table as the sequence of its entries. */
  ghost function Entries(fat: Buf, t: FatType): (e: seq<nat>)
    ensures |e| == |fat| / Width(t)
    ensures forall c :: 0 <= c < |e| ==> e[c] == NextCluster(fat, t, c)
  {
    seq(|fat| / Width(t), c requires c >= 0 => NextCluster(fat, t, c))
  }

  lemma {:induction false} InTableIs(fat: Buf, t: FatType, c: nat)
    ensures InTable(fat, t, c) <==> c < |fat| / Width(t)
  {
  }

  lemma {:induction false} SetEntries(fat: Buf, t: FatType, c: nat, v: nat)
    requires v < Radix(t)
    ensures Entries(SetCluster(fat, t, c, v), t) ==
            if c < |Entries(fat, t)| then Entries(fat, t)[c := v] else Entries(fat, t)
  {
    InTableIs(fat, t, c);
    forall d | 0 <= d < |Entries(fat, t)|
      ensures NextCluster(SetCluster(fat, t, c, v), t, d) == if d == c then v else NextCluster(fat, t, d)
    {
      SetThenNext(fat, t, c, v, d);
    }
  }

  /** Entry `c`, an end mark beyond the table. */
  function At(e: seq<nat>, t: FatType, c: nat): nat {
    if c < |e| then e[c] else LastMark(t)
  }

  lemma {:induction false} NextIsAt(fat: Buf, t: FatType, c: nat)
    ensures NextCluster(fat, t, c) == At(Entries(fat, t), t, c)
  {
    InTableIs(fat, t, c);
  }

  // ------------------------------------------------------------------- chains

  /** The clusters from `c` on, as the kernel collects them; `g` counts towards the guard. */
  function Walk(e: seq<nat>, t: FatType, c: nat, max: nat, g: nat): Option<seq<nat>>
    decreases GUARD - g, e
  {
    if !(2 <= c <= max && g < GUARD) then Some([])
    else
      var next := At(e, t, c);
      if next == Bad(t) then None
      else if next >= Eoc(t) then Some([c])
      else if next < 2 then None
      else
        var rest := Walk(e, t, next, max, g + 1);
        if rest.None? then None else Some([c] + rest.value)
  }

  /** `ch` is a whole chain: in range, linked, and ending in an end mark. */
  ghost predicate IsChain(e: seq<nat>, t: FatType, ch: seq<nat>, max: nat) {
    && ch != []
    && (forall i :: 0 <= i < |ch| ==> 2 <= ch[i] <= max)
    && (forall i :: 0 <= i < |ch| - 1 ==> At(e, t, ch[i]) == ch[i + 1])
    && At(e, t, ch[|ch| - 1]) >= Eoc(t)
  }

  /** No link of the chain can be taken for a mark. */
  ghost predicate Unmarked(t: FatType, ch: seq<nat>) {
    forall i :: 0 < i < |ch| ==> ch[i] < Bad(t)
  }

  lemma {:induction false} ChainTail(e: seq<nat>, t: FatType, ch: seq<nat>, max: nat)
    requires IsChain(e, t, ch, max) && |ch| > 1
    ensures IsChain(e, t, ch[1..], max) && At(e, t, ch[0]) == ch[1] && [ch[0]] + ch[1..] == ch
    ensures Unmarked(t, ch) <==> ch[1] < Bad(t) && Unmarked(t, ch[1..])
  {
    var rest := ch[1..];
    forall i | 0 <= i < |rest| - 1
      ensures At(e, t, rest[i]) == rest[i + 1]
    {
      assert At(e, t, ch[i + 1]) == ch[i + 2];
    }
    assert forall i :: 0 < i < |ch| - 1 ==> rest[i] == ch[i + 1];
    assert At(e, t, ch[0]) == ch[1];
    if ch[1] < Bad(t) && Unmarked(t, rest) {
      forall i | 0 < i < |ch| ensures ch[i] < Bad(t) { if i > 1 { assert rest[i - 1] < Bad(t); } }
    }
  }

  /** A whole chain is what the walk finds, exactly when no link of it can be taken for a mark. */
  lemma {:induction false} WalkFindsChainIff(e: seq<nat>, t: FatType, ch: seq<nat>, max: nat, g: nat)
    requires IsChain(e, t, ch, max) && g + |ch| <= GUARD
    ensures Walk(e, t, ch[0], max, g) == Some(ch) <==> Unmarked(t, ch)
    decreases |ch|
  {
    if |ch| == 1 {
      assert ch == [ch[0]];
    } else {
      ChainTail(e, t, ch, max);
      if ch[1] < Bad(t) { WalkFindsChainIff(e, t, ch[1..], max, g + 1); }
    }
  }

  /** A table with a chain of two clusters, the second numbered like the bad mark: it is not walked. */
  lemma {:induction false} MarkedChainExample()
    ensures exists e: seq<nat>, ch: seq<nat>, max: nat ::
      ch == [2, 0x0FFF_FFF7] && IsChain(e, Fat32, ch, max) && Walk(e, Fat32, ch[0], max, 0).None?
  {
    var max, ch := 0x0FFF_FFF7, [2, 0x0FFF_FFF7];
    var e: seq<nat> := seq(max + 1, _ => Eoc(Fat32))[2 := max];
    assert At(e, Fat32, 2) == max && At(e, Fat32, max) == Eoc(Fat32);
    assert IsChain(e, Fat32, ch, max);
  }

  lemma {:induction false} WalkFindsChain(e: seq<nat>, t: FatType, ch: seq<nat>, max: nat, g: nat)
    requires IsChain(e, t, ch, max) && max < Bad(t) && g + |ch| <= GUARD
    ensures Walk(e, t, ch[0], max, g) == Some(ch)
  {
    WalkFindsChainIff(e, t, ch, max, g);
  }

  /** Where two positions of a chain hold the same cluster, so do the next two. */
  lemma {:induction false} SameTail(e: seq<nat>, t: FatType, ch: seq<nat>, max: nat, i: nat, j: nat, k: nat)
    requires IsChain(e, t, ch, max) && i < j && j + k < |ch|
    ensures ch[i] == ch[j] ==> ch[i + k] == ch[j + k]
    decreases k
  {
    if k > 0 {
      SameTail(e, t, ch, max, i, j, k - 1);
      assert At(e, t, ch[i + k - 1]) == ch[i + k];
      assert At(e, t, ch[j + k - 1]) == ch[j + k];
    }
  }

  ghost predicate Distinct(s: seq<nat>) {
    forall i, j :: 0 <= i < j < |s| ==> s[i] != s[j]
  }

  /** A chain that stops at an end mark never repeats a cluster. */
  lemma {:induction false} ChainIsDistinct(e: seq<nat>, t: FatType, ch: seq<nat>, max: nat)
    requires IsChain(e, t, ch, max) && max < Bad(t)
    ensures Distinct(ch)
  {
    forall i, j | 0 <= i < j < |ch|
      ensures ch[i] != ch[j]
    {
      var k := |ch| - 1 - j;
      SameTail(e, t, ch, max, i, j, k);
      assert At(e, t, ch[i + k]) == ch[i + k + 1];
    }
  }

  /** Chains that share no cluster with a changed entry are still chains. */
  lemma {:induction false} ChainFrame(e: seq<nat>, e': seq<nat>, t: FatType, ch: seq<nat>, max: nat)
    requires IsChain(e, t, ch, max)
    requires forall i :: 0 <= i < |ch| ==> At(e', t, ch[i]) == At(e, t, ch[i])
    ensures IsChain(e', t, ch, max)
  {
    forall i | 0 <= i < |ch| - 1
      ensures At(e', t, ch[i]) == ch[i + 1]
    {
      assert At(e, t, ch[i]) == ch[i + 1];
    }
  }

  lemma {:induction false} OntoStep(e: seq<nat>, t: FatType, c: nat, max: nat, g: nat, front: seq<nat>)
    requires 2 <= c <= max && g < GUARD && 2 <= At(e, t, c) < Bad(t)
    ensures Onto(front, Walk(e, t, c, max, g)) == Onto(front + [c], Walk(e, t, At(e, t, c), max, g + 1))
  {
    var rest := Walk(e, t, At(e, t, c), max, g + 1);
    if rest.Some? { assert front + ([c] + rest.value) == front + [c] + rest.value; }
  }

  method ClusterChain(fat: Buf, t: FatType, start: nat, max: nat) returns (r: Option<seq<nat>>)
    ensures r == if start < 2 || max < 2 then None else Walk(Entries(fat, t), t, start, max, 0)
  {
    if start < 2 || max < 2 { return None; }
    ghost var e := Entries(fat, t);
    var chain: seq<nat>, cluster: nat, guardCount: nat := [], start, 0;
    OntoNothing(Walk(e, t, start, max, 0));
    while 2 <= cluster <= max && guardCount < GUARD
      invariant guardCount <= GUARD
      invariant Walk(e, t, start, max, 0) == Onto(chain, Walk(e, t, cluster, max, guardCount))
      decreases GUARD - guardCount
    {
      NextIsAt(fat, t, cluster);
      var next := NextCluster(fat, t, cluster);
      if next == Bad(t) { return None; }
      if next >= Eoc(t) { return Some(chain + [cluster]); }
      if next < 2 { return None; }
      OntoStep(e, t, cluster, max, guardCount, chain);
      chain := chain + [cluster];
      cluster := next;
      guardCount := guardCount + 1;
    }
    assert chain + [] == chain;
    return Some(chain);
  }
}
