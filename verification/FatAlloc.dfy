/**
 Finding free clusters, growing a chain and cutting it short, and what this
 does to the chains and to the number of free clusters of the whole table.
 */
module FatAlloc {
  import opened Options
  import opened Bytes
  import opened FatTable

  // ------------------------------------------------------------ free clusters

  /** The first `count` free clusters at `c` or above. */
  function FreeFrom(e: seq<nat>, t: FatType, c: nat, max: nat, count: nat): Option<seq<nat>>
    decreases max + 1 - c
  {
    if count == 0 then Some([])
    else if c > max then None
    else if At(e, t, c) != 0 then FreeFrom(e, t, c + 1, max, count)
    else
      var rest := FreeFrom(e, t, c + 1, max, count - 1);
      if rest.None? then None else Some([c] + rest.value)
  }

  ghost function CountFree(e: seq<nat>, t: FatType, c: nat, max: nat): nat
    decreases max + 1 - c
  {
    if c > max then 0 else (if At(e, t, c) == 0 then 1 else 0) + CountFree(e, t, c + 1, max)
  }

  ghost predicate Ascending(s: seq<nat>) {
    forall i, j :: 0 <= i < j < |s| ==> s[i] < s[j]
  }

  /** In range and free. */
  ghost predicate Spare(e: seq<nat>, t: FatType, s: seq<nat>, low: nat, max: nat) {
    forall i :: 0 <= i < |s| ==> low <= s[i] <= max && At(e, t, s[i]) == 0
  }

  /** The search finds exactly `count` free clusters in order, and fails exactly when there are fewer. */
  lemma {:induction false} FreeFromFinds(e: seq<nat>, t: FatType, c: nat, max: nat, count: nat)
    ensures var r := FreeFrom(e, t, c, max, count);
            && (r.Some? <==> CountFree(e, t, c, max) >= count)
            && (r.Some? ==> |r.value| == count && Ascending(r.value) && Spare(e, t, r.value, c, max))
    decreases max + 1 - c
  {
    if count > 0 && c <= max {
      if At(e, t, c) != 0 {
        FreeFromFinds(e, t, c + 1, max, count);
      } else {
        FreeFromFinds(e, t, c + 1, max, count - 1);
      }
    }
  }

  /** No free cluster is passed over: one below the last that was taken was taken too. */
  lemma {:induction false} FreeFromIsFirst(e: seq<nat>, t: FatType, c: nat, max: nat, count: nat, d: nat)
    requires count > 0 && FreeFrom(e, t, c, max, count).Some?
    requires c <= d && At(e, t, d) == 0
    ensures var r := FreeFrom(e, t, c, max, count).value;
            |r| == count && (d in r || r[count - 1] < d)
    decreases max + 1 - c
  {
    FreeFromFinds(e, t, c, max, count);
    if At(e, t, c) != 0 {
      FreeFromIsFirst(e, t, c + 1, max, count, d);
    } else if d > c && count > 1 {
      FreeFromIsFirst(e, t, c + 1, max, count - 1, d);
    }
  }

  method FindFreeClusters(fat: Buf, t: FatType, max: nat, count: int) returns (r: Option<seq<nat>>)
    ensures r == if count <= 0 then Some([]) else FreeFrom(Entries(fat, t), t, 2, max, count)
  {
    if count <= 0 { return Some([]); }
    if max < 2 { return None; }
    ghost var e := Entries(fat, t);
    var result: seq<nat>, c: nat := [], 2;
    OntoNothing(FreeFrom(e, t, 2, max, count));
    while c <= max
      invariant |result| < count
      invariant FreeFrom(e, t, 2, max, count) == Onto(result, FreeFrom(e, t, c, max, count - |result|))
      decreases max + 1 - c
    {
      NextIsAt(fat, t, c);
      var val := NextCluster(fat, t, c);
      if val == 0 {
        ghost var rest := FreeFrom(e, t, c + 1, max, count - |result| - 1);
        assert rest.Some? ==> result + ([c] + rest.value) == result + [c] + rest.value;
        result := result + [c];
        if |result| >= count {
          assert result + [] == result;
          return Some(result);
        }
      }
      c := c + 1;
    }
    return None;
  }

  // ------------------------------------------------------------------ linking

  function SetAt(e: seq<nat>, c: nat, v: nat): (r: seq<nat>)
    ensures |r| == |e|
  {
    if c < |e| then e[c := v] else e
  }

  /** The entry that follows position `i` of `s`. */
  function Successor(t: FatType, s: seq<nat>, i: nat): nat
    requires i < |s|
  {
    if i + 1 < |s| then s[i + 1] else LastMark(t)
  }

  /** Each cluster of `s` from position `i` on linked to the next, the last one marked as the end. */
  ghost function LinkUp(e: seq<nat>, t: FatType, s: seq<nat>, i: nat): (r: seq<nat>)
    requires i <= |s|
    ensures |r| == |e|
    decreases |s| - i
  {
    if i == |s| then e else LinkUp(SetAt(e, s[i], Successor(t, s, i)), t, s, i + 1)
  }

  lemma {:induction false} LinkUpElsewhere(e: seq<nat>, t: FatType, s: seq<nat>, i: nat, c: nat)
    requires i <= |s| && forall k :: i <= k < |s| ==> s[k] != c
    ensures At(LinkUp(e, t, s, i), t, c) == At(e, t, c)
    decreases |s| - i
  {
    if i < |s| { LinkUpElsewhere(SetAt(e, s[i], Successor(t, s, i)), t, s, i + 1, c); }
  }

  lemma {:induction false} LinkUpAt(e: seq<nat>, t: FatType, s: seq<nat>, i: nat, k: nat)
    requires i <= k < |s| && Distinct(s) && s[k] < |e|
    ensures At(LinkUp(e, t, s, i), t, s[k]) == Successor(t, s, k)
    decreases |s| - i
  {
    var e1 := SetAt(e, s[i], Successor(t, s, i));
    if i < k {
      LinkUpAt(e1, t, s, i + 1, k);
    } else {
      LinkUpElsewhere(e1, t, s, i + 1, s[k]);
    }
  }

  /** In range, and each linked to the next. */
  ghost predicate Linked(e: seq<nat>, t: FatType, ch: seq<nat>, max: nat) {
    && (forall i :: 0 <= i < |ch| ==> 2 <= ch[i] <= max)
    && (forall i :: 0 <= i < |ch| - 1 ==> At(e, t, ch[i]) == ch[i + 1])
  }

  ghost predicate InUse(e: seq<nat>, t: FatType, ch: seq<nat>) {
    forall i :: 0 <= i < |ch| ==> At(e, t, ch[i]) != 0
  }

  /** What the walk returns is linked and in use, from the cluster it started at. */
  lemma {:induction false} WalkIsLinked(e: seq<nat>, t: FatType, c: nat, max: nat, g: nat)
    requires g <= GUARD && Walk(e, t, c, max, g).Some?
    ensures var ch := Walk(e, t, c, max, g).value;
            && Linked(e, t, ch, max) && InUse(e, t, ch)
            && |ch| <= GUARD - g && (ch != [] ==> ch[0] == c)
    decreases GUARD - g
  {
    if 2 <= c <= max && g < GUARD && At(e, t, c) < Eoc(t) {
      var next := At(e, t, c);
      WalkIsLinked(e, t, next, max, g + 1);
      var ch, rest := Walk(e, t, c, max, g).value, Walk(e, t, next, max, g + 1).value;
      assert ch == [c] + rest;
      forall i | 0 <= i < |ch| - 1
        ensures At(e, t, ch[i]) == ch[i + 1]
      {
        if i > 0 { assert At(e, t, rest[i - 1]) == rest[i]; }
      }
    }
  }

  /** The chain `ch` with `extra` hung on its end. */
  ghost function Extend(e: seq<nat>, t: FatType, ch: seq<nat>, extra: seq<nat>): (r: seq<nat>)
    requires extra != []
    ensures |r| == |e|
  {
    LinkUp(if ch == [] then e else SetAt(e, ch[|ch| - 1], extra[0]), t, extra, 0)
  }

  /** Every cluster has an entry: the table may be shorter than the volume, but only a last cluster can lack one. */
  ghost predicate Tabled(e: seq<nat>, ch: seq<nat>) { forall i :: 0 <= i < |ch| ==> ch[i] < |e| }

  /** What the clusters of the table and the ones to be added must satisfy. */
  ghost predicate CanExtend(e: seq<nat>, t: FatType, ch: seq<nat>, extra: seq<nat>, max: nat) {
    && Tabled(e, ch) && extra != []
    && Linked(e, t, ch, max) && Distinct(ch) && Distinct(extra)
    && Spare(e, t, extra, 2, max)
    && Apart(ch, extra)
  }

  ghost predicate Apart(a: seq<nat>, b: seq<nat>) {
    forall i, j :: 0 <= i < |a| && 0 <= j < |b| ==> a[i] != b[j]
  }

  lemma {:induction false} ExtendElsewhere(e: seq<nat>, t: FatType, ch: seq<nat>, extra: seq<nat>, c: nat)
    requires extra != [] && c !in extra && (ch != [] ==> ch[|ch| - 1] != c)
    ensures At(Extend(e, t, ch, extra), t, c) == At(e, t, c)
  {
    LinkUpElsewhere(if ch == [] then e else SetAt(e, ch[|ch| - 1], extra[0]), t, extra, 0, c);
  }

  lemma {:induction false} ExtendLinks(e: seq<nat>, t: FatType, ch: seq<nat>, extra: seq<nat>, max: nat, i: nat)
    requires CanExtend(e, t, ch, extra, max) && i < |ch + extra|
    ensures At(Extend(e, t, ch, extra), t, (ch + extra)[i]) == Successor(t, ch + extra, i)
  {
    var e1 := if ch == [] then e else SetAt(e, ch[|ch| - 1], extra[0]);
    if i < |ch| {
      assert ch[i] !in extra;
      LinkUpElsewhere(e1, t, extra, 0, ch[i]);
      if i + 1 < |ch| { assert At(e, t, ch[i]) == ch[i + 1]; }
    } else {
      LinkUpAt(e1, t, extra, 0, i - |ch|);
    }
  }

  ghost predicate InRange(s: seq<nat>, max: nat) {
    forall i :: 0 <= i < |s| ==> 2 <= s[i] <= max
  }

  lemma {:induction false} LinksMakeChain(e: seq<nat>, t: FatType, ch: seq<nat>, max: nat)
    requires ch != [] && InRange(ch, max)
    requires forall i :: 0 <= i < |ch| ==> At(e, t, ch[i]) == Successor(t, ch, i)
    ensures IsChain(e, t, ch, max)
  {
  }

  lemma {:induction false} DistinctAppend(a: seq<nat>, b: seq<nat>)
    requires Distinct(a) && Distinct(b) && Apart(a, b)
    ensures Distinct(a + b)
  {
  }

  /** Growing gives one chain of the old clusters followed by the new ones. */
  lemma {:induction false} ExtendMakesChain(e: seq<nat>, t: FatType, ch: seq<nat>, extra: seq<nat>, max: nat)
    requires CanExtend(e, t, ch, extra, max)
    ensures IsChain(Extend(e, t, ch, extra), t, ch + extra, max) && Distinct(ch + extra)
  {
    var all, r := ch + extra, Extend(e, t, ch, extra);
    assert InRange(all, max);
    DistinctAppend(ch, extra);
    forall i | 0 <= i < |all|
      ensures At(r, t, all[i]) == Successor(t, all, i)
    {
      ExtendLinks(e, t, ch, extra, max, i);
    }
    LinksMakeChain(r, t, all, max);
  }

  /** The chain cut to its first `n` clusters, the others freed in order. */
  ghost function FreeAll(e: seq<nat>, s: seq<nat>, i: nat): (r: seq<nat>)
    requires i <= |s|
    ensures |r| == |e|
    decreases |s| - i
  {
    if i == |s| then e else FreeAll(SetAt(e, s[i], 0), s, i + 1)
  }

  ghost function Cut(e: seq<nat>, t: FatType, ch: seq<nat>, n: nat): (r: seq<nat>)
    requires n <= |ch|
    ensures |r| == |e|
  {
    var freed := FreeAll(e, ch, n);
    if n == 0 then freed else SetAt(freed, ch[n - 1], LastMark(t))
  }

  lemma {:induction false} FreeAllElsewhere(e: seq<nat>, t: FatType, s: seq<nat>, i: nat, c: nat)
    requires i <= |s| && forall k :: i <= k < |s| ==> s[k] != c
    ensures At(FreeAll(e, s, i), t, c) == At(e, t, c)
    decreases |s| - i
  {
    if i < |s| { FreeAllElsewhere(SetAt(e, s[i], 0), t, s, i + 1, c); }
  }

  lemma {:induction false} FreeAllAt(e: seq<nat>, t: FatType, s: seq<nat>, i: nat, k: nat)
    requires i <= k < |s| && Distinct(s) && s[k] < |e|
    ensures At(FreeAll(e, s, i), t, s[k]) == 0
    decreases |s| - i
  {
    var e1 := SetAt(e, s[i], 0);
    if i < k {
      FreeAllAt(e1, t, s, i + 1, k);
    } else {
      FreeAllElsewhere(e1, t, s, i + 1, s[k]);
    }
  }

  lemma {:induction false} CutElsewhere(e: seq<nat>, t: FatType, ch: seq<nat>, n: nat, c: nat)
    requires n <= |ch| && c !in ch
    ensures At(Cut(e, t, ch, n), t, c) == At(e, t, c)
  {
    FreeAllElsewhere(e, t, ch, n, c);
  }

  lemma {:induction false} CutAt(e: seq<nat>, t: FatType, ch: seq<nat>, max: nat, n: nat, i: nat)
    requires n <= |ch| && i < |ch| && Linked(e, t, ch, max) && Distinct(ch) && Tabled(e, ch)
    ensures At(Cut(e, t, ch, n), t, ch[i]) == if i < n then Successor(t, ch[..n], i) else 0
  {
    if i < n {
      FreeAllElsewhere(e, t, ch, n, ch[i]);
      if i + 1 < n { assert At(e, t, ch[i]) == ch[i + 1]; }
    } else {
      FreeAllAt(e, t, ch, n, i);
    }
  }

  /** Cutting leaves a chain of the first clusters and frees every other one. */
  lemma {:induction false} CutMakesChain(e: seq<nat>, t: FatType, ch: seq<nat>, max: nat, n: nat)
    requires n <= |ch| && Linked(e, t, ch, max) && Distinct(ch) && Tabled(e, ch)
    ensures n > 0 ==> IsChain(Cut(e, t, ch, n), t, ch[..n], max)
    ensures Spare(Cut(e, t, ch, n), t, ch[n..], 2, max)
  {
    forall i | 0 <= i < |ch|
      ensures At(Cut(e, t, ch, n), t, ch[i]) == if i < n then Successor(t, ch[..n], i) else 0
    {
      CutAt(e, t, ch, max, n, i);
    }
  }

  // ------------------------------------------------ the number of free clusters

  function One(b: bool): nat { if b then 1 else 0 }

  lemma {:induction false} CountFreeSet(e: seq<nat>, t: FatType, low: nat, max: nat, c: nat, v: nat)
    requires c < |e| && c <= max
    ensures CountFree(SetAt(e, c, v), t, low, max) + (if low <= c then One(At(e, t, c) == 0) else 0)
            == CountFree(e, t, low, max) + (if low <= c then One(v == 0) else 0)
    decreases max + 1 - low
  {
    if low <= max { CountFreeSet(e, t, low + 1, max, c, v); }
  }

  lemma {:induction false} LinkUpUsesFree(e: seq<nat>, t: FatType, s: seq<nat>, i: nat, max: nat)
    requires i <= |s| && Distinct(s) && Spare(e, t, s[i..], 2, max) && InRange(s, max)
    ensures CountFree(LinkUp(e, t, s, i), t, 2, max) + (|s| - i) == CountFree(e, t, 2, max)
    decreases |s| - i
  {
    if i < |s| {
      assert s[i] == s[i..][0];
      CountFreeSet(e, t, 2, max, s[i], Successor(t, s, i));
      var e1 := SetAt(e, s[i], Successor(t, s, i));
      var rest := s[i + 1..];
      forall k | 0 <= k < |rest|
        ensures At(e1, t, rest[k]) == 0
      {
        assert rest[k] == s[i..][k + 1] == s[i + 1 + k];
      }
      LinkUpUsesFree(e1, t, s, i + 1, max);
    }
  }

  lemma {:induction false} FreeAllFrees(e: seq<nat>, t: FatType, s: seq<nat>, i: nat, max: nat)
    requires Tabled(e, s) && i <= |s| && Distinct(s) && InRange(s, max)
    requires forall k :: i <= k < |s| ==> At(e, t, s[k]) != 0
    ensures CountFree(FreeAll(e, s, i), t, 2, max) == CountFree(e, t, 2, max) + (|s| - i)
    decreases |s| - i
  {
    if i < |s| {
      CountFreeSet(e, t, 2, max, s[i], 0);
      FreeAllFrees(SetAt(e, s[i], 0), t, s, i + 1, max);
    }
  }

  // ----------------------------------------------------------------- resizing

  /** The chain after a resize to `n` clusters, and the table; nothing when too few are free. */
  ghost function Resize(e: seq<nat>, t: FatType, ch: seq<nat>, max: nat, n: nat): Option<(seq<nat>, seq<nat>)> {
    if n > |ch| then
      var extra := FreeFrom(e, t, 2, max, n - |ch|);
      if extra.None? || extra.value == [] then None
      else Some((Extend(e, t, ch, extra.value), ch + extra.value))
    else if n < |ch| then Some((Cut(e, t, ch, n), ch[..n]))
    else Some((e, ch))
  }

  /** A chain of the file, as the table stands: linked, without repeats and none of it free. */
  ghost predicate OwnChain(e: seq<nat>, t: FatType, ch: seq<nat>, max: nat) {
    Linked(e, t, ch, max) && Distinct(ch) && InUse(e, t, ch)
  }

  lemma {:induction false} OwnedIsNotSpare(e: seq<nat>, t: FatType, ch: seq<nat>, s: seq<nat>, max: nat)
    requires OwnChain(e, t, ch, max) && Spare(e, t, s, 2, max)
    ensures Apart(ch, s)
  {
  }

  lemma {:induction false} AscendingIsDistinct(s: seq<nat>)
    requires Ascending(s)
    ensures Distinct(s)
  {
  }

  lemma {:induction false} FoundCanExtend(e: seq<nat>, t: FatType, ch: seq<nat>, max: nat, count: nat)
    requires Tabled(e, ch) && OwnChain(e, t, ch, max) && count > 0 && FreeFrom(e, t, 2, max, count).Some?
    ensures CanExtend(e, t, ch, FreeFrom(e, t, 2, max, count).value, max)
  {
    FreeFromFinds(e, t, 2, max, count);
    var extra := FreeFrom(e, t, 2, max, count).value;
    OwnedIsNotSpare(e, t, ch, extra, max);
    AscendingIsDistinct(extra);
  }

  lemma {:induction false} ExtendConserves(e: seq<nat>, t: FatType, ch: seq<nat>, extra: seq<nat>, max: nat)
    requires CanExtend(e, t, ch, extra, max) && OwnChain(e, t, ch, max)
    ensures CountFree(Extend(e, t, ch, extra), t, 2, max) + |extra| == CountFree(e, t, 2, max)
  {
    var e1 := if ch == [] then e else SetAt(e, ch[|ch| - 1], extra[0]);
    if ch != [] { CountFreeSet(e, t, 2, max, ch[|ch| - 1], extra[0]); }
    assert extra[0..] == extra;
    LinkUpUsesFree(e1, t, extra, 0, max);
  }

  lemma {:induction false} CutConserves(e: seq<nat>, t: FatType, ch: seq<nat>, max: nat, n: nat)
    requires Tabled(e, ch) && OwnChain(e, t, ch, max) && n <= |ch|
    ensures CountFree(Cut(e, t, ch, n), t, 2, max) == CountFree(e, t, 2, max) + |ch| - n
  {
    FreeAllFrees(e, t, ch, n, max);
    if n > 0 {
      var freed := FreeAll(e, ch, n);
      FreeAllElsewhere(e, t, ch, n, ch[n - 1]);
      CountFreeSet(freed, t, 2, max, ch[n - 1], LastMark(t));
    }
  }

  /** Clusters are conserved: what the file gains or loses the free ones lose or gain. */
  lemma {:induction false} ResizeConserves(e: seq<nat>, t: FatType, ch: seq<nat>, max: nat, n: nat)
    requires Tabled(e, ch) && OwnChain(e, t, ch, max)
    ensures var r := Resize(e, t, ch, max, n);
            && (r.None? <==> CountFree(e, t, 2, max) + |ch| < n)
            && (r.Some? ==>
                  && |r.value.1| == n
                  && CountFree(r.value.0, t, 2, max) + n == CountFree(e, t, 2, max) + |ch|)
  {
    if n > |ch| {
      FreeFromFinds(e, t, 2, max, n - |ch|);
      if FreeFrom(e, t, 2, max, n - |ch|).Some? {
        FoundCanExtend(e, t, ch, max, n - |ch|);
        ExtendConserves(e, t, ch, FreeFrom(e, t, 2, max, n - |ch|).value, max);
      }
    } else {
      CutConserves(e, t, ch, max, n);
    }
  }

  /** The resized file is one whole chain, and walking the new table from its start finds it. */
  lemma {:induction false} ResizeMakesChain(e: seq<nat>, t: FatType, ch: seq<nat>, max: nat, n: nat)
    requires Tabled(e, ch) && max < Bad(t) && OwnChain(e, t, ch, max)
    requires n == |ch| ==> ch == [] || IsChain(e, t, ch, max)
    requires Resize(e, t, ch, max, n).Some? && 0 < n <= GUARD
    ensures var r := Resize(e, t, ch, max, n).value;
            && IsChain(r.0, t, r.1, max)
            && Walk(r.0, t, r.1[0], max, 0) == Some(r.1)
            && (if n < |ch| then r.1 == ch[..n] else ch <= r.1)
  {
    var r := Resize(e, t, ch, max, n).value;
    if n > |ch| {
      FreeFromFinds(e, t, 2, max, n - |ch|);
      FoundCanExtend(e, t, ch, max, n - |ch|);
      ExtendMakesChain(e, t, ch, FreeFrom(e, t, 2, max, n - |ch|).value, max);
    } else {
      CutMakesChain(e, t, ch, max, n);
    }
    WalkFindsChain(r.0, t, r.1, max, 0);
  }

  lemma {:induction false} ChainIsInUse(e: seq<nat>, t: FatType, ch: seq<nat>, max: nat)
    requires IsChain(e, t, ch, max)
    ensures InUse(e, t, ch)
  {
    forall i | 0 <= i < |ch|
      ensures At(e, t, ch[i]) != 0
    {
      if i < |ch| - 1 { assert At(e, t, ch[i]) == ch[i + 1]; }
    }
  }

  /** Every other chain of the table is untouched. */
  lemma {:induction false} ResizeKeepsOthers(e: seq<nat>, t: FatType, ch: seq<nat>, max: nat, n: nat, other: seq<nat>)
    requires Tabled(e, ch) && OwnChain(e, t, ch, max)
    requires Resize(e, t, ch, max, n).Some?
    requires IsChain(e, t, other, max) && Apart(ch, other)
    ensures IsChain(Resize(e, t, ch, max, n).value.0, t, other, max)
    ensures Apart(Resize(e, t, ch, max, n).value.1, other)
  {
    var r := Resize(e, t, ch, max, n).value;
    ChainIsInUse(e, t, other, max);
    if n > |ch| {
      FreeFromFinds(e, t, 2, max, n - |ch|);
      var extra := FreeFrom(e, t, 2, max, n - |ch|).value;
      forall i | 0 <= i < |other|
        ensures other[i] !in extra && At(r.0, t, other[i]) == At(e, t, other[i])
      {
        ExtendElsewhere(e, t, ch, extra, other[i]);
      }
    } else {
      forall i | 0 <= i < |other|
        ensures At(r.0, t, other[i]) == At(e, t, other[i])
      {
        CutElsewhere(e, t, ch, n, other[i]);
      }
    }
    ChainFrame(e, r.0, t, other, max);
  }

  // ------------------------------------------------------- on the table's bytes

  method LinkClusters(fat: Buf, t: FatType, extra: seq<nat>) returns (r: Buf)
    requires forall i :: 0 <= i < |extra| ==> extra[i] < Radix(t)
    ensures |r| == |fat| && Entries(r, t) == LinkUp(Entries(fat, t), t, extra, 0)
  {
    r := fat;
    var i := 0;
    while i < |extra|
      invariant 0 <= i <= |extra| && |r| == |fat|
      invariant LinkUp(Entries(fat, t), t, extra, 0) == LinkUp(Entries(r, t), t, extra, i)
    {
      SetEntries(r, t, extra[i], Successor(t, extra, i));
      r := SetCluster(r, t, extra[i], Successor(t, extra, i));
      i := i + 1;
    }
  }

  /** Hang `need` free clusters on the chain, or give nothing when too few are free. */
  method GrowChain(fat: Buf, t: FatType, max: nat, ch: seq<nat>, need: nat)
    returns (r: Option<(Buf, seq<nat>)>)
    requires need > 0 && max < Radix(t)
    ensures r.None? <==> FreeFrom(Entries(fat, t), t, 2, max, need).None?
    ensures r.Some? ==>
              var extra := FreeFrom(Entries(fat, t), t, 2, max, need).value;
              && extra != [] && r.value.1 == ch + extra
              && |r.value.0| == |fat| && Entries(r.value.0, t) == Extend(Entries(fat, t), t, ch, extra)
  {
    FreeFromFinds(Entries(fat, t), t, 2, max, need);
    var found := FindFreeClusters(fat, t, max, need);
    if found.None? { return None; }
    var extra := found.value;
    var out := fat;
    if ch != [] {
      SetEntries(fat, t, ch[|ch| - 1], extra[0]);
      out := SetCluster(fat, t, ch[|ch| - 1], extra[0]);
    }
    out := LinkClusters(out, t, extra);
    return Some((out, ch + extra));
  }

  method FreeClusters(fat: Buf, t: FatType, ch: seq<nat>, from: nat) returns (r: Buf)
    requires from <= |ch|
    ensures |r| == |fat| && Entries(r, t) == FreeAll(Entries(fat, t), ch, from)
  {
    r := fat;
    var i := from;
    while i < |ch|
      invariant from <= i <= |ch| && |r| == |fat|
      invariant FreeAll(Entries(fat, t), ch, from) == FreeAll(Entries(r, t), ch, i)
    {
      SetEntries(r, t, ch[i], 0);
      r := SetCluster(r, t, ch[i], 0);
      i := i + 1;
    }
  }

  /** Give the file `n` clusters: grow its chain, or cut it and free the rest. */
  method ResizeChain(fat: Buf, t: FatType, max: nat, ch: seq<nat>, n: nat)
    returns (r: Option<(Buf, seq<nat>)>)
    requires max < Radix(t)
    ensures var want := Resize(Entries(fat, t), t, ch, max, n);
            && (r.None? <==> want.None?)
            && (r.Some? ==> |r.value.0| == |fat| && (Entries(r.value.0, t), r.value.1) == want.value)
  {
    if n > |ch| {
      FreeFromFinds(Entries(fat, t), t, 2, max, n - |ch|);
      r := GrowChain(fat, t, max, ch, n - |ch|);
    } else if n < |ch| {
      var out := FreeClusters(fat, t, ch, n);
      if n > 0 {
        SetEntries(out, t, ch[n - 1], LastMark(t));
        out := SetCluster(out, t, ch[n - 1], LastMark(t));
      }
      r := Some((out, ch[..n]));
    } else {
      r := Some((fat, ch));
    }
  }
}
