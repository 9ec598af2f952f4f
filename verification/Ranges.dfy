/**
 The range algebra of the memory map: sorting, merging and subtracting
 half-open address ranges held in fixed arrays.
 */
module Ranges {

  datatype Range = Range(base: nat, size: nat) {
    function End(): nat { base + size }
    predicate Has(a: nat) { base <= a < End() }
  }

  /** Address `a` lies in one of the ranges. */
  ghost predicate Covers(s: seq<Range>, a: nat) {
    exists i :: 0 <= i < |s| && s[i].Has(a)
  }

  predicate Sorted(s: seq<Range>) {
    forall i, j :: 0 <= i < j < |s| ==> s[i].base <= s[j].base
  }

  /** Non-empty ranges in order, each ending strictly before the next begins. */
  predicate Separated(s: seq<Range>) {
    && (forall i :: 0 <= i < |s| ==> s[i].size > 0)
    && (forall i, j :: 0 <= i < j < |s| ==> s[i].End() < s[j].base)
  }

  lemma {:induction false} CoversConcat(s: seq<Range>, t: seq<Range>, a: nat)
    ensures Covers(s + t, a) <==> Covers(s, a) || Covers(t, a)
  {
    if Covers(s, a) {
      var i :| 0 <= i < |s| && s[i].Has(a);
      assert (s + t)[i].Has(a);
    }
    if Covers(t, a) {
      var i :| 0 <= i < |t| && t[i].Has(a);
      assert (s + t)[|s| + i].Has(a);
    }
    if Covers(s + t, a) {
      var i :| 0 <= i < |s + t| && (s + t)[i].Has(a);
      if i < |s| { assert s[i].Has(a); } else { assert t[i - |s|].Has(a); }
    }
  }

  lemma {:induction false} CoversOne(r: Range, a: nat)
    ensures Covers([r], a) <==> r.Has(a)
  {
    if r.Has(a) { assert [r][0].Has(a); }
  }

  lemma {:induction false} PermutationCovers(s: seq<Range>, t: seq<Range>, a: nat)
    requires multiset(s) == multiset(t)
    ensures Covers(s, a) <==> Covers(t, a)
  {
    if Covers(s, a) {
      var i :| 0 <= i < |s| && s[i].Has(a);
      assert s[i] in multiset(t);
    }
    if Covers(t, a) {
      var i :| 0 <= i < |t| && t[i].Has(a);
      assert t[i] in multiset(s);
    }
  }

  // ---------------------------------------------------------------- sorting

  method Swap(r: array<Range>, n: nat, i: nat, j: nat)
    requires i < n <= r.Length && j < n
    modifies r
    ensures r[..n] == old(r[..n])[i := old(r[j])][j := old(r[i])]
    ensures r[n..] == old(r[n..])
    ensures multiset(r[..n]) == multiset(old(r[..n]))
  {
    var tmp := r[i];
    r[i] := r[j];
    r[j] := tmp;
  }

  method FindMin(r: array<Range>, n: nat, i: nat) returns (min: nat)
    requires i < n <= r.Length
    ensures i <= min < n
    ensures forall j :: i <= j < n ==> r[min].base <= r[j].base
  {
    min := i;
    for j := i + 1 to n
      invariant i <= min < n
      invariant forall k :: i <= k < j ==> r[min].base <= r[k].base
    {
      if r[j].base < r[min].base { min := j; }
    }
  }

  /** Selection sort by base. */
  method SortRanges(r: array<Range>, n: nat)
    requires n <= r.Length
    modifies r
    ensures Sorted(r[..n]) && multiset(r[..n]) == multiset(old(r[..n]))
    ensures r[n..] == old(r[n..])
  {
    for i := 0 to n
      invariant multiset(r[..n]) == multiset(old(r[..n])) && r[n..] == old(r[n..])
      invariant forall j, k :: 0 <= j < i && j < k < n ==> r[..n][j].base <= r[..n][k].base
    {
      var min := FindMin(r, n, i);
      if min != i { Swap(r, n, i, min); }
    }
  }

  // ---------------------------------------------------------------- merging

  /** Merge one more range, in base order, into the ranges merged so far. */
  function MergeInto(acc: seq<Range>, r: Range): seq<Range> {
    if r.size == 0 then acc
    else if acc == [] then [r]
    else
      var prev := acc[|acc| - 1];
      if r.base > prev.End() then acc + [r]
      else if r.End() > prev.End() then acc[|acc| - 1 := Range(prev.base, r.End() - prev.base)]
      else acc
  }

  function Merge(s: seq<Range>): seq<Range> {
    if s == [] then [] else MergeInto(Merge(s[..|s| - 1]), s[|s| - 1])
  }

  /** The last merged range starts no later than the next range to come. */
  ghost predicate StartsBefore(acc: seq<Range>, b: nat) {
    acc != [] ==> acc[|acc| - 1].base <= b
  }

  lemma {:induction false} MergeIntoShape(acc: seq<Range>, r: Range)
    requires Separated(acc) && StartsBefore(acc, r.base)
    ensures Separated(MergeInto(acc, r)) && StartsBefore(MergeInto(acc, r), r.base)
    ensures |MergeInto(acc, r)| <= |acc| + 1
  {
  }

  lemma {:induction false} MergeIntoCovers(acc: seq<Range>, r: Range, a: nat)
    requires StartsBefore(acc, r.base)
    ensures Covers(MergeInto(acc, r), a) <==> Covers(acc, a) || r.Has(a)
  {
    if r.size > 0 && acc != [] {
      var init, prev := acc[..|acc| - 1], acc[|acc| - 1];
      assert acc == init + [prev];
      CoversConcat(init, [prev], a);
      CoversOne(prev, a);
      if r.base > prev.End() {
        CoversConcat(acc, [r], a);
        CoversOne(r, a);
      } else if r.End() > prev.End() {
        var joined := Range(prev.base, r.End() - prev.base);
        assert MergeInto(acc, r) == init + [joined];
        CoversConcat(init, [joined], a);
        CoversOne(joined, a);
      }
    } else if r.size > 0 {
      CoversOne(r, a);
    }
  }

  lemma {:induction false} MergeShape(s: seq<Range>)
    requires Sorted(s)
    ensures Separated(Merge(s)) && |Merge(s)| <= |s|
    ensures s != [] ==> StartsBefore(Merge(s), s[|s| - 1].base)
  {
    if s != [] {
      var init, last := s[..|s| - 1], s[|s| - 1];
      MergeShape(init);
      assert init != [] ==> init[|init| - 1].base <= last.base;
      MergeIntoShape(Merge(init), last);
    }
  }

  lemma {:induction false} MergeCovers(s: seq<Range>, a: nat)
    requires Sorted(s)
    ensures Covers(Merge(s), a) <==> Covers(s, a)
  {
    if s != [] {
      var init, last := s[..|s| - 1], s[|s| - 1];
      MergeShape(init);
      MergeCovers(init, a);
      assert init != [] ==> init[|init| - 1].base <= last.base;
      MergeIntoCovers(Merge(init), last, a);
      assert s == init + [last];
      CoversConcat(init, [last], a);
      CoversOne(last, a);
    }
  }

  /** Merging sorted ranges keeps the covered addresses and leaves them strictly apart. */
  lemma {:induction false} MergeSound(s: seq<Range>, a: nat)
    requires Sorted(s)
    ensures Separated(Merge(s)) && |Merge(s)| <= |s|
    ensures Covers(Merge(s), a) <==> Covers(s, a)
  {
    MergeShape(s);
    MergeCovers(s, a);
  }

  /** Fold the range at `i` into the `w` ranges already merged. */
  method MergeStep(r: array<Range>, w: nat, i: nat) returns (w': nat)
    requires w <= i < r.Length
    modifies r
    ensures w' <= i + 1
    ensures r[..w'] == MergeInto(old(r[..w]), old(r[i]))
    ensures r[i + 1..] == old(r[i + 1..])
  {
    if r[i].size == 0 { return w; }
    if w == 0 {
      r[w] := r[i];
      return w + 1;
    }
    var prevEnd, curEnd := r[w - 1].End(), r[i].End();
    if r[i].base <= prevEnd {
      if curEnd > prevEnd {
        r[w - 1] := Range(r[w - 1].base, curEnd - r[w - 1].base);
      }
      return w;
    }
    r[w] := r[i];
    return w + 1;
  }

  /** Compaction in place: the write index never passes the read index. */
  method NormalizeMerge(r: array<Range>, n: nat) returns (w: nat)
    requires n <= r.Length
    modifies r
    ensures w <= n
    ensures r[..w] == Merge(old(r[..n]))
    ensures r[n..] == old(r[n..])
  {
    ghost var s := r[..];
    w := 0;
    for i := 0 to n
      invariant w <= i
      invariant r[..w] == Merge(s[..i])
      invariant r[i..] == s[i..]
    {
      assert s[..i + 1][..i] == s[..i];
      assert r[i] == r[i..][0] == s[i];
      assert r[i + 1..] == r[i..][1..];
      w := MergeStep(r, w, i);
    }
    assert s[..n] == old(r[..n]);
  }

  // ------------------------------------------------------------ subtraction

  function Min(a: nat, b: nat): nat { if a < b then a else b }
  function Max(a: nat, b: nat): nat { if a < b then b else a }

  /** The non-empty range from `lo` to `hi`, if there is one. */
  function Piece(lo: nat, hi: nat): seq<Range> {
    if lo < hi then [Range(lo, hi - lo)] else []
  }

  /** What is left of the addresses from `cur` to `hi` once the reserved ranges are cut out. */
  function Carve(cur: nat, hi: nat, rsv: seq<Range>): seq<Range>
    decreases |rsv|
  {
    if rsv == [] then Piece(cur, hi)
    else Piece(cur, Min(rsv[0].base, hi)) + Carve(Max(cur, rsv[0].End()), hi, rsv[1..])
  }

  function Subtract(mem: seq<Range>, rsv: seq<Range>): seq<Range> {
    if mem == [] then []
    else Subtract(mem[..|mem| - 1], rsv) + Carve(mem[|mem| - 1].base, mem[|mem| - 1].End(), rsv)
  }

  lemma {:induction false} PieceCovers(lo: nat, hi: nat, a: nat)
    ensures Covers(Piece(lo, hi), a) <==> lo <= a < hi
  {
    if lo < hi { CoversOne(Range(lo, hi - lo), a); }
  }

  lemma {:induction false} CoversCons(rsv: seq<Range>, a: nat)
    requires rsv != []
    ensures Covers(rsv, a) <==> rsv[0].Has(a) || Covers(rsv[1..], a)
  {
    assert rsv == [rsv[0]] + rsv[1..];
    CoversConcat([rsv[0]], rsv[1..], a);
    CoversOne(rsv[0], a);
  }

  /** An address below every range is in none of them. */
  lemma {:induction false} BelowAll(s: seq<Range>, a: nat)
    requires Separated(s) && (s == [] || a < s[0].base)
    ensures !Covers(s, a)
  {
  }

  /** Carving keeps exactly the addresses from `cur` to `hi` that are not reserved. */
  lemma {:induction false} CarveCovers(cur: nat, hi: nat, rsv: seq<Range>, a: nat)
    requires Separated(rsv)
    ensures Covers(Carve(cur, hi, rsv), a) <==> cur <= a < hi && !Covers(rsv, a)
    decreases |rsv|
  {
    if rsv == [] {
      PieceCovers(cur, hi, a);
    } else {
      var r, rest := rsv[0], rsv[1..];
      var cur' := Max(cur, r.End());
      CarveCovers(cur', hi, rest, a);
      PieceCovers(cur, Min(r.base, hi), a);
      CoversConcat(Piece(cur, Min(r.base, hi)), Carve(cur', hi, rest), a);
      CoversCons(rsv, a);
      if a < r.End() { BelowAll(rest, a); }
    }
  }

  ghost predicate Within(s: seq<Range>, lo: nat, hi: nat) {
    forall i :: 0 <= i < |s| ==> lo <= s[i].base && s[i].End() <= hi
  }

  lemma {:induction false} SeparatedConcat(s: seq<Range>, t: seq<Range>, lo: nat, mid: nat, mid': nat, hi: nat)
    requires Separated(s) && Separated(t) && Within(s, lo, mid) && Within(t, mid', hi)
    requires lo <= mid' && mid <= hi && mid < mid'
    ensures Separated(s + t) && Within(s + t, lo, hi)
  {
  }

  lemma {:induction false} PieceShape(lo: nat, hi: nat)
    ensures Separated(Piece(lo, hi)) && Within(Piece(lo, hi), lo, hi) && |Piece(lo, hi)| <= 1
  {
  }

  lemma {:induction false} CarveShape(cur: nat, hi: nat, rsv: seq<Range>)
    requires Separated(rsv)
    ensures Separated(Carve(cur, hi, rsv)) && Within(Carve(cur, hi, rsv), cur, hi)
    ensures |Carve(cur, hi, rsv)| <= |rsv| + 1
    decreases |rsv|
  {
    if rsv == [] {
      PieceShape(cur, hi);
    } else {
      var mid, cur' := Min(rsv[0].base, hi), Max(cur, rsv[0].End());
      PieceShape(cur, mid);
      assert Separated(rsv[1..]);
      CarveShape(cur', hi, rsv[1..]);
      SeparatedConcat(Piece(cur, mid), Carve(cur', hi, rsv[1..]), cur, mid, cur', hi);
    }
  }

  /** Reserved ranges that end at or before `cur` make no difference. */
  lemma {:induction false} CarveSkips(cur: nat, hi: nat, rsv: seq<Range>, j: nat)
    requires j <= |rsv| && forall i :: 0 <= i < j ==> rsv[i].End() <= cur
    ensures Carve(cur, hi, rsv) == Carve(cur, hi, rsv[j..])
    decreases j
  {
    if j > 0 {
      CarveSkips(cur, hi, rsv[1..], j - 1);
      assert rsv[1..][j - 1..] == rsv[j..];
    }
  }

  /** Reserved ranges past the end make no difference. */
  lemma {:induction false} CarveStops(cur: nat, hi: nat, rsv: seq<Range>)
    requires cur >= hi || forall i :: 0 <= i < |rsv| ==> hi <= rsv[i].base
    ensures Carve(cur, hi, rsv) == Piece(cur, hi)
    decreases |rsv|
  {
    if rsv != [] {
      CarveStops(Max(cur, rsv[0].End()), hi, rsv[1..]);
    }
  }

  /** Subtraction keeps exactly the memory that is not reserved. */
  lemma {:induction false} SubtractCovers(mem: seq<Range>, rsv: seq<Range>, a: nat)
    requires Separated(rsv)
    ensures Covers(Subtract(mem, rsv), a) <==> Covers(mem, a) && !Covers(rsv, a)
  {
    if mem != [] {
      var init, last := mem[..|mem| - 1], mem[|mem| - 1];
      assert mem == init + [last];
      SubtractCovers(init, rsv, a);
      CarveCovers(last.base, last.End(), rsv, a);
      CoversConcat(init, [last], a);
      CoversOne(last, a);
      CoversConcat(Subtract(init, rsv), Carve(last.base, last.End(), rsv), a);
    }
  }

  /** How many ranges start strictly between `lo` and `hi`. */
  function StartsIn(rsv: seq<Range>, lo: nat, hi: nat): nat {
    if rsv == [] then 0
    else (if lo < rsv[0].base < hi then 1 else 0) + StartsIn(rsv[1..], lo, hi)
  }

  lemma {:induction false} StartsInAdds(rsv: seq<Range>, lo: nat, mid: nat, mid': nat, hi: nat)
    requires lo <= mid <= mid' <= hi
    ensures StartsIn(rsv, lo, mid) + StartsIn(rsv, mid', hi) <= StartsIn(rsv, lo, hi) <= |rsv|
  {
    if rsv != [] { StartsInAdds(rsv[1..], lo, mid, mid', hi); }
  }

  lemma {:induction false} StartsInShrinks(rsv: seq<Range>, lo: nat, lo': nat, hi: nat)
    requires lo <= lo'
    ensures StartsIn(rsv, lo', hi) <= StartsIn(rsv, lo, hi)
  {
    if rsv != [] { StartsInShrinks(rsv[1..], lo, lo', hi); }
  }

  /** Each piece after the first is owed to a reserved range that starts inside. */
  lemma {:induction false} CarveCount(cur: nat, hi: nat, rsv: seq<Range>)
    requires Separated(rsv)
    ensures |Carve(cur, hi, rsv)| <= 1 + StartsIn(rsv, cur, hi)
    decreases |rsv|
  {
    if rsv != [] {
      var cur' := Max(cur, rsv[0].End());
      CarveCount(cur', hi, rsv[1..]);
      StartsInShrinks(rsv[1..], cur, cur', hi);
      if hi <= rsv[0].base { CarveStops(cur', hi, rsv[1..]); }
    }
  }

  /** The result is strictly apart and in order, and has no more ranges than went in. */
  lemma {:induction false} SubtractShape(mem: seq<Range>, rsv: seq<Range>)
    requires Separated(mem) && Separated(rsv)
    ensures Separated(Subtract(mem, rsv))
    ensures mem != [] ==> Within(Subtract(mem, rsv), mem[0].base, mem[|mem| - 1].End())
    ensures mem != [] ==> |Subtract(mem, rsv)| <= |mem| + StartsIn(rsv, mem[0].base, mem[|mem| - 1].End())
    ensures |Subtract(mem, rsv)| <= |mem| + |rsv|
  {
    if mem != [] {
      var init, last := mem[..|mem| - 1], mem[|mem| - 1];
      SubtractShape(init, rsv);
      CarveShape(last.base, last.End(), rsv);
      CarveCount(last.base, last.End(), rsv);
      StartsInAdds(rsv, last.base, last.base, last.base, last.End());
      if init != [] {
        var lo, mid := init[0].base, init[|init| - 1].End();
        assert lo <= mid by { assert init[0].End() <= mid; }
        StartsInAdds(rsv, lo, mid, last.base, last.End());
        SeparatedConcat(Subtract(init, rsv), Carve(last.base, last.End(), rsv), lo, mid, last.base, last.End());
      }
    }
  }

  /** Append the range from `lo` to `hi`, if it is not empty, unless `out` is full. */
  method PushPiece(out: array<Range>, cap: nat, n: nat, lo: nat, hi: nat) returns (ok: bool, n': nat)
    requires n <= cap <= out.Length
    modifies out
    ensures ok <==> n + |Piece(lo, hi)| <= cap
    ensures ok ==> n' == n + |Piece(lo, hi)| && out[..n'] == old(out[..n]) + Piece(lo, hi)
  {
    if lo >= hi { return true, n; }
    if n >= cap { return false, n; }
    out[n] := Range(lo, hi - lo);
    return true, n + 1;
  }

  lemma {:induction false} CarveHead(done: seq<Range>, cur: nat, hi: nat, rsv: seq<Range>, k: nat)
    requires k < |rsv| && rsv[k].base < hi
    ensures done + Carve(cur, hi, rsv[k..]) ==
            done + Piece(cur, rsv[k].base) + Carve(Max(cur, rsv[k].End()), hi, rsv[k + 1..])
  {
    assert rsv[k..][1..] == rsv[k + 1..];
  }

  /** Cut the reserved ranges from `j` on out of one memory range. */
  method CarveRange(lo: nat, hi: nat, rsv: seq<Range>, j: nat, out: array<Range>, cap: nat, n: nat)
    returns (ok: bool, n': nat)
    requires Separated(rsv) && j <= |rsv| && n <= cap <= out.Length
    modifies out
    ensures ok <==> n + |Carve(lo, hi, rsv[j..])| <= cap
    ensures ok ==> n' == n + |Carve(lo, hi, rsv[j..])| && out[..n'] == old(out[..n]) + Carve(lo, hi, rsv[j..])
  {
    ghost var goal := old(out[..n]) + Carve(lo, hi, rsv[j..]);
    var cur: nat, k := lo, j;
    n' := n;
    while k < |rsv| && rsv[k].base < hi
      invariant j <= k <= |rsv| && n' <= cap
      invariant out[..n'] + Carve(cur, hi, rsv[k..]) == goal
    {
      CarveHead(out[..n'], cur, hi, rsv, k);
      ok, n' := PushPiece(out, cap, n', cur, rsv[k].base);
      if !ok { return; }
      if rsv[k].End() > cur { cur := rsv[k].End(); }
      k := k + 1;
      if cur >= hi { break; }
    }
    CarveStops(cur, hi, rsv[k..]);
    ok, n' := PushPiece(out, cap, n', cur, hi);
  }

  /** Memory minus reserved; fails exactly when the result does not fit. */
  method SubtractReserved(mem: seq<Range>, rsv: seq<Range>, out: array<Range>, cap: nat) returns (ok: bool, n: nat)
    requires Separated(mem) && Separated(rsv) && cap <= out.Length
    modifies out
    ensures ok <==> |Subtract(mem, rsv)| <= cap
    ensures ok ==> n == |Subtract(mem, rsv)| && out[..n] == Subtract(mem, rsv)
  {
    n := 0;
    var j := 0;
    for i := 0 to |mem|
      invariant n <= cap && out[..n] == Subtract(mem[..i], rsv)
      invariant j <= |rsv|
      invariant forall k, m :: 0 <= k < j && i <= m < |mem| ==> rsv[k].End() <= mem[m].base
    {
      assert mem[..i + 1][..i] == mem[..i];
      if mem[i].size == 0 { continue; }
      while j < |rsv| && rsv[j].End() <= mem[i].base
        invariant j <= |rsv|
        invariant forall k, m :: 0 <= k < j && i <= m < |mem| ==> rsv[k].End() <= mem[m].base
      {
        j := j + 1;
      }
      CarveSkips(mem[i].base, mem[i].End(), rsv, j);
      ok, n := CarveRange(mem[i].base, mem[i].End(), rsv, j, out, cap, n);
      if !ok {
        SubtractGrows(mem, rsv, i + 1);
        return;
      }
    }
    assert mem[..|mem|] == mem;
    ok := true;
  }

  lemma {:induction false} SubtractGrows(mem: seq<Range>, rsv: seq<Range>, i: nat)
    requires i <= |mem|
    ensures |Subtract(mem[..i], rsv)| <= |Subtract(mem, rsv)|
    decreases |mem| - i
  {
    if i < |mem| {
      SubtractGrows(mem, rsv, i + 1);
      assert mem[..i + 1][..i] == mem[..i];
    } else {
      assert mem[..i] == mem;
    }
  }
}
