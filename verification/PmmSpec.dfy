/**
 The physical page allocator on values: a bitmap with a search hint, and what
 every run of allocations and frees keeps.
 */
module PmmSpec {
  import opened Options

  // ------------------------------------------------------------------ bitmap

  /** How many pages are free (a set bit is a reserved page). */
  function CountFree(bits: seq<bool>): nat {
    if bits == [] then 0
    else CountFree(bits[..|bits| - 1]) + if bits[|bits| - 1] then 0 else 1
  }

  function Cost(reserved: bool): nat { if reserved then 0 else 1 }

  lemma {:induction false} CountUpdate(bits: seq<bool>, i: nat, v: bool)
    requires i < |bits|
    ensures CountFree(bits[i := v]) + Cost(bits[i]) == CountFree(bits) + Cost(v)
  {
    var n := |bits| - 1;
    if i == n {
      assert bits[i := v][..n] == bits[..n];
    } else {
      assert bits[i := v][..n] == bits[..n][i := v];
      CountUpdate(bits[..n], i, v);
    }
  }

  /** `bits` with the pages from `lo` to `hi` all set to `v`. */
  function Fill(bits: seq<bool>, lo: nat, hi: nat, v: bool): (r: seq<bool>)
    ensures |r| == |bits|
  {
    seq(|bits|, i requires 0 <= i < |bits| => if lo <= i < hi then v else bits[i])
  }

  ghost predicate AllAre(bits: seq<bool>, lo: nat, hi: nat, v: bool) {
    hi <= |bits| && forall i :: lo <= i < hi ==> bits[i] == v
  }

  lemma {:induction false} FillNone(bits: seq<bool>, lo: nat, v: bool)
    ensures Fill(bits, lo, lo, v) == bits
  {
  }

  lemma {:induction false} FillSnoc(bits: seq<bool>, lo: nat, hi: nat, v: bool)
    requires lo <= hi < |bits|
    ensures Fill(bits, lo, hi + 1, v) == Fill(bits, lo, hi, v)[hi := v]
  {
  }

  /** Filling pages that all differ from `v` changes the free count by exactly their number. */
  lemma {:induction false} FillCount(bits: seq<bool>, lo: nat, hi: nat, v: bool)
    requires lo <= hi && AllAre(bits, lo, hi, !v)
    ensures CountFree(Fill(bits, lo, hi, v)) ==
            if v then CountFree(bits) - (hi - lo) else CountFree(bits) + (hi - lo)
  {
    if lo == hi {
      FillNone(bits, lo, v);
    } else {
      FillCount(bits, lo, hi - 1, v);
      FillSnoc(bits, lo, hi - 1, v);
      CountUpdate(Fill(bits, lo, hi - 1, v), hi - 1, v);
    }
  }

  /** A free page exists exactly when the count is positive. */
  lemma {:induction false} SomeFree(bits: seq<bool>) returns (i: nat)
    requires CountFree(bits) > 0
    ensures i < |bits| && !bits[i]
  {
    i := |bits| - 1;
    if bits[i] { i := SomeFree(bits[..i]); }
  }

  // ------------------------------------------------------------------ search

  ghost predicate FreeRun(bits: seq<bool>, i: nat, count: nat) {
    AllAre(bits, i, i + count, false)
  }

  /** The first free run of `count` pages lying wholly between `lo` and `hi`. */
  ghost function Scan(bits: seq<bool>, count: nat, lo: nat, hi: nat): (r: Option<nat>)
    requires hi <= |bits|
    ensures r.Some? ==> lo <= r.value && r.value + count <= hi && FreeRun(bits, r.value, count)
    ensures r.Some? ==> forall j :: lo <= j < r.value ==> !FreeRun(bits, j, count)
    ensures r.None? ==> forall j :: lo <= j && j + count <= hi ==> !FreeRun(bits, j, count)
    decreases hi - lo
  {
    if lo + count > hi then None
    else if FreeRun(bits, lo, count) then Some(lo)
    else if lo == hi then None
    else Scan(bits, count, lo + 1, hi)
  }

  lemma {:induction false} ScanMoves(bits: seq<bool>, count: nat, lo: nat, hi: nat)
    requires count > 0 && lo + count <= hi <= |bits|
    ensures Scan(bits, count, lo, hi) == if FreeRun(bits, lo, count) then Some(lo) else Scan(bits, count, lo + 1, hi)
  {
  }

  function Clip(hint: nat, n: nat): nat { if hint >= n then 0 else hint }

  /** From the hint to the end, then from the beginning to the hint. */
  ghost function Pick(bits: seq<bool>, count: nat, hint: nat): Option<nat> {
    var start := Clip(hint, |bits|);
    var first := Scan(bits, count, start, |bits|);
    if first.Some? then first else Scan(bits, count, 0, start)
  }

  /** A request fails exactly when no free run lies wholly before or wholly after the hint. */
  lemma {:induction false} PickComplete(bits: seq<bool>, count: nat, hint: nat)
    ensures Pick(bits, count, hint).None? <==>
            forall i: nat :: (i >= Clip(hint, |bits|) || i + count <= Clip(hint, |bits|)) ==> !FreeRun(bits, i, count)
    ensures var r := Pick(bits, count, hint);
            r.Some? ==> r.value + count <= |bits| && FreeRun(bits, r.value, count)
  {
    var start := Clip(hint, |bits|);
    var a, b := Scan(bits, count, start, |bits|), Scan(bits, count, 0, start);
    forall i: nat | FreeRun(bits, i, count)
      ensures i + count <= |bits|
    {
    }
  }

  /** A single-page request fails only when no page is free. */
  lemma {:induction false} OnePageSucceeds(bits: seq<bool>, hint: nat)
    requires CountFree(bits) > 0
    ensures Pick(bits, 1, hint).Some?
  {
    var i := SomeFree(bits);
    assert FreeRun(bits, i, 1);
    PickComplete(bits, 1, hint);
  }

  // -------------------------------------------------------------------- runs

  datatype Run = Run(start: nat, count: nat)

  /** The bitmap, the hint, the metadata pages from `metaLo` to `metaHi`, and the runs handed out. */
  datatype Pages = Pages(bits: seq<bool>, hint: nat, metaLo: nat, metaHi: nat, live: seq<Run>)

  datatype Step = Alloc(count: nat) | Free(k: nat)

  /** One page given back: metadata pages and pages already free are left alone. */
  function FreePage(s: Pages, i: nat): Pages {
    if i >= |s.bits| || s.metaLo <= i < s.metaHi || !s.bits[i] then s
    else s.(bits := s.bits[i := false], hint := if i < s.hint then i else s.hint)
  }

  function FreePages(s: Pages, start: nat, count: nat): Pages {
    if count == 0 then s else FreePage(FreePages(s, start, count - 1), start + count - 1)
  }

  ghost function Allocate(s: Pages, count: nat): (Pages, Option<nat>) {
    if count == 0 || CountFree(s.bits) < count then (s, None)
    else
      var r := Pick(s.bits, count, s.hint);
      if r.None? then (s, None)
      else (s.(bits := Fill(s.bits, r.value, r.value + count, true), hint := r.value + count), r)
  }

  ghost function Next(s: Pages, step: Step): Pages
    requires step.Free? ==> step.k < |s.live|
  {
    match step
    case Alloc(count) =>
      var (t, r) := Allocate(s, count);
      if r.None? then t else t.(live := s.live + [Run(r.value, count)])
    case Free(k) =>
      FreePages(s, s.live[k].start, s.live[k].count).(live := s.live[..k] + s.live[k + 1..])
  }

  predicate Apart(a: Run, b: Run) {
    a.start + a.count <= b.start || b.start + b.count <= a.start
  }

  /** The run holds no metadata page. */
  predicate OffMeta(s: Pages, r: Run) {
    s.metaHi <= s.metaLo || r.start + r.count <= s.metaLo || s.metaHi <= r.start
  }

  /** A live run is reserved, inside the window and clear of the metadata pages. */
  ghost predicate RunOk(s: Pages, r: Run) {
    && r.count > 0
    && AllAre(s.bits, r.start, r.start + r.count, true)
    && OffMeta(s, r)
  }

  ghost predicate Inv(s: Pages) {
    && (forall i :: s.metaLo <= i < s.metaHi && i < |s.bits| ==> s.bits[i])
    && (forall k :: 0 <= k < |s.live| ==> RunOk(s, s.live[k]))
    && (forall j, k :: 0 <= j < k < |s.live| ==> Apart(s.live[j], s.live[k]))
  }

  /** A free run cannot meet a reserved one. */
  lemma {:induction false} FreeMeetsNone(bits: seq<bool>, i: nat, count: nat, r: Run)
    requires count > 0 && FreeRun(bits, i, count)
    requires r.count > 0 && forall j :: r.start <= j < r.start + r.count && j < |bits| ==> bits[j]
    ensures Apart(Run(i, count), r)
  {
    assert !bits[i];
    var atStart := r.start < |bits| && bits[r.start];
  }

  lemma {:induction false} AllocKeepsInv(s: Pages, count: nat)
    requires Inv(s)
    ensures Inv(Next(s, Alloc(count)))
  {
    var (t, r) := Allocate(s, count);
    if r.Some? {
      PickComplete(s.bits, count, s.hint);
      var u, run := Next(s, Alloc(count)), Run(r.value, count);
      if s.metaLo < s.metaHi {
        FreeMeetsNone(s.bits, r.value, count, Run(s.metaLo, s.metaHi - s.metaLo));
      }
      assert RunOk(u, run);
      forall k | 0 <= k < |s.live|
        ensures RunOk(u, s.live[k]) && Apart(s.live[k], run)
      {
        assert RunOk(s, s.live[k]);
        FreeMeetsNone(s.bits, r.value, count, s.live[k]);
      }
    }
  }

  /** Freeing a reserved run clears exactly its bits and pulls the hint back to it. */
  lemma {:induction false} FreePagesIs(s: Pages, start: nat, count: nat)
    requires AllAre(s.bits, start, start + count, true)
    requires OffMeta(s, Run(start, count))
    ensures FreePages(s, start, count) ==
            s.(bits := Fill(s.bits, start, start + count, false),
               hint := if count > 0 && start < s.hint then start else s.hint)
  {
    if count == 0 {
      FillNone(s.bits, start, false);
    } else {
      FreePagesIs(s, start, count - 1);
      FillSnoc(s.bits, start, start + count - 1, false);
    }
  }

  lemma {:induction false} FreeKeepsInv(s: Pages, k: nat)
    requires Inv(s) && k < |s.live|
    ensures Inv(Next(s, Free(k)))
  {
    var r, u := s.live[k], Next(s, Free(k));
    assert RunOk(s, r);
    FreePagesIs(s, r.start, r.count);
    forall i | 0 <= i < |u.live|
      ensures RunOk(u, u.live[i])
    {
      var j := if i < k then i else i + 1;
      assert RunOk(s, s.live[j]) && u.live[i] == s.live[j];
      assert Apart(s.live[j], r);
    }
  }

  ghost predicate ValidRun(s: Pages, run: seq<Step>)
    decreases |run|
  {
    run != [] ==> (run[0].Free? ==> run[0].k < |s.live|) && ValidRun(Next(s, run[0]), run[1..])
  }

  ghost function Exec(s: Pages, run: seq<Step>): Pages
    requires ValidRun(s, run)
    decreases |run|
  {
    if run == [] then s else Exec(Next(s, run[0]), run[1..])
  }

  ghost function LivePages(live: seq<Run>): nat {
    if live == [] then 0 else LivePages(live[..|live| - 1]) + live[|live| - 1].count
  }

  lemma {:induction false} LiveWithout(live: seq<Run>, k: nat)
    requires k < |live|
    ensures LivePages(live[..k] + live[k + 1..]) == LivePages(live) - live[k].count
  {
    var n := |live| - 1;
    if k == n {
      assert live[..k] + live[k + 1..] == live[..n];
    } else {
      LiveWithout(live[..n], k);
      assert (live[..k] + live[k + 1..])[..n - 1] == live[..n][..k] + live[..n][k + 1..];
    }
  }

  lemma {:induction false} AllocCounts(s: Pages, count: nat)
    ensures var u := Next(s, Alloc(count));
            CountFree(u.bits) + LivePages(u.live) == CountFree(s.bits) + LivePages(s.live)
  {
    var (t, r) := Allocate(s, count);
    if r.Some? {
      PickComplete(s.bits, count, s.hint);
      FillCount(s.bits, r.value, r.value + count, true);
      assert (s.live + [Run(r.value, count)])[..|s.live|] == s.live;
    }
  }

  lemma {:induction false} FreeCounts(s: Pages, k: nat)
    requires k < |s.live| && RunOk(s, s.live[k])
    ensures var u := Next(s, Free(k));
            CountFree(u.bits) + LivePages(u.live) == CountFree(s.bits) + LivePages(s.live)
  {
    var r := s.live[k];
    FreePagesIs(s, r.start, r.count);
    FillCount(s.bits, r.start, r.start + r.count, false);
    LiveWithout(s.live, k);
  }

  /** A step keeps the invariant and moves pages between free and live one for one. */
  lemma {:induction false} StepKeeps(s: Pages, step: Step)
    requires Inv(s) && (step.Free? ==> step.k < |s.live|)
    ensures Inv(Next(s, step))
    ensures CountFree(Next(s, step).bits) + LivePages(Next(s, step).live) == CountFree(s.bits) + LivePages(s.live)
  {
    match step
    case Alloc(count) =>
      AllocKeepsInv(s, count);
      AllocCounts(s, count);
    case Free(k) =>
      FreeKeepsInv(s, k);
      FreeCounts(s, k);
  }

  /**
   Over every run of allocations and frees: live runs stay pairwise disjoint,
   reserved, inside the window and off the metadata, and every page leaving the
   free count is in a live run.
   */
  lemma {:induction false} RunsStayDisjoint(s: Pages, run: seq<Step>)
    requires Inv(s) && ValidRun(s, run)
    ensures Inv(Exec(s, run))
    ensures CountFree(Exec(s, run).bits) + LivePages(Exec(s, run).live) == CountFree(s.bits) + LivePages(s.live)
    decreases |run|
  {
    if run != [] {
      StepKeeps(s, run[0]);
      RunsStayDisjoint(Next(s, run[0]), run[1..]);
    }
  }

  /** Freeing what was just allocated restores the bitmap. */
  lemma {:induction false} FreeUndoesAlloc(s: Pages, count: nat)
    requires Inv(s) && Allocate(s, count).1.Some?
    ensures Next(Next(s, Alloc(count)), Free(|s.live|)).bits == s.bits
    ensures Next(Next(s, Alloc(count)), Free(|s.live|)).live == s.live
  {
    var (t, r) := Allocate(s, count);
    PickComplete(s.bits, count, s.hint);
    AllocKeepsInv(s, count);
    var u := Next(s, Alloc(count));
    assert RunOk(u, u.live[|s.live|]);
    FreePagesIs(u, r.value, count);
  }
}
