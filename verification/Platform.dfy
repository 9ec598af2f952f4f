/**
 Deriving the usable RAM ranges: device-tree memory shrunk to whole pages of the
 direct-map window, minus every page touched by a reservation.
 */
module Platform {
  import opened Ranges

  const PAGE: nat := 0x1000
  const RAM_BASE: nat := 0x4000_0000
  const WINDOW_SIZE: nat := 0x4000_0000
  const WIN_LO: nat := RAM_BASE
  const WIN_HI: nat := RAM_BASE + WINDOW_SIZE
  const HH_RAM_BASE: nat := 0xFFFF_8000_4000_0000
  const METADATA_PAGES: nat := 16
  const MAX_RANGES: nat := 64
  const U64: nat := 0x1_0000_0000_0000_0000

  /** Unsigned 64-bit addition. */
  function Add64(a: nat, b: nat): nat { (a + b) % U64 }

  function AlignDown(x: nat): nat { x / PAGE * PAGE }
  function AlignUp(x: nat): nat { AlignDown(Add64(x, PAGE - 1)) }

  /** Nothing computed from the range wraps. */
  predicate Sane(r: Range) { r.base + r.size + PAGE <= U64 }

  lemma {:induction false} AlignDownIs(x: nat, p: nat)
    requires p % PAGE == 0
    ensures AlignDown(x) % PAGE == 0
    ensures AlignDown(x) <= p <==> x < p + PAGE
    ensures p < AlignDown(x) <==> p + PAGE <= x
  {
  }

  lemma {:induction false} AlignUpIs(x: nat, p: nat)
    requires p % PAGE == 0 && x + PAGE <= U64
    ensures AlignUp(x) % PAGE == 0
    ensures AlignUp(x) <= p <==> x <= p
    ensures p < AlignUp(x) <==> p < x
  {
  }

  function HighToPhys(va: nat): nat {
    if va >= HH_RAM_BASE then va - HH_RAM_BASE + RAM_BASE else va
  }

  // ------------------------------------------------------ rounding to pages

  /** The whole pages of a range inside the window. */
  function Shrink(r: Range): seq<Range> {
    Piece(Max(AlignUp(r.base), WIN_LO), Min(AlignDown(Add64(r.base, r.size)), WIN_HI))
  }

  /** The window pages from the one holding `lo` to the one holding the byte before `hi`. */
  function Grow(lo: nat, hi: nat): seq<Range> {
    Piece(Max(AlignDown(lo), WIN_LO), Min(AlignUp(hi), WIN_HI))
  }

  predicate InWindow(p: nat) { WIN_LO <= p < WIN_HI }
  predicate PageIn(r: Range, p: nat) { r.base <= p && p + PAGE <= r.End() }
  predicate Touches(lo: nat, hi: nat, p: nat) { lo < p + PAGE && p < hi }

  lemma {:induction false} ShrinkCovers(r: Range, p: nat)
    requires Sane(r) && p % PAGE == 0
    ensures Covers(Shrink(r), p) <==> PageIn(r, p) && InWindow(p)
  {
    AlignUpIs(r.base, p);
    AlignDownIs(r.End(), p);
    PieceCovers(Max(AlignUp(r.base), WIN_LO), Min(AlignDown(Add64(r.base, r.size)), WIN_HI), p);
  }

  lemma {:induction false} GrowCovers(lo: nat, hi: nat, p: nat)
    requires hi + PAGE <= U64 && p % PAGE == 0
    ensures Covers(Grow(lo, hi), p) <==> Touches(lo, hi, p) && InWindow(p)
  {
    AlignDownIs(lo, p);
    AlignUpIs(hi, p);
    PieceCovers(Max(AlignDown(lo), WIN_LO), Min(AlignUp(hi), WIN_HI), p);
  }

  function ShrinkAll(s: seq<Range>): seq<Range> {
    if s == [] then [] else ShrinkAll(s[..|s| - 1]) + Shrink(s[|s| - 1])
  }

  function GrowRange(r: Range): seq<Range> {
    if r.size == 0 then [] else Grow(r.base, Add64(r.base, r.size))
  }

  function GrowAll(s: seq<Range>): seq<Range> {
    if s == [] then [] else GrowAll(s[..|s| - 1]) + GrowRange(s[|s| - 1])
  }

  predicate Hits(r: Range, p: nat) { r.size > 0 && Touches(r.base, r.End(), p) }

  lemma {:induction false} GrowRangeCovers(r: Range, p: nat)
    requires Sane(r) && p % PAGE == 0
    ensures Covers(GrowRange(r), p) <==> Hits(r, p) && InWindow(p)
  {
    GrowCovers(r.base, r.End(), p);
  }

  /** Some range holds page `p` whole. */
  ghost predicate SomePageIn(s: seq<Range>, p: nat) {
    exists i :: 0 <= i < |s| && PageIn(s[i], p)
  }

  /** Some non-empty range touches page `p`. */
  ghost predicate SomeHits(s: seq<Range>, p: nat) {
    exists i :: 0 <= i < |s| && Hits(s[i], p)
  }

  lemma {:induction false} SomeSnoc(s: seq<Range>, p: nat)
    requires s != []
    ensures SomePageIn(s, p) <==> SomePageIn(s[..|s| - 1], p) || PageIn(s[|s| - 1], p)
    ensures SomeHits(s, p) <==> SomeHits(s[..|s| - 1], p) || Hits(s[|s| - 1], p)
  {
    var init := s[..|s| - 1];
    assert forall i :: 0 <= i < |init| ==> init[i] == s[i];
  }

  ghost predicate AllSane(s: seq<Range>) {
    forall i :: 0 <= i < |s| ==> Sane(s[i])
  }

  lemma {:induction false} ShrinkAllCovers(s: seq<Range>, p: nat)
    requires p % PAGE == 0 && AllSane(s)
    ensures Covers(ShrinkAll(s), p) <==> InWindow(p) && SomePageIn(s, p)
  {
    if s != [] {
      var init := s[..|s| - 1];
      ShrinkAllCovers(init, p);
      ShrinkCovers(s[|s| - 1], p);
      CoversConcat(ShrinkAll(init), Shrink(s[|s| - 1]), p);
      SomeSnoc(s, p);
    }
  }

  lemma {:induction false} GrowAllCovers(s: seq<Range>, p: nat)
    requires p % PAGE == 0 && AllSane(s)
    ensures Covers(GrowAll(s), p) <==> InWindow(p) && SomeHits(s, p)
  {
    if s != [] {
      var init := s[..|s| - 1];
      GrowAllCovers(init, p);
      GrowRangeCovers(s[|s| - 1], p);
      CoversConcat(GrowAll(init), GrowRange(s[|s| - 1]), p);
      SomeSnoc(s, p);
    }
  }

  // --------------------------------------------------------- the derivation

  /** What boot hands over: where the kernel was loaded, and the device-tree blob. */
  datatype Boot = Boot(kernelBase: nat, dtbPtr: nat, dtbSize: nat)

  /** Everything the derivation reads. */
  datatype Input = Input(
    mem: seq<Range>,      // device-tree memory ranges
    rsv: seq<Range>,      // device-tree reserved ranges
    boot: Boot,
    runtimeEnd: nat,      // end of the kernel's footprint, as the linker gives it
    dtbTotal: nat)        // total size in the device-tree header

  function RuntimeEnd(x: Input): nat { HighToPhys(x.runtimeEnd) }
  function MetaBase(x: Input): nat { AlignUp(RuntimeEnd(x)) }
  function MetaEnd(x: Input): nat { MetaBase(x) + METADATA_PAGES * PAGE }
  function DtbBase(x: Input): nat { HighToPhys(x.boot.dtbPtr) }

  function DtbBytes(x: Input): nat {
    var sz := if x.dtbTotal == 0 then x.boot.dtbSize else x.dtbTotal;
    if x.boot.dtbSize != 0 && sz > x.boot.dtbSize then x.boot.dtbSize else sz
  }

  function LowestBase(m: seq<Range>): nat {
    if m != [] then m[0].base else RAM_BASE
  }

  /** The reservations the kernel adds to the device tree's. */
  function BootPiece(x: Input, lowest: nat): seq<Range> {
    if x.boot.kernelBase > lowest then Grow(lowest, x.boot.kernelBase) else []
  }
  function KernelPiece(x: Input): seq<Range> { Grow(x.boot.kernelBase, RuntimeEnd(x)) }
  function MetaPiece(x: Input): seq<Range> {
    if MetaBase(x) < WIN_HI then Piece(MetaBase(x), Min(MetaEnd(x), WIN_HI)) else []
  }
  function DtbPiece(x: Input): seq<Range> {
    if x.boot.dtbPtr == 0 then [] else Grow(DtbBase(x), Add64(DtbBase(x), DtbBytes(x)))
  }

  function Reservations(x: Input, lowest: nat): (r: seq<Range>)
    ensures |r| <= |x.rsv| + 4
  {
    GrowAllCount(x.rsv);
    GrowAll(x.rsv) + BootPiece(x, lowest) + KernelPiece(x) + MetaPiece(x) + DtbPiece(x)
  }

  lemma {:induction false} GrowAllCount(s: seq<Range>)
    ensures |GrowAll(s)| <= |s|
  {
    if s != [] { GrowAllCount(s[..|s| - 1]); }
  }

  /** Page `p` is touched by a reservation. */
  ghost predicate PageReserved(x: Input, lowest: nat, p: nat) {
    || SomeHits(x.rsv, p)
    || (x.boot.kernelBase > lowest && Touches(lowest, x.boot.kernelBase, p))
    || Touches(x.boot.kernelBase, RuntimeEnd(x), p)
    || MetaBase(x) <= p < MetaEnd(x)
    || (x.boot.dtbPtr != 0 && Touches(DtbBase(x), DtbBase(x) + DtbBytes(x), p))
  }

  /** No address computed from the input wraps. */
  ghost predicate SaneInput(x: Input) {
    && AllSane(x.mem)
    && AllSane(x.rsv)
    && x.boot.kernelBase + PAGE <= U64
    && RuntimeEnd(x) + PAGE <= U64
    && DtbBase(x) + DtbBytes(x) + PAGE <= U64
  }

  lemma {:induction false} CoversFive(a: seq<Range>, b: seq<Range>, c: seq<Range>, d: seq<Range>, e: seq<Range>, p: nat)
    ensures Covers(a + b + c + d + e, p) <==>
            Covers(a, p) || Covers(b, p) || Covers(c, p) || Covers(d, p) || Covers(e, p)
  {
    CoversConcat(a, b, p);
    CoversConcat(a + b, c, p);
    CoversConcat(a + b + c, d, p);
    CoversConcat(a + b + c + d, e, p);
  }

  lemma {:induction false} MetaPieceCovers(x: Input, p: nat)
    requires InWindow(p)
    ensures Covers(MetaPiece(x), p) <==> MetaBase(x) <= p < MetaEnd(x)
  {
    PieceCovers(MetaBase(x), Min(MetaEnd(x), WIN_HI), p);
  }

  lemma {:induction false} DtbPieceCovers(x: Input, p: nat)
    requires SaneInput(x) && p % PAGE == 0 && InWindow(p)
    ensures Covers(DtbPiece(x), p) <==> x.boot.dtbPtr != 0 && Touches(DtbBase(x), DtbBase(x) + DtbBytes(x), p)
  {
    GrowCovers(DtbBase(x), DtbBase(x) + DtbBytes(x), p);
  }

  lemma {:induction false} ReservationsCover(x: Input, lowest: nat, p: nat)
    requires SaneInput(x) && p % PAGE == 0 && InWindow(p)
    ensures Covers(Reservations(x, lowest), p) <==> PageReserved(x, lowest, p)
  {
    GrowAllCovers(x.rsv, p);
    GrowCovers(lowest, x.boot.kernelBase, p);
    GrowCovers(x.boot.kernelBase, RuntimeEnd(x), p);
    MetaPieceCovers(x, p);
    DtbPieceCovers(x, p);
    CoversFive(GrowAll(x.rsv), BootPiece(x, lowest), KernelPiece(x), MetaPiece(x), DtbPiece(x), p);
  }

  // ---------------------------------------------------------- page alignment

  predicate PageAligned(r: Range) { r.base % PAGE == 0 && r.End() % PAGE == 0 }

  predicate Aligned(s: seq<Range>) {
    forall i :: 0 <= i < |s| ==> PageAligned(s[i])
  }

  lemma {:induction false} ShrinkAligned(r: Range)
    ensures Aligned(Shrink(r)) && Within(Shrink(r), WIN_LO, WIN_HI)
  {
  }

  lemma {:induction false} ShrinkAllAligned(s: seq<Range>)
    ensures Aligned(ShrinkAll(s)) && Within(ShrinkAll(s), WIN_LO, WIN_HI) && |ShrinkAll(s)| <= |s|
  {
    if s != [] {
      ShrinkAllAligned(s[..|s| - 1]);
      ShrinkAligned(s[|s| - 1]);
    }
  }

  lemma {:induction false} GrowAllAligned(s: seq<Range>)
    ensures Aligned(GrowAll(s))
  {
    if s != [] {
      GrowAllAligned(s[..|s| - 1]);
      GrowAligned(s[|s| - 1].base, Add64(s[|s| - 1].base, s[|s| - 1].size));
    }
  }

  lemma {:induction false} GrowAligned(lo: nat, hi: nat)
    ensures Aligned(Grow(lo, hi))
  {
  }

  lemma {:induction false} MetaPieceAligned(x: Input)
    ensures Aligned(MetaPiece(x))
  {
    assert MetaBase(x) % PAGE == 0;
  }

  lemma {:induction false} AlignedFive(a: seq<Range>, b: seq<Range>, c: seq<Range>, d: seq<Range>, e: seq<Range>)
    requires Aligned(a) && Aligned(b) && Aligned(c) && Aligned(d) && Aligned(e)
    ensures Aligned(a + b + c + d + e)
  {
  }

  lemma {:induction false} ReservationsAligned(x: Input, lowest: nat)
    ensures Aligned(Reservations(x, lowest))
  {
    GrowAllAligned(x.rsv);
    GrowAligned(lowest, x.boot.kernelBase);
    GrowAligned(x.boot.kernelBase, RuntimeEnd(x));
    GrowAligned(DtbBase(x), Add64(DtbBase(x), DtbBytes(x)));
    MetaPieceAligned(x);
    AlignedFive(GrowAll(x.rsv), BootPiece(x, lowest), KernelPiece(x), MetaPiece(x), DtbPiece(x));
  }

  lemma {:induction false} PermutationAligned(s: seq<Range>, t: seq<Range>, lo: nat, hi: nat)
    requires multiset(s) == multiset(t) && Aligned(s)
    ensures Aligned(t) && |t| == |s|
    ensures Within(s, lo, hi) ==> Within(t, lo, hi)
  {
    forall i | 0 <= i < |t|
      ensures PageAligned(t[i]) && (Within(s, lo, hi) ==> lo <= t[i].base && t[i].End() <= hi)
    {
      assert t[i] in multiset(s);
    }
    assert |multiset(s)| == |s| && |multiset(t)| == |t|;
  }

  lemma {:induction false} MergeIntoAligned(acc: seq<Range>, r: Range, lo: nat, hi: nat)
    requires Aligned(acc) && PageAligned(r)
    ensures Aligned(MergeInto(acc, r))
    ensures Within(acc, lo, hi) && lo <= r.base && r.End() <= hi ==> Within(MergeInto(acc, r), lo, hi)
  {
  }

  lemma {:induction false} MergeAligned(s: seq<Range>, lo: nat, hi: nat)
    requires Aligned(s)
    ensures Aligned(Merge(s)) && (Within(s, lo, hi) ==> Within(Merge(s), lo, hi))
  {
    if s != [] {
      MergeAligned(s[..|s| - 1], lo, hi);
      MergeIntoAligned(Merge(s[..|s| - 1]), s[|s| - 1], lo, hi);
    }
  }

  lemma {:induction false} CarveAligned(cur: nat, hi: nat, rsv: seq<Range>)
    requires Aligned(rsv) && cur % PAGE == 0 && hi % PAGE == 0
    ensures Aligned(Carve(cur, hi, rsv))
    decreases |rsv|
  {
    if rsv != [] { CarveAligned(Max(cur, rsv[0].End()), hi, rsv[1..]); }
  }

  lemma {:induction false} SubtractAligned(mem: seq<Range>, rsv: seq<Range>)
    requires Aligned(mem) && Aligned(rsv)
    ensures Aligned(Subtract(mem, rsv))
  {
    if mem != [] {
      SubtractAligned(mem[..|mem| - 1], rsv);
      CarveAligned(mem[|mem| - 1].base, mem[|mem| - 1].End(), rsv);
    }
  }

  lemma {:induction false} ShrinkKeeps(r: Range)
    requires PageAligned(r) && r.size > 0 && WIN_LO <= r.base && r.End() <= WIN_HI
    ensures Shrink(r) == [r]
  {
    AlignUpIs(r.base, r.base);
    AlignDownIs(r.End(), r.End());
  }

  /** Whole pages of the window are already shrunk. */
  lemma {:induction false} ShrinkAllKeeps(s: seq<Range>)
    requires Aligned(s) && Separated(s) && Within(s, WIN_LO, WIN_HI)
    ensures ShrinkAll(s) == s
  {
    if s != [] {
      ShrinkAllKeeps(s[..|s| - 1]);
      ShrinkKeeps(s[|s| - 1]);
    }
  }

  // ------------------------------------------------------- what it computes

  /** A whole page of the window inside one device-tree memory range. */
  ghost predicate PageMemory(x: Input, p: nat) {
    InWindow(p) && SomePageIn(x.mem, p)
  }

  /** A memory page above the kernel's load address that no reservation touches. */
  ghost predicate Usable(x: Input, p: nat) {
    && PageMemory(x, p)
    && x.boot.kernelBase <= p
    && !Touches(x.boot.kernelBase, RuntimeEnd(x), p)
    && !(MetaBase(x) <= p < MetaEnd(x))
    && !(x.boot.dtbPtr != 0 && Touches(DtbBase(x), DtbBase(x) + DtbBytes(x), p))
    && !SomeHits(x.rsv, p)
  }

  /** `m` is `s` sorted and merged. */
  ghost predicate Tidied(s: seq<Range>, m: seq<Range>) {
    exists t :: Sorted(t) && multiset(t) == multiset(s) && m == Merge(t)
  }

  lemma {:induction false} TidiedSound(s: seq<Range>, m: seq<Range>, p: nat)
    requires Tidied(s, m) && Aligned(s)
    ensures Separated(m) && Aligned(m) && |m| <= |s|
    ensures Covers(m, p) <==> Covers(s, p)
    ensures Within(s, WIN_LO, WIN_HI) ==> Within(m, WIN_LO, WIN_HI)
  {
    var t :| Sorted(t) && multiset(t) == multiset(s) && m == Merge(t);
    PermutationCovers(s, t, p);
    PermutationAligned(s, t, WIN_LO, WIN_HI);
    MergeSound(t, p);
    MergeAligned(t, WIN_LO, WIN_HI);
  }

  /** For a memory page at or above `lowest`, being reserved is failing one of the clauses of `Usable`. */
  lemma {:induction false} UsableOrReserved(x: Input, lowest: nat, p: nat)
    requires PageMemory(x, p) && lowest <= p
    ensures Usable(x, p) <==> !PageReserved(x, lowest, p)
  {
  }

  lemma {:induction false} LowestIsLowest(m: seq<Range>, p: nat)
    requires Separated(m) && Covers(m, p)
    ensures LowestBase(m) <= p
  {
    var i :| 0 <= i < |m| && m[i].Has(p);
    assert i > 0 ==> m[0].End() < m[i].base;
  }

  /** The pages left after tidying and subtracting are exactly the usable ones. */
  lemma {:induction false} SubtractIsUsable(x: Input, m: seq<Range>, r: seq<Range>, p: nat)
    requires SaneInput(x) && p % PAGE == 0
    requires Tidied(ShrinkAll(x.mem), m) && Tidied(Reservations(x, LowestBase(m)), r)
    ensures Covers(Subtract(m, r), p) <==> Usable(x, p)
  {
    ShrinkAllAligned(x.mem);
    ReservationsAligned(x, LowestBase(m));
    TidiedSound(ShrinkAll(x.mem), m, p);
    TidiedSound(Reservations(x, LowestBase(m)), r, p);
    ShrinkAllCovers(x.mem, p);
    SubtractCovers(m, r, p);
    if PageMemory(x, p) {
      ReservationsCover(x, LowestBase(m), p);
      LowestIsLowest(m, p);
      UsableOrReserved(x, LowestBase(m), p);
    }
  }

  // ------------------------------------------------------------ the methods

  method ShrinkBounds(r: Range) returns (start: nat, end: nat)
    ensures Piece(start, end) == Shrink(r)
  {
    start := AlignUp(r.base);
    end := AlignDown(Add64(r.base, r.size));
    if start < WIN_LO { start := WIN_LO; }
    if end > WIN_HI { end := WIN_HI; }
  }

  /** Shrink the range at `i` and keep it, if a page is left, behind the `w` already kept. */
  method ShrinkStep(a: array<Range>, w: nat, i: nat) returns (w': nat)
    requires w <= i < a.Length
    modifies a
    ensures w' <= i + 1 && a[..w'] == old(a[..w]) + Shrink(old(a[i])) && a[i + 1..] == old(a[i + 1..])
  {
    var start, end := ShrinkBounds(a[i]);
    if end <= start { return w; }
    a[w] := Range(start, end - start);
    return w + 1;
  }

  /** Shrink every range to whole window pages, compacting in place. */
  method ShrinkInPlace(a: array<Range>, n: nat) returns (w: nat)
    requires n <= a.Length
    modifies a
    ensures w <= n && a[..w] == ShrinkAll(old(a[..n])) && a[n..] == old(a[n..])
  {
    ghost var s := a[..];
    w := 0;
    for i := 0 to n
      invariant w <= i && a[..w] == ShrinkAll(s[..i]) && a[i..] == s[i..]
    {
      assert s[..i + 1][..i] == s[..i];
      assert a[i] == a[i..][0] == s[i];
      assert a[i + 1..] == a[i..][1..];
      w := ShrinkStep(a, w, i);
    }
    assert s[..n] == old(a[..n]);
  }

  method Tidy(a: array<Range>, n: nat) returns (w: nat)
    requires n <= a.Length
    modifies a
    ensures w <= n && Tidied(old(a[..n]), a[..w])
  {
    SortRanges(a, n);
    w := NormalizeMerge(a, n);
  }

  /** Append the window pages touched by the addresses from `lo` to `hi`. */
  method PushGrown(all: array<Range>, n: nat, lo: nat, hi: nat) returns (n': nat)
    requires n < all.Length
    modifies all
    ensures n' <= n + 1 && all[..n'] == old(all[..n]) + Grow(lo, hi)
  {
    var start, end := AlignDown(lo), AlignUp(hi);
    if start < WIN_LO { start := WIN_LO; }
    if end > WIN_HI { end := WIN_HI; }
    var ok;
    ok, n' := PushPiece(all, all.Length, n, start, end);
  }

  /** The device tree's reservations, page-grown; the list is never full. */
  method CollectTreeReservations(rsv: seq<Range>, all: array<Range>) returns (n: nat)
    requires |rsv| <= MAX_RANGES && all.Length == 2 * MAX_RANGES
    modifies all
    ensures n <= |rsv| && all[..n] == GrowAll(rsv)
  {
    n := 0;
    var i := 0;
    while i < |rsv| && n < all.Length
      invariant n <= i <= |rsv| && all[..n] == GrowAll(rsv[..i])
    {
      assert rsv[..i + 1][..i] == rsv[..i];
      if rsv[i].size != 0 {
        n := PushGrown(all, n, rsv[i].base, Add64(rsv[i].base, rsv[i].size));
      }
      i := i + 1;
    }
    assert rsv[..|rsv|] == rsv;
  }

  method PushMeta(x: Input, all: array<Range>, n: nat) returns (n': nat)
    requires n < all.Length
    modifies all
    ensures n' <= n + 1 && all[..n'] == old(all[..n]) + MetaPiece(x)
  {
    var start := AlignUp(RuntimeEnd(x));
    n' := n;
    if start < WIN_HI {
      var ok;
      ok, n' := PushPiece(all, all.Length, n, start, Min(start + METADATA_PAGES * PAGE, WIN_HI));
    }
  }

  method PushDtb(x: Input, all: array<Range>, n: nat) returns (n': nat)
    requires n < all.Length
    modifies all
    ensures n' <= n + 1 && all[..n'] == old(all[..n]) + DtbPiece(x)
  {
    n' := n;
    if x.boot.dtbPtr != 0 {
      n' := PushGrown(all, n, DtbBase(x), Add64(DtbBase(x), DtbBytes(x)));
    }
  }

  method PushBoot(x: Input, lowest: nat, all: array<Range>, n: nat) returns (n': nat)
    requires n < all.Length
    modifies all
    ensures n' <= n + 1 && all[..n'] == old(all[..n]) + BootPiece(x, lowest)
  {
    n' := n;
    if x.boot.kernelBase > lowest {
      n' := PushGrown(all, n, lowest, x.boot.kernelBase);
    }
  }

  /** All reservations: the device tree's, then boot region, kernel, allocator metadata and device-tree blob. */
  method CollectReservations(x: Input, lowest: nat, all: array<Range>) returns (n: nat)
    requires |x.rsv| <= MAX_RANGES && all.Length == 2 * MAX_RANGES
    modifies all
    ensures n <= all.Length && all[..n] == Reservations(x, lowest)
  {
    n := CollectTreeReservations(x.rsv, all);
    n := PushBoot(x, lowest, all, n);
    n := PushGrown(all, n, x.boot.kernelBase, RuntimeEnd(x));
    n := PushMeta(x, all, n);
    n := PushDtb(x, all, n);
  }

  /** What a caller learns from a successful derivation. */
  ghost predicate Derived(x: Input, u: seq<Range>) {
    && Separated(u) && Aligned(u) && Within(u, WIN_LO, WIN_HI)
    && (SaneInput(x) ==> forall p: nat :: CoversExactly(x, u, p))
  }

  ghost predicate CoversExactly(x: Input, u: seq<Range>, p: nat) {
    p % PAGE == 0 ==> (Covers(u, p) <==> Usable(x, p))
  }

  /** `m` and `r` are the tidied memory pages and reservations of the input. */
  ghost predicate Prepared(x: Input, m: seq<Range>, r: seq<Range>) {
    Tidied(ShrinkAll(x.mem), m) && Tidied(Reservations(x, LowestBase(m)), r)
  }

  lemma {:induction false} PreparedShape(x: Input, m: seq<Range>, r: seq<Range>)
    requires Prepared(x, m, r)
    ensures Separated(m) && Separated(r)
    ensures |Subtract(m, r)| <= |x.mem| + |x.rsv| + 4
    ensures Separated(Subtract(m, r)) && Aligned(Subtract(m, r)) && Within(Subtract(m, r), WIN_LO, WIN_HI)
  {
    ShrinkAllAligned(x.mem);
    ReservationsAligned(x, LowestBase(m));
    TidiedSound(ShrinkAll(x.mem), m, 0);
    TidiedSound(Reservations(x, LowestBase(m)), r, 0);
    SubtractShape(m, r);
    SubtractAligned(m, r);
  }

  lemma {:induction false} DerivedHolds(x: Input, m: seq<Range>, r: seq<Range>, u: seq<Range>)
    requires Prepared(x, m, r) && Tidied(ShrinkAll(Subtract(m, r)), u)
    ensures Derived(x, u)
  {
    PreparedShape(x, m, r);
    var c := Subtract(m, r);
    ShrinkAllKeeps(c);
    TidiedSound(c, u, 0);
    if SaneInput(x) {
      forall p: nat
        ensures CoversExactly(x, u, p)
      {
        TidiedSound(c, u, p);
        if p % PAGE == 0 { SubtractIsUsable(x, m, r, p); }
      }
    }
  }

  method MemoryPages(x: Input, mem: array<Range>) returns (n: nat)
    requires |x.mem| <= MAX_RANGES == mem.Length && mem[..|x.mem|] == x.mem
    modifies mem
    ensures n <= mem.Length && Tidied(ShrinkAll(x.mem), mem[..n])
  {
    n := ShrinkInPlace(mem, |x.mem|);
    n := Tidy(mem, n);
  }

  method ReservedPages(x: Input, lowest: nat) returns (all: array<Range>, n: nat)
    requires |x.rsv| <= MAX_RANGES
    ensures fresh(all) && n <= all.Length && Tidied(Reservations(x, lowest), all[..n])
  {
    all := new Range[2 * MAX_RANGES](_ => Range(0, 0));
    n := CollectReservations(x, lowest, all);
    n := Tidy(all, n);
  }

  method Prepare(x: Input) returns (m: seq<Range>, r: seq<Range>)
    requires |x.mem| <= MAX_RANGES && |x.rsv| <= MAX_RANGES
    ensures Prepared(x, m, r)
  {
    var mem := new Range[MAX_RANGES](i => if 0 <= i < |x.mem| then x.mem[i] else Range(0, 0));
    assert mem[..|x.mem|] == x.mem;
    var memN := MemoryPages(x, mem);
    m := mem[..memN];
    var all, allN := ReservedPages(x, LowestBase(m));
    r := all[..allN];
  }

  /** Derive the usable ranges; fails only without memory ranges or when the result cannot fit. */
  method UsableRanges(x: Input, out: array<Range>, cap: nat) returns (ok: bool, n: nat)
    requires |x.mem| <= MAX_RANGES && |x.rsv| <= MAX_RANGES && cap <= out.Length
    modifies out
    ensures x.mem == [] ==> !ok
    ensures x.mem != [] && |x.mem| + |x.rsv| + 4 <= cap ==> ok
    ensures x.mem != [] ==> exists m, r :: Prepared(x, m, r) && (ok <==> |Subtract(m, r)| <= cap)
    ensures ok ==> n <= cap && Derived(x, out[..n])
  {
    if |x.mem| == 0 { return false, 0; }
    var m, r := Prepare(x);
    PreparedShape(x, m, r);
    ok, n := SubtractReserved(m, r, out, cap);
    if !ok { return; }
    n := ShrinkInPlace(out, n);
    n := Tidy(out, n);
    DerivedHolds(x, m, r, out[..n]);
  }
}
