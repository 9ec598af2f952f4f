/**
 The page allocator in place: a byte bitmap, a free count and a search hint,
 initialised from the usable ranges.
 */
module Pmm {
  import opened Options
  import opened PmmSpec
  import P = Platform
  import R = Ranges

  // ----------------------------------------------------------------- one byte

  function Mask(k: nat): bv8
    requires k < 8
  {
    if k == 0 then 1 else if k == 1 then 2 else if k == 2 then 4 else if k == 3 then 8
    else if k == 4 then 16 else if k == 5 then 32 else if k == 6 then 64 else 128
  }

  predicate Test(b: bv8, k: nat)
    requires k < 8
  {
    b & Mask(k) != 0
  }

  lemma {:induction false} SetTest(b: bv8, j: nat, k: nat)
    requires j < 8 && k < 8
    ensures Test(b | Mask(k), j) <==> j == k || Test(b, j)
  {
  }

  lemma {:induction false} ClearTest(b: bv8, j: nat, k: nat)
    requires j < 8 && k < 8
    ensures Test(b & !Mask(k), j) <==> j != k && Test(b, j)
  {
  }

  // ---------------------------------------------------------------- the bitmap

  function Bytes(pages: nat): nat { (pages + 7) / 8 }

  /** Page `i`'s bit. */
  ghost predicate BitAt(bytes: seq<bv8>, i: nat) {
    i / 8 < |bytes| && Test(bytes[i / 8], i % 8)
  }

  ghost function BitsOf(bytes: seq<bv8>, n: nat): (b: seq<bool>)
    ensures |b| == n
    ensures forall i :: 0 <= i < n ==> b[i] == BitAt(bytes, i)
  {
    seq(n, i requires 0 <= i < n => BitAt(bytes, i))
  }

  lemma {:induction false} SameByteSameBit(i: nat, j: nat)
    requires i / 8 == j / 8 && i % 8 == j % 8
    ensures i == j
  {
  }

  function Written(b: bv8, k: nat, v: bool): bv8
    requires k < 8
  {
    if v then b | Mask(k) else b & !Mask(k)
  }

  lemma {:induction false} WrittenTest(b: bv8, j: nat, k: nat, v: bool)
    requires j < 8 && k < 8
    ensures Test(Written(b, k, v), j) == if j == k then v else Test(b, j)
  {
    SetTest(b, j, k);
    ClearTest(b, j, k);
  }

  lemma {:induction false} WriteBitAt(bytes: seq<bv8>, i: nat, v: bool, j: nat)
    requires i / 8 < |bytes| && j / 8 < |bytes|
    ensures BitAt(bytes[i / 8 := Written(bytes[i / 8], i % 8, v)], j) == if j == i then v else BitAt(bytes, j)
  {
    if j / 8 == i / 8 {
      WrittenTest(bytes[i / 8], j % 8, i % 8, v);
      if j % 8 == i % 8 { SameByteSameBit(i, j); }
    }
  }

  lemma {:induction false} InBytes(n: nat, i: nat)
    requires i < n
    ensures i / 8 < Bytes(n)
  {
  }

  lemma {:induction false} WriteBitBytes(bytes: seq<bv8>, n: nat, i: nat, v: bool)
    requires |bytes| == Bytes(n) && i < n
    ensures i / 8 < |bytes|
    ensures BitsOf(bytes[i / 8 := Written(bytes[i / 8], i % 8, v)], n) == BitsOf(bytes, n)[i := v]
  {
    InBytes(n, i);
    forall j | 0 <= j < n
      ensures BitAt(bytes[i / 8 := Written(bytes[i / 8], i % 8, v)], j) == if j == i then v else BitAt(bytes, j)
    {
      InBytes(n, j);
      WriteBitAt(bytes, i, v, j);
    }
  }

  lemma {:induction false} AllOnes(bytes: seq<bv8>, n: nat)
    requires |bytes| == Bytes(n) && forall k :: 0 <= k < |bytes| ==> bytes[k] == 0xFF
    ensures BitsOf(bytes, n) == seq(n, _ => true)
  {
    forall i | 0 <= i < n
      ensures BitAt(bytes, i)
    {
      assert bytes[i / 8] == 0xFF;
    }
  }

  lemma {:induction false} NoneFree(n: nat)
    ensures CountFree(seq(n, _ => true)) == 0
  {
    if n > 0 {
      NoneFree(n - 1);
      assert seq(n, _ => true)[..n - 1] == seq(n - 1, _ => true);
    }
  }

  /** The bits once every page touched by an address range is reserved. */
  ghost function ReserveTouched(bits: seq<bool>, base: nat, start: nat, end: nat): (r: seq<bool>)
    ensures |r| == |bits|
  {
    seq(|bits|, k requires 0 <= k < |bits| => bits[k] || P.Touches(start, end, base + k * P.PAGE))
  }

  /** The bits once every whole page of an address range is free. */
  ghost function FreeInside(bits: seq<bool>, base: nat, r: R.Range): (f: seq<bool>)
    ensures |f| == |bits|
  {
    seq(|bits|, k requires 0 <= k < |bits| => bits[k] && !P.PageIn(r, base + k * P.PAGE))
  }

  // --------------------------------------------------------------- the class

  class PageAllocator {
    const basePa: nat
    const totalPages: nat
    const metaBase: nat
    const bitmap: array<bv8>
    var freePages: nat
    var nextHint: nat

    const limitPa: nat := basePa + totalPages * P.PAGE
    const metaEnd: nat := metaBase + P.METADATA_PAGES * P.PAGE

    ghost function Bits(): (b: seq<bool>)
      reads bitmap
      ensures |b| == totalPages
    {
      BitsOf(bitmap[..], totalPages)
    }

    ghost predicate Valid()
      reads this, bitmap
    {
      && bitmap.Length == Bytes(totalPages)
      && basePa % P.PAGE == 0 && metaBase % P.PAGE == 0
      && freePages == CountFree(Bits())
    }

    /** The index of the first page at or above physical address `pa`. */
    ghost function IndexOf(pa: nat): nat {
      if pa <= basePa then 0 else (pa - basePa) / P.PAGE
    }

    ghost function Abs(): Pages
      reads this, bitmap
    {
      Pages(Bits(), nextHint, IndexOf(metaBase), IndexOf(metaEnd), [])
    }

    /** Everything reserved. */
    constructor (base: nat, pages: nat, meta: nat)
      requires base % P.PAGE == 0 && meta % P.PAGE == 0
      ensures Valid() && fresh(bitmap)
      ensures basePa == base && totalPages == pages && metaBase == meta
      ensures Bits() == seq(pages, _ => true) && nextHint == 0
    {
      basePa, totalPages, metaBase := base, pages, meta;
      bitmap := new bv8[Bytes(pages)](_ => 0xFF);
      freePages, nextHint := 0, 0;
      new;
      AllOnes(bitmap[..], totalPages);
      NoneFree(totalPages);
    }

    method TestBit(i: nat) returns (b: bool)
      requires bitmap.Length == Bytes(totalPages) && i < totalPages
      ensures b == Bits()[i]
    {
      InBytes(totalPages, i);
      b := Test(bitmap[i / 8], i % 8);
    }

    method WriteBit(i: nat, v: bool)
      requires bitmap.Length == Bytes(totalPages) && i < totalPages
      modifies bitmap
      ensures Bits() == old(Bits())[i := v]
    {
      WriteBitBytes(bitmap[..], totalPages, i, v);
      InBytes(totalPages, i);
      ghost var bytes := bitmap[..];
      bitmap[i / 8] := Written(bitmap[i / 8], i % 8, v);
      assert bitmap[..] == bytes[i / 8 := Written(bytes[i / 8], i % 8, v)];
    }

    // --------------------------------------------------- marking page ranges

    /** Mark the pages from index `first` to `last`, keeping the free count in step. */
    method MarkPages(first: nat, last: nat, reserve: bool)
      requires Valid() && last <= totalPages
      modifies `freePages, bitmap
      ensures Valid() && Bits() == Fill(old(Bits()), first, last, reserve)
    {
      if last <= first {
        assert Bits() == Fill(Bits(), first, last, reserve);
        return;
      }
      FillNone(Bits(), first, reserve);
      ghost var was := Bits();
      for i := first to last
        invariant Valid() && Bits() == Fill(was, first, i, reserve)
      {
        FillSnoc(was, first, i, reserve);
        MarkPage(i, reserve);
      }
    }

    method MarkPage(i: nat, reserve: bool)
      requires Valid() && i < totalPages
      modifies `freePages, bitmap
      ensures Valid() && Bits() == old(Bits())[i := reserve]
    {
      var b := TestBit(i);
      CountUpdate(Bits(), i, reserve);
      if b != reserve {
        WriteBit(i, reserve);
        if !reserve {
          freePages := freePages + 1;
        } else if freePages > 0 {
          freePages := freePages - 1;
        }
      } else {
        assert Bits() == Bits()[i := reserve];
      }
    }

    function PageAddr(k: nat): nat { basePa + k * P.PAGE }

    /** The indices of the pages between two page-aligned addresses, clamped to the window. */
    function Clamp(s: nat, e: nat): (nat, nat) {
      var s' := if s < basePa then basePa else s;
      var e' := if e > limitPa then limitPa else e;
      if e' <= s' then (0, 0) else ((s' - basePa) / P.PAGE, (e' - basePa) / P.PAGE)
    }

    lemma {:induction false} ClampIs(s: nat, e: nat, k: nat)
      requires basePa % P.PAGE == 0 && s % P.PAGE == 0 && e % P.PAGE == 0 && k < totalPages
      ensures Clamp(s, e).1 <= totalPages
      ensures Clamp(s, e).0 <= k < Clamp(s, e).1 <==> s <= PageAddr(k) < e
    {
    }

    lemma {:induction false} ClampBound(s: nat, e: nat)
      requires basePa % P.PAGE == 0
      ensures Clamp(s, e).1 <= totalPages
    {
    }

    /** Free the whole pages inside an address range. */
    method MarkRangeFree(r: R.Range)
      requires Valid() && P.Sane(r)
      modifies `freePages, bitmap
      ensures Valid() && Bits() == FreeInside(old(Bits()), basePa, r)
    {
      var s, e := P.AlignUp(r.base), P.AlignDown(r.End());
      var c := Clamp(s, e);
      ClampBound(s, e);
      forall k: nat | k < totalPages
        ensures c.0 <= k < c.1 <==> P.PageIn(r, basePa + k * P.PAGE)
      {
        P.AlignUpIs(r.base, PageAddr(k));
        P.AlignDownIs(r.End(), PageAddr(k));
        ClampIs(s, e, k);
      }
      assert Fill(Bits(), c.0, c.1, false) == FreeInside(Bits(), basePa, r);
      MarkPages(c.0, c.1, false);
    }

    /** Reserve every page an address range touches. */
    method MarkRangeReserved(start: nat, end: nat)
      requires Valid() && end + P.PAGE <= P.U64
      modifies `freePages, bitmap
      ensures Valid() && Bits() == ReserveTouched(old(Bits()), basePa, start, end)
    {
      var s, e := P.AlignDown(start), P.AlignUp(end);
      var c := Clamp(s, e);
      ClampBound(s, e);
      forall k: nat | k < totalPages
        ensures c.0 <= k < c.1 <==> P.Touches(start, end, basePa + k * P.PAGE)
      {
        P.AlignDownIs(start, PageAddr(k));
        P.AlignUpIs(end, PageAddr(k));
        ClampIs(s, e, k);
      }
      assert Fill(Bits(), c.0, c.1, true) == ReserveTouched(Bits(), basePa, start, end);
      MarkPages(c.0, c.1, true);
    }

    // --------------------------------------------------------- allocation

    method RunIsFree(i: nat, count: nat) returns (ok: bool)
      requires bitmap.Length == Bytes(totalPages) && i + count <= totalPages
      ensures ok == FreeRun(Bits(), i, count)
    {
      for j := 0 to count
        invariant AllAre(Bits(), i, i + j, false)
      {
        var b := TestBit(i + j);
        if b { return false; }
      }
      return true;
    }

    method Search(count: nat, lo: nat, hi: nat) returns (r: Option<nat>)
      requires bitmap.Length == Bytes(totalPages) && lo <= hi <= totalPages && count > 0
      ensures r == Scan(Bits(), count, lo, hi)
    {
      var i := lo;
      ghost var bits := Bits();
      while i + count <= hi
        invariant lo <= i <= hi && Scan(bits, count, lo, hi) == Scan(bits, count, i, hi)
      {
        ScanMoves(bits, count, i, hi);
        var ok := RunIsFree(i, count);
        if ok { return Some(i); }
        i := i + 1;
      }
      return None;
    }

    /** First fit from the hint, then from the start. */
    method AllocPages(count: nat) returns (pa: Option<nat>)
      requires Valid()
      modifies this, bitmap
      ensures Valid()
      ensures Abs() == Allocate(old(Abs()), count).0
      ensures var r := Allocate(old(Abs()), count).1;
              pa == if r.None? then None else Some(basePa + r.value * P.PAGE)
    {
      if count == 0 || freePages < count { return None; }
      var r := FindRun(count);
      if r.None? { return None; }
      Take(r.value, count);
      return Some(basePa + r.value * P.PAGE);
    }

    method FindRun(count: nat) returns (r: Option<nat>)
      requires Valid() && count > 0
      ensures r == Pick(Bits(), count, nextHint)
      ensures r.Some? ==> r.value + count <= totalPages && FreeRun(Bits(), r.value, count)
    {
      var start := if nextHint >= totalPages then 0 else nextHint;
      r := Search(count, start, totalPages);
      if r.None? { r := Search(count, 0, start); }
    }

    /** Commit a free run. */
    method Take(i: nat, count: nat)
      requires Valid() && i + count <= totalPages && FreeRun(Bits(), i, count)
      modifies this, bitmap
      ensures Valid()
      ensures Abs() == old(Abs()).(bits := Fill(old(Bits()), i, i + count, true), hint := i + count)
      ensures Bits() == Fill(old(Bits()), i, i + count, true)
    {
      MarkPages(i, i + count, true);
      nextHint := i + count;
    }

    /** Give one page back; addresses outside the window, off page boundaries or in the metadata are ignored. */
    method FreePage(pa: nat)
      requires Valid()
      modifies this, bitmap
      ensures Valid()
      ensures Abs() == if basePa <= pa < limitPa && pa % P.PAGE == 0
                       then PmmSpec.FreePage(old(Abs()), (pa - basePa) / P.PAGE) else old(Abs())
    {
      if pa < basePa || pa >= limitPa { return; }
      if pa % P.PAGE != 0 { return; }
      var idx := (pa - basePa) / P.PAGE;
      IndexLemma(pa);
      if idx >= totalPages { return; }
      if metaBase <= pa < metaEnd { return; }
      var b := TestBit(idx);
      if b {
        MarkPage(idx, false);
        if idx < nextHint { nextHint := idx; }
      }
    }

    /** Page addresses and page indices agree about the window and the metadata. */
    lemma {:induction false} IndexLemma(pa: nat)
      requires Valid() && basePa <= pa < limitPa && pa % P.PAGE == 0
      ensures (pa - basePa) / P.PAGE < totalPages
      ensures basePa + (pa - basePa) / P.PAGE * P.PAGE == pa
      ensures metaBase <= pa < metaEnd <==> IndexOf(metaBase) <= (pa - basePa) / P.PAGE < IndexOf(metaEnd)
    {
    }
  }

  // ------------------------------------------------------------ initialisation

  const METADATA_BYTES: nat := P.METADATA_PAGES * P.PAGE
  const STATE_BYTES: nat := 72   // nine 64-bit fields, already a multiple of eight

  /** The managed window: from the lowest usable address to the highest. */
  method Window(u: seq<R.Range>) returns (base: nat, limit: nat)
    requires R.Separated(u) && P.Aligned(u) && R.Within(u, P.WIN_LO, P.WIN_HI) && u != []
    ensures base == u[0].base && limit == u[|u| - 1].End()
  {
    base, limit := 0, 0;
    for i := 0 to |u|
      invariant i == 0 ==> base == 0 && limit == 0
      invariant i > 0 ==> base == u[0].base && limit == u[i - 1].End()
    {
      assert P.PageAligned(u[i]) && P.WIN_LO <= u[i].base && u[i].End() <= P.WIN_HI && u[i].size > 0;
      assert i > 0 ==> u[i - 1].End() < u[i].base && u[0].base <= u[i].base by {
        if i > 0 { assert u[i - 1].End() < u[i].base; assert u[0].End() < u[i].base; }
      }
      P.AlignUpIs(u[i].base, u[i].base);
      P.AlignDownIs(u[i].End(), u[i].End());
      var start, end := P.AlignUp(u[i].base), P.AlignDown(u[i].End());
      if end <= start { continue; }
      if base == 0 || start < base { base := start; }
      if end > limit { limit := end; }
    }
  }

  /** Bit `k` is clear exactly when its page is covered. */
  ghost predicate FreeAreCovered(bits: seq<bool>, base: nat, s: seq<R.Range>) {
    forall k: nat :: k < |bits| ==> CoveredAt(bits, base, s, k)
  }

  ghost predicate CoveredAt(bits: seq<bool>, base: nat, s: seq<R.Range>, k: nat) {
    k < |bits| ==> (!bits[k] <==> R.Covers(s, base + k * P.PAGE))
  }

  lemma {:induction false} FreeInsideCovers(bits: seq<bool>, base: nat, u: seq<R.Range>, i: nat)
    requires i < |u| && P.PageAligned(u[i]) && base % P.PAGE == 0
    requires FreeAreCovered(bits, base, u[..i])
    ensures FreeAreCovered(FreeInside(bits, base, u[i]), base, u[..i + 1])
  {
    var bits', done := FreeInside(bits, base, u[i]), u[..i + 1];
    forall k: nat | k < |bits|
      ensures CoveredAt(bits', base, done, k)
    {
      assert CoveredAt(bits, base, u[..i], k);
      CoversNext(u, i, base, k);
    }
  }

  /** Clear the bits of every usable range. */
  method MarkUsable(a: PageAllocator, u: seq<R.Range>)
    requires a.Valid() && a.Bits() == seq(a.totalPages, _ => true)
    requires P.Aligned(u) && R.Within(u, P.WIN_LO, P.WIN_HI)
    modifies a`freePages, a.bitmap
    ensures a.Valid() && FreeAreCovered(a.Bits(), a.basePa, u)
  {
    for i := 0 to |u|
      invariant a.Valid() && FreeAreCovered(a.Bits(), a.basePa, u[..i])
    {
      assert P.PageAligned(u[i]) && P.WIN_LO <= u[i].base && u[i].End() <= P.WIN_HI;
      FreeInsideCovers(a.Bits(), a.basePa, u, i);
      a.MarkRangeFree(u[i]);
    }
    assert u[..|u|] == u;
  }

  lemma {:induction false} CoversNext(u: seq<R.Range>, i: nat, base: nat, k: nat)
    requires i < |u| && P.PageAligned(u[i]) && base % P.PAGE == 0
    ensures var p := base + k * P.PAGE;
            R.Covers(u[..i + 1], p) <==> R.Covers(u[..i], p) || P.PageIn(u[i], p)
  {
    var p := base + k * P.PAGE;
    assert u[..i + 1] == u[..i] + [u[i]];
    R.CoversConcat(u[..i], [u[i]], p);
    R.CoversOne(u[i], p);
  }

  /** The lowest page of memory, or the window's start when there is none. */
  method LowestRam(mem: seq<R.Range>) returns (lowest: nat)
    requires P.AllSane(mem)
    ensures forall p: nat :: p % P.PAGE == 0 && P.InWindow(p) && P.SomePageIn(mem, p) ==> lowest <= p
  {
    lowest := P.WIN_HI;
    for i := 0 to |mem|
      invariant lowest <= P.WIN_HI
      invariant forall p: nat :: p % P.PAGE == 0 && P.InWindow(p) && P.SomePageIn(mem[..i], p) ==> lowest <= p
    {
      ghost var was := lowest;
      var start, end := mem[i].base, mem[i].End();
      if end > P.WIN_LO {
        if start < P.WIN_LO { start := P.WIN_LO; }
        if start < P.WIN_HI {
          if end > P.WIN_HI { end := P.WIN_HI; }
          start, end := P.AlignUp(start), P.AlignDown(end);
          if end > start && start < lowest { lowest := start; }
        }
      }
      forall p: nat | p % P.PAGE == 0 && P.InWindow(p) && P.SomePageIn(mem[..i + 1], p)
        ensures lowest <= p
      {
        P.SomeSnoc(mem[..i + 1], p);
        assert mem[..i + 1][..i] == mem[..i];
        if P.PageIn(mem[i], p) {
          P.AlignUpIs(if mem[i].base < P.WIN_LO then P.WIN_LO else mem[i].base, p);
          P.AlignDownIs(if mem[i].End() > P.WIN_HI then P.WIN_HI else mem[i].End(), p);
        }
      }
    }
    assert mem[..|mem|] == mem;
    if lowest == P.WIN_HI { lowest := P.WIN_LO; }
  }

  /** The allocator's free pages, as physical addresses. */
  ghost predicate IsFree(a: PageAllocator, p: nat)
    reads a, a.bitmap
  {
    a.basePa <= p < a.limitPa && p % P.PAGE == 0 && !a.Bits()[(p - a.basePa) / P.PAGE]
  }

  /** Every free bit is a usable page. */
  ghost predicate OnlyUsableFree(x: P.Input, bits: seq<bool>, base: nat) {
    forall k: nat :: k < |bits| ==> UsableAt(x, bits, base, k)
  }

  ghost predicate UsableAt(x: P.Input, bits: seq<bool>, base: nat, k: nat) {
    k < |bits| && !bits[k] ==> P.Usable(x, base + k * P.PAGE)
  }

  /** No usable page touches the addresses from `start` to `end`. */
  ghost predicate ClearOf(x: P.Input, start: nat, end: nat) {
    forall p: nat :: ClearAt(x, start, end, p)
  }

  ghost predicate ClearAt(x: P.Input, start: nat, end: nat, p: nat) {
    p % P.PAGE == 0 && P.Usable(x, p) ==> !P.Touches(start, end, p)
  }

  /** Reserving an address range again changes nothing when no usable page touches it. */
  lemma {:induction false} ReserveTouchedKeeps(x: P.Input, bits: seq<bool>, base: nat, start: nat, end: nat)
    requires OnlyUsableFree(x, bits, base) && ClearOf(x, start, end) && base % P.PAGE == 0
    ensures ReserveTouched(bits, base, start, end) == bits
  {
    forall k: nat | k < |bits|
      ensures ReserveTouched(bits, base, start, end)[k] == bits[k]
    {
      assert UsableAt(x, bits, base, k);
      assert ClearAt(x, start, end, base + k * P.PAGE);
    }
  }

  method ReserveAgain(x: P.Input, a: PageAllocator, start: nat, end: nat)
    requires a.Valid() && end + P.PAGE <= P.U64 && OnlyUsableFree(x, a.Bits(), a.basePa) && ClearOf(x, start, end)
    modifies a`freePages, a.bitmap
    ensures a.Valid() && a.Bits() == old(a.Bits())
  {
    ReserveTouchedKeeps(x, a.Bits(), a.basePa, start, end);
    a.MarkRangeReserved(start, end);
  }

  lemma {:induction false} AlignUpFits(v: nat)
    requires v + P.PAGE <= P.U64
    ensures P.AlignUp(v) + P.PAGE <= P.U64
  {
  }

  lemma {:induction false} BootClear(x: P.Input, lowest: nat)
    ensures ClearOf(x, lowest, x.boot.kernelBase)
  {
  }

  lemma {:induction false} KernelClear(x: P.Input)
    requires P.SaneInput(x)
    ensures ClearOf(x, x.boot.kernelBase, P.AlignUp(P.RuntimeEnd(x)))
  {
    forall p: nat
      ensures ClearAt(x, x.boot.kernelBase, P.AlignUp(P.RuntimeEnd(x)), p)
    {
      if p % P.PAGE == 0 { P.AlignUpIs(P.RuntimeEnd(x), p); }
    }
  }

  /** Rounding an address range out to whole pages touches no further page. */
  lemma {:induction false} RoundedTouches(lo: nat, hi: nat, p: nat)
    requires hi + P.PAGE <= P.U64 && p % P.PAGE == 0
    ensures P.Touches(P.AlignDown(lo), P.AlignUp(hi), p) <==> P.Touches(lo, hi, p)
  {
    P.AlignDownIs(lo, p);
    P.AlignUpIs(hi, p);
  }

  lemma {:induction false} DtbClear(x: P.Input)
    requires P.SaneInput(x) && x.boot.dtbPtr != 0
    ensures ClearOf(x, P.AlignDown(P.DtbBase(x)), P.AlignUp(P.DtbBase(x) + P.DtbBytes(x)))
  {
    var lo, hi := P.AlignDown(P.DtbBase(x)), P.AlignUp(P.DtbBase(x) + P.DtbBytes(x));
    forall p: nat
      ensures ClearAt(x, lo, hi, p)
    {
      if p % P.PAGE == 0 { RoundedTouches(P.DtbBase(x), P.DtbBase(x) + P.DtbBytes(x), p); }
    }
  }

  lemma {:induction false} PagesTouched(m: nat, e: nat, p: nat)
    requires m % P.PAGE == 0 && p % P.PAGE == 0
    ensures P.Touches(m, e, p) <==> m <= p < e
  {
  }

  lemma {:induction false} MetaBaseAligned(x: P.Input)
    ensures P.MetaBase(x) % P.PAGE == 0
  {
  }

  lemma {:induction false} MetaClear(x: P.Input)
    ensures ClearOf(x, P.MetaBase(x), P.MetaEnd(x))
  {
    MetaBaseAligned(x);
    forall p: nat
      ensures ClearAt(x, P.MetaBase(x), P.MetaEnd(x), p)
    {
      if p % P.PAGE == 0 { PagesTouched(P.MetaBase(x), P.MetaEnd(x), p); }
    }
  }

  /** The defensive second pass over boot region, kernel, device-tree blob and metadata: it clears nothing new. */
  method SecondPass(x: P.Input, a: PageAllocator)
    requires P.SaneInput(x) && a.Valid() && OnlyUsableFree(x, a.Bits(), a.basePa)
    requires P.MetaEnd(x) <= P.WIN_HI
    modifies a`freePages, a.bitmap
    ensures a.Valid() && a.Bits() == old(a.Bits())
  {
    var lowest := LowestRam(x.mem);
    BootClear(x, lowest);
    ReserveAgain(x, a, lowest, x.boot.kernelBase);
    AlignUpFits(P.RuntimeEnd(x));
    KernelClear(x);
    ReserveAgain(x, a, x.boot.kernelBase, P.AlignUp(P.RuntimeEnd(x)));
    if x.boot.dtbPtr != 0 {
      var sz := P.DtbBytes(x);
      if sz != 0 {
        AlignUpFits(P.DtbBase(x) + sz);
        DtbClear(x);
        ReserveAgain(x, a, P.AlignDown(P.DtbBase(x)), P.AlignUp(P.DtbBase(x) + sz));
      }
    }
    MetaClear(x);
    ReserveAgain(x, a, P.MetaBase(x), P.MetaEnd(x));
  }

  /** The free bits are exactly the usable pages: none lost, none added. */
  ghost predicate FreeExactlyUsable(x: P.Input, a: PageAllocator)
    reads a, a.bitmap
  {
    forall p: nat :: p % P.PAGE == 0 ==> (IsFree(a, p) <==> P.Usable(x, p))
  }

  lemma {:induction false} CoveredInWindow(u: seq<R.Range>, p: nat)
    requires R.Separated(u) && R.Covers(u, p)
    ensures u != [] && u[0].base <= p < u[|u| - 1].End()
  {
    var i :| 0 <= i < |u| && u[i].Has(p);
    assert i > 0 ==> u[0].End() < u[i].base;
    assert i < |u| - 1 ==> u[i].End() < u[|u| - 1].base;
  }

  lemma {:induction false} FreeIffUsable(x: P.Input, a: PageAllocator, u: seq<R.Range>, p: nat)
    requires P.CoversExactly(x, u, p) && R.Separated(u) && u != [] && p % P.PAGE == 0
    requires a.Valid() && a.basePa == u[0].base && a.limitPa == u[|u| - 1].End()
    requires FreeAreCovered(a.Bits(), a.basePa, u)
    ensures IsFree(a, p) <==> P.Usable(x, p)
  {
    if R.Covers(u, p) { CoveredInWindow(u, p); }
    if a.basePa <= p < a.limitPa {
      a.IndexLemma(p);
      assert CoveredAt(a.Bits(), a.basePa, u, (p - a.basePa) / P.PAGE);
    }
  }

  lemma {:induction false} CoveredAreUsable(x: P.Input, bits: seq<bool>, base: nat, u: seq<R.Range>)
    requires P.SaneInput(x) && P.Derived(x, u) && base % P.PAGE == 0 && FreeAreCovered(bits, base, u)
    ensures OnlyUsableFree(x, bits, base)
  {
    forall k: nat | k < |bits| ensures UsableAt(x, bits, base, k) { CoveredIsUsable(x, bits, base, u, k); }
  }

  lemma {:induction false} CoveredIsUsable(x: P.Input, bits: seq<bool>, base: nat, u: seq<R.Range>, k: nat)
    requires P.SaneInput(x) && P.Derived(x, u) && base % P.PAGE == 0 && k < |bits| && CoveredAt(bits, base, u, k)
    ensures UsableAt(x, bits, base, k)
  {
    assert P.CoversExactly(x, u, base + k * P.PAGE);
  }

  lemma {:induction false} CoveredMeansFree(x: P.Input, a: PageAllocator, u: seq<R.Range>)
    requires P.SaneInput(x) && P.Derived(x, u) && u != []
    requires a.Valid() && a.basePa == u[0].base && a.limitPa == u[|u| - 1].End()
    requires FreeAreCovered(a.Bits(), a.basePa, u)
    ensures FreeExactlyUsable(x, a)
  {
    forall p: nat | p % P.PAGE == 0
      ensures IsFree(a, p) <==> P.Usable(x, p)
    {
      assert P.CoversExactly(x, u, p);
      FreeIffUsable(x, a, u, p);
    }
  }

  lemma {:induction false} MetaIndex(base: nat, meta: nat, i: nat)
    requires base % P.PAGE == 0 && meta % P.PAGE == 0
    ensures (if meta <= base then 0 else (meta - base) / P.PAGE) <= i <==> meta <= base + i * P.PAGE
  {
  }

  /** Where only usable pages are free the metadata pages are reserved: the state a run may start from. */
  lemma {:induction false} MetaReserved(x: P.Input, a: PageAllocator)
    requires a.Valid() && OnlyUsableFree(x, a.Bits(), a.basePa) && a.metaBase == P.MetaBase(x)
    ensures PmmSpec.Inv(a.Abs())
  {
    var s := a.Abs();
    forall i | s.metaLo <= i < s.metaHi && i < |s.bits|
      ensures s.bits[i]
    {
      MetaIndex(a.basePa, a.metaBase, i);
      MetaIndex(a.basePa, a.metaEnd, i);
      assert UsableAt(x, a.Bits(), a.basePa, i);
    }
  }

  /** The window of an aligned list is a whole number of pages, few enough for the metadata to hold their bitmap. */
  lemma {:induction false} BitmapFits(base: nat, limit: nat)
    requires P.WIN_LO <= base <= limit <= P.WIN_HI
    ensures STATE_BYTES + Bytes((limit - base) / P.PAGE) <= METADATA_BYTES
  {
  }

  /**
   Initialise the allocator; null is a panic.  It panics when no page is usable or the
   metadata would leave the window, and else only when the usable ranges might not fit.
   What it hands out satisfies the invariant that every run of allocations keeps.
   */
  method Init(x: P.Input) returns (a: PageAllocator?)
    requires |x.mem| <= P.MAX_RANGES && |x.rsv| <= P.MAX_RANGES && P.SaneInput(x)
    ensures a != null ==> fresh(a) && fresh(a.bitmap) && a.Valid() && a.nextHint == 0 && FreeExactlyUsable(x, a)
    ensures a != null ==> a.metaBase == P.MetaBase(x) && PmmSpec.Inv(a.Abs())
    ensures a != null ==> a.basePa % P.PAGE == 0 && P.Usable(x, a.basePa)
    ensures a != null ==> P.WIN_LO <= a.basePa && a.limitPa <= P.WIN_HI
    ensures a != null ==> P.WIN_LO <= P.MetaBase(x) && P.MetaEnd(x) <= P.WIN_HI
    ensures a != null ==> STATE_BYTES + a.bitmap.Length <= METADATA_BYTES
    ensures a == null ==>
              || (forall p: nat :: p % P.PAGE == 0 ==> !P.Usable(x, p))
              || |x.mem| + |x.rsv| + 4 > P.MAX_RANGES
              || P.MetaBase(x) < P.WIN_LO || P.MetaEnd(x) > P.WIN_HI
  {
    var usable := UsableList(x);
    if usable.None? { NoMemoryNothingUsable(x); return null; }
    var u := usable.value;
    if |u| == 0 { NothingCovered(x, u); return null; }
    if P.MetaBase(x) < P.WIN_LO || P.MetaEnd(x) > P.WIN_HI { return null; }
    FirstIsUsable(x, u);
    var base, limit := Window(u);
    a := Build(x, u, base, limit);
  }

  method UsableList(x: P.Input) returns (r: Option<seq<R.Range>>)
    requires |x.mem| <= P.MAX_RANGES && |x.rsv| <= P.MAX_RANGES
    ensures r.Some? ==> P.Derived(x, r.value)
    ensures r.None? ==> x.mem == [] || |x.mem| + |x.rsv| + 4 > P.MAX_RANGES
  {
    var usable := new R.Range[P.MAX_RANGES](_ => R.Range(0, 0));
    var ok, n := P.UsableRanges(x, usable, P.MAX_RANGES);
    return if ok then Some(usable[..n]) else None;
  }

  lemma {:induction false} NothingCovered(x: P.Input, u: seq<R.Range>)
    requires P.SaneInput(x) && P.Derived(x, u) && u == []
    ensures forall p: nat :: p % P.PAGE == 0 ==> !P.Usable(x, p)
  {
    forall p: nat | p % P.PAGE == 0 ensures !P.Usable(x, p) { assert P.CoversExactly(x, u, p); }
  }

  lemma {:induction false} FirstIsUsable(x: P.Input, u: seq<R.Range>)
    requires P.SaneInput(x) && P.Derived(x, u) && u != []
    ensures P.Usable(x, u[0].base)
  {
    assert P.PageAligned(u[0]) && R.Covers(u, u[0].base);
    assert P.CoversExactly(x, u, u[0].base);
  }

  lemma {:induction false} NoMemoryNothingUsable(x: P.Input)
    ensures x.mem == [] ==> forall p: nat :: p % P.PAGE == 0 ==> !P.Usable(x, p)
  {
  }

  lemma {:induction false} WholePages(base: nat, limit: nat)
    requires base <= limit && base % P.PAGE == 0 && limit % P.PAGE == 0
    ensures base + (limit - base) / P.PAGE * P.PAGE == limit
  {
  }

  lemma {:induction false} WindowIsPages(u: seq<R.Range>)
    requires R.Separated(u) && P.Aligned(u) && R.Within(u, P.WIN_LO, P.WIN_HI) && u != []
    ensures var base, limit := u[0].base, u[|u| - 1].End();
            && P.WIN_LO <= base < limit <= P.WIN_HI && base % P.PAGE == 0
            && base + (limit - base) / P.PAGE * P.PAGE == limit
  {
    assert P.PageAligned(u[0]) && P.PageAligned(u[|u| - 1]);
    assert |u| > 1 ==> u[0].End() < u[|u| - 1].base;
    WholePages(u[0].base, u[|u| - 1].End());
  }

  method Build(x: P.Input, u: seq<R.Range>, base: nat, limit: nat) returns (a: PageAllocator)
    requires P.SaneInput(x) && P.Derived(x, u) && u != []
    requires base == u[0].base && limit == u[|u| - 1].End() && P.MetaEnd(x) <= P.WIN_HI
    ensures fresh(a) && fresh(a.bitmap) && a.Valid() && a.nextHint == 0 && FreeExactlyUsable(x, a)
    ensures a.metaBase == P.MetaBase(x) && PmmSpec.Inv(a.Abs()) && a.basePa == base && base % P.PAGE == 0
    ensures P.WIN_LO <= a.basePa && a.limitPa <= P.WIN_HI
    ensures STATE_BYTES + a.bitmap.Length <= METADATA_BYTES
  {
    WindowIsPages(u);
    BitmapFits(base, limit);
    a := NewAllocator(x, base, (limit - base) / P.PAGE);
    MarkUsable(a, u);
    CoveredAreUsable(x, a.Bits(), a.basePa, u);
    SecondPass(x, a);
    CoveredMeansFree(x, a, u);
    MetaReserved(x, a);
  }

  method NewAllocator(x: P.Input, base: nat, pages: nat) returns (a: PageAllocator)
    requires base % P.PAGE == 0
    ensures a.Valid() && fresh(a) && fresh(a.bitmap) && a.nextHint == 0
    ensures a.basePa == base && a.totalPages == pages && a.metaBase == P.MetaBase(x)
    ensures a.Bits() == seq(pages, _ => true)
  {
    MetaBaseAligned(x);
    a := new PageAllocator(base, pages, P.MetaBase(x));
  }
}
