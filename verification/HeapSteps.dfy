/**
 The heap's compound steps: carving a page into blocks, taking a block back, and
 the count of blocks: every block of every page is free or handed out.
 */
module HeapSteps {
  import opened Arith
  import opened HeapSpec

  // -------------------------------------------------------------- no block is lost

  ghost predicate KeptAt(h: Heap, a: nat) {
    PageOf(a) in h.slabs && h.slabs[PageOf(a)] < |h.lists| && OnGrid(h.slabs[PageOf(a)], Offset(a)) ==>
      a in h.lists[h.slabs[PageOf(a)]] || a in h.live
  }

  /** Every block of every page is on its free list or handed out. */
  ghost predicate Kept(h: Heap) { forall a: nat :: KeptAt(h, a) }

  lemma {:induction false} InitKept()
    ensures Kept(Init())
  {
  }

  lemma {:induction false} PopKept(h: Heap, b: nat)
    requires Inv(h) && Kept(h) && b < BUCKETS && h.lists[b] != []
    ensures Kept(Pop(h, b))
  {
    var h' := Pop(h, b);
    forall a: nat ensures KeptAt(h', a) {
      assert KeptAt(h, a);
      if a in h.lists[b] {
        var i :| 0 <= i < |h.lists[b]| && h.lists[b][i] == a;
        if i > 0 { assert h.lists[b][1..][i - 1] == a; }
      }
    }
  }

  lemma {:induction false} AddBigKept(h: Heap, s: nat, pages: nat)
    requires Kept(h)
    ensures Kept(AddBig(h, s, pages))
  {
    forall a: nat ensures KeptAt(AddBig(h, s, pages), a) { assert KeptAt(h, a); }
  }

  // -------------------------------------------------------------- carving a page

  /** The blocks of a page that fit behind its header. */
  ghost predicate Fitting(b: nat, k: nat) { Span(k, Size(b)) + Size(b) <= PAGE }

  lemma {:induction false} SpanOnGrid(b: nat, k: nat)
    requires k > 0 && Fitting(b, k)
    ensures OnGrid(b, Span(k, Size(b)))
  {
    SpanMultiplies(k, Size(b));
    DivMulAdd(k, Size(b), 0);
  }

  /** The first `k` blocks of the page at `s` put on the list, one after another. */
  ghost function Carve(h: Heap, s: nat, b: nat, k: nat): (r: Heap)
    requires |h.heads| == BUCKETS && |h.lists| == BUCKETS && b < BUCKETS
    ensures |r.heads| == BUCKETS && |r.lists| == BUCKETS
    ensures r.slabs == h.slabs && r.bigs == h.bigs && r.live == h.live && r.cur == h.cur
    decreases k
  {
    if k == 0 then h else Push(Carve(h, s, b, k - 1), b, s + Span(k, Size(b)))
  }

  ghost predicate CarvedAt(h: Heap, r: Heap, s: nat, b: nat, k: nat, x: nat)
    requires b < |h.lists| && b < |r.lists|
  {
    x in r.lists[b] <==> x in h.lists[b] || exists j: nat :: 0 < j <= k && x == s + Span(j, Size(b))
  }

  lemma {:induction false} CarveLists(h: Heap, s: nat, b: nat, k: nat, x: nat)
    requires |h.heads| == BUCKETS && |h.lists| == BUCKETS && b < BUCKETS
    ensures CarvedAt(h, Carve(h, s, b, k), s, b, k, x)
    ensures forall c :: 0 <= c < BUCKETS && c != b ==> Carve(h, s, b, k).lists[c] == h.lists[c]
    decreases k
  {
    if k > 0 {
      CarveLists(h, s, b, k - 1, x);
      var before := Carve(h, s, b, k - 1);
      var y := s + Span(k, Size(b));
      assert Carve(h, s, b, k).lists[b] == [y] + before.lists[b];
      assert x in [y] + before.lists[b] <==> x == y || x in before.lists[b];
      if exists j: nat :: 0 < j <= k && x == s + Span(j, Size(b)) {
        var j: nat :| 0 < j <= k && x == s + Span(j, Size(b));
        assert j == k || 0 < j <= k - 1;
      }
    }
  }

  lemma {:induction false} NextIsNew(h: Heap, s: nat, b: nat, k: nat)
    requires |h.heads| == BUCKETS && |h.lists| == BUCKETS && b < BUCKETS
    requires forall i :: 0 <= i < |h.lists[b]| ==> PageOf(h.lists[b][i]) != s
    requires s % PAGE == 0 && k > 0 && Fitting(b, k)
    ensures s + Span(k, Size(b)) !in Carve(h, s, b, k - 1).lists[b]
  {
    var x := s + Span(k, Size(b));
    CarveLists(h, s, b, k - 1, x);
    SplitIs(s, Span(k, Size(b)));
    forall j: nat | 0 < j <= k - 1 ensures x != s + Span(j, Size(b)) { SpanGrows(j, k, Size(b)); }
  }

  /** A page that holds no free and no live block yet. */
  ghost predicate Blank(h: Heap, s: nat, b: nat) {
    && Inv(h) && b < BUCKETS && s in h.slabs && h.slabs[s] == b
    && (forall i :: 0 <= i < |h.lists[b]| ==> PageOf(h.lists[b][i]) != s)
    && forall p: nat :: p in h.live ==> PageOf(p) != s
  }

  lemma {:induction false} CarveKeeps(h: Heap, s: nat, b: nat, k: nat)
    requires Blank(h, s, b) && (k == 0 || Fitting(b, k))
    ensures Inv(Carve(h, s, b, k))
    decreases k
  {
    if k > 0 {
      SpanGrows(k - 1, k, Size(b));
      CarveKeeps(h, s, b, k - 1);
      assert HeaderAt(h, s);
      NextIsNew(h, s, b, k);
      SplitIs(s, Span(k, Size(b)));
      SpanOnGrid(b, k);
      PushKeeps(Carve(h, s, b, k - 1), b, s + Span(k, Size(b)));
    }
  }

  lemma {:induction false} LivePage(h: Heap, s: nat, p: nat)
    requires Inv(h) && Fresh(h, s, 1) && p in h.live
    ensures PageOf(p) != s
  {
    LiveWithin(h, p);
    assert LiveAt(h, p);
    PageSplit(p);
    if h.live[p].Big? { assert HeaderAt(h, p - 8); }
    FreshIsOutside(h, s, 1, Home(h, p), p, Room(h.live[p]));
  }

  lemma {:induction false} FreshIsBlank(h: Heap, s: nat, b: nat)
    requires Inv(h) && Fresh(h, s, 1) && b < BUCKETS
    ensures Blank(AddSlab(h, s, b), s, b)
  {
    AddSlabKeeps(h, s, b);
    forall i | 0 <= i < |h.lists[b]| ensures PageOf(h.lists[b][i]) != s { NodeNotFresh(h, s, 1, b, i); }
    forall p: nat | p in h.live ensures PageOf(p) != s { LivePage(h, s, p); }
  }

  /** All the blocks of a page: no further one fits. */
  ghost function Refilled(h: Heap, s: nat, b: nat, k: nat): Heap
    requires |h.heads| == BUCKETS && |h.lists| == BUCKETS && b < BUCKETS
  {
    Carve(AddSlab(h, s, b), s, b, k)
  }

  lemma {:induction false} GridIsSpan(b: nat, off: nat, k: nat) returns (j: nat)
    requires OnGrid(b, off) && !Fitting(b, k + 1)
    ensures 0 < j <= k && off == Span(j, Size(b))
  {
    j := off / Size(b);
    assert off == j * Size(b);
    SpanMultiplies(j, Size(b));
    if j > k {
      if j > k + 1 { SpanGrows(k + 1, j, Size(b)); }
      assert false;
    }
  }

  lemma {:induction false} RefilledKept(h: Heap, s: nat, b: nat, k: nat)
    requires Inv(h) && Kept(h) && Fresh(h, s, 1) && b < BUCKETS && !Fitting(b, k + 1)
    ensures Kept(Refilled(h, s, b, k))
  {
    var h', h1 := Refilled(h, s, b, k), AddSlab(h, s, b);
    forall a: nat ensures KeptAt(h', a) {
      CarveLists(h1, s, b, k, a);
      assert KeptAt(h, a);
      if PageOf(a) == s && OnGrid(b, Offset(a)) {
        var j := GridIsSpan(b, Offset(a), k);
        PageSplit(a);
        assert a == s + Span(j, Size(b));
      }
    }
  }

  lemma {:induction false} RefilledKeeps(h: Heap, s: nat, b: nat, k: nat)
    requires Inv(h) && Fresh(h, s, 1) && b < BUCKETS && (k == 0 || Fitting(b, k))
    ensures Inv(Refilled(h, s, b, k))
  {
    FreshIsBlank(h, s, b);
    CarveKeeps(AddSlab(h, s, b), s, b, k);
  }

  /** Refilling writes on the new page only, and there only the first word of each block. */
  lemma {:induction false} CarveWrites(h: Heap, s: nat, b: nat, k: nat)
    requires |h.heads| == BUCKETS && |h.lists| == BUCKETS && b < BUCKETS && s % PAGE == 0 && (k == 0 || Fitting(b, k))
    ensures SameOutside(h.mem, Carve(h, s, b, k).mem, s, s + PAGE)
    ensures forall a: nat :: a % Size(b) != 0 ==> Get(Carve(h, s, b, k).mem, a) == Get(h.mem, a)
    decreases k
  {
    if k > 0 {
      SpanGrows(k - 1, k, Size(b));
      CarveWrites(h, s, b, k - 1);
      SpanOnGrid(b, k);
      SplitIs(s, Span(k, Size(b)));
      GridAligned(b, s + Span(k, Size(b)));
    }
  }

  lemma {:induction false} SumDivides(q: nat, k: nat, n: nat, j: nat)
    requires n > 0
    ensures (q * (k * n) + j * n) % n == 0
  {
    assert q * (k * n) == (q * k) * n;
    MulDistributes(q * k, j, n);
    DivMulAdd(q * k + j, n, 0);
  }

  /** A block of a bucket starts on a multiple of its size. */
  lemma {:induction false} GridAligned(b: nat, p: nat)
    requires b < BUCKETS && OnGrid(b, Offset(p))
    ensures p % Size(b) == 0
  {
    var n := Size(b);
    PageSplit(p);
    SumDivides(p / PAGE, PAGE / n, n, Offset(p) / n);
  }

  // ---------------------------------------------------------------- taking back

  /** `n` words from `a` overwritten with the poison pattern. */
  function Poisoned(m: Memory, a: nat, n: nat): Memory
    decreases n
  {
    if n == 0 then m else Poisoned(m, a, n - 1)[a + 8 * (n - 1) := POISON]
  }

  lemma {:induction false} PoisonedReads(m: Memory, a: nat, n: nat)
    ensures SameOutside(m, Poisoned(m, a, n), a, a + 8 * n)
    ensures forall k: nat :: k < n ==> Get(Poisoned(m, a, n), a + 8 * k) == POISON
    decreases n
  {
    if n > 0 { PoisonedReads(m, a, n - 1); }
  }

  ghost predicate SmallLive(h: Heap, p: nat) { p in h.live && h.live[p].Small? && h.live[p].b < BUCKETS }

  /** A small block poisoned, dropped and put on its list. */
  ghost function FreeSmall(h: Heap, p: nat): Heap
    requires |h.heads| == BUCKETS && |h.lists| == BUCKETS && SmallLive(h, p)
  {
    var b := h.live[p].b;
    Push(Drop(h.(mem := Poisoned(h.mem, p, Size(b) / 8)), p), b, p)
  }

  lemma {:induction false} FreeSmallKeeps(h: Heap, p: nat)
    requires Inv(h) && SmallLive(h, p)
    ensures Inv(FreeSmall(h, p)) && FreeSmall(h, p).cur + Size(h.live[p].b) == h.cur
  {
    var b := h.live[p].b;
    var m := Poisoned(h.mem, p, Size(b) / 8);
    PoisonedReads(h.mem, p, Size(b) / 8);
    BlockWrites(h, p, m);
    DropKeeps(h.(mem := m), p);
    assert LiveAt(h, p);
    PushKeeps(Drop(h.(mem := m), p), b, p);
  }

  lemma {:induction false} FreeSmallKept(h: Heap, p: nat)
    requires Inv(h) && Kept(h) && SmallLive(h, p)
    ensures Kept(FreeSmall(h, p))
  {
    var h', b := FreeSmall(h, p), h.live[p].b;
    assert LiveAt(h, p);
    assert h'.lists[b] == [p] + h.lists[b];
    forall a: nat ensures KeptAt(h', a) {
      assert KeptAt(h, a);
      assert a in [p] + h.lists[b] <==> a == p || a in h.lists[b];
    }
  }

  lemma {:induction false} FreeSmallWrites(h: Heap, p: nat)
    requires Inv(h) && SmallLive(h, p)
    ensures SameOutside(h.mem, FreeSmall(h, p).mem, p, p + Size(h.live[p].b))
    ensures forall k: nat :: 0 < k < Size(h.live[p].b) / 8 ==> Get(FreeSmall(h, p).mem, p + 8 * k) == POISON
  {
    PoisonedReads(h.mem, p, Size(h.live[p].b) / 8);
  }

  lemma {:induction false} RemoveBigKept(h: Heap, s: nat, m: Memory)
    requires Inv(h) && Kept(h) && s in h.bigs && s + 8 in h.live && h.live[s + 8].Big?
    ensures Kept(RemoveBig(h, s, m))
  {
    var h' := RemoveBig(h, s, m);
    forall a: nat ensures KeptAt(h', a) {
      assert KeptAt(h, a);
      if a == s + 8 {
        assert HeaderAt(h, s);
        SplitIs(s, 8);
      }
    }
  }

  // ---------------------------------------------------------- pages with content

  /** Memory in which the pages from `lo` to `hi` hold `words`. */
  function Brought(m: Memory, words: Memory, lo: nat, hi: nat): Memory {
    map a | a in m.Keys + words.Keys :: if lo <= a < hi then Get(words, a) else Get(m, a)
  }

  lemma {:induction false} BroughtReads(m: Memory, words: Memory, lo: nat, hi: nat)
    ensures SameOutside(m, Brought(m, words, lo, hi), lo, hi)
    ensures forall a: nat :: lo <= a < hi ==> Get(Brought(m, words, lo, hi), a) == Get(words, a)
  {
  }

  lemma {:induction false} FreshWrites(h: Heap, s: nat, pages: nat, m: Memory)
    requires Inv(h) && Kept(h) && Fresh(h, s, pages) && SameOutside(h.mem, m, s, s + pages * PAGE)
    ensures Inv(h.(mem := m)) && Kept(h.(mem := m)) && Fresh(h.(mem := m), s, pages)
  {
    var h' := h.(mem := m);
    forall t: nat | Owned(h, t) ensures Get(m, t) == Get(h.mem, t) { assert FreshFrom(h, s, pages, t) && HeaderAt(h, t); }
    forall b, i | 0 <= b < BUCKETS && 0 <= i < |h.lists[b]|
      ensures Get(m, h.lists[b][i]) == Get(h.mem, h.lists[b][i])
    {
      FreeIsOutside(h, s, pages, b, i);
    }
    MemoryKeeps(h, m);
    forall t: nat ensures FreshFrom(h', s, pages, t) { assert FreshFrom(h, s, pages, t); }
    forall a: nat ensures KeptAt(h', a) { assert KeptAt(h, a); }
  }

  lemma {:induction false} FreeIsOutside(h: Heap, s: nat, pages: nat, b: nat, i: nat)
    requires Inv(h) && Fresh(h, s, pages) && b < BUCKETS && i < |h.lists[b]|
    ensures h.lists[b][i] + Size(b) <= s || s + pages * PAGE <= h.lists[b][i]
  {
    assert NodeAt(h, b, i);
    SmallWithin(h, b, h.lists[b][i]);
    FreshIsOutside(h, s, pages, PageOf(h.lists[b][i]), h.lists[b][i], Size(b));
  }

  // ------------------------------------------------------- what free blocks hold

  /** Past its first word, a free block holds words of `known` only. */
  ghost predicate KnownAt(h: Heap, known: set<nat>, b: nat, i: nat) {
    b < BUCKETS && b < |h.lists| && i < |h.lists[b]| ==> Holds(h.mem, known, h.lists[b][i], Size(b))
  }

  ghost predicate Holds(m: Memory, known: set<nat>, x: nat, n: nat) {
    forall a: nat :: x + 8 <= a < x + n && a % 8 == 0 ==> Get(m, a) in known
  }

  ghost predicate Known(h: Heap, known: set<nat>) { forall b: nat, i: nat :: KnownAt(h, known, b, i) }

  ghost predicate SameIn(m: Memory, m': Memory, x: nat, n: nat) {
    forall a: nat :: x + 8 <= a < x + n ==> Get(m', a) == Get(m, a)
  }

  ghost predicate SameAt(h: Heap, m: Memory, b: nat, i: nat) {
    b < BUCKETS && b < |h.lists| && i < |h.lists[b]| ==> SameIn(h.mem, m, h.lists[b][i], Size(b))
  }

  /** Free blocks that read the same past their first word stay known. */
  lemma {:induction false} KnownSame(h: Heap, m: Memory, known: set<nat>, known': set<nat>)
    requires Known(h, known) && known <= known' && forall b: nat, i: nat :: SameAt(h, m, b, i)
    ensures Known(h.(mem := m), known')
  {
    forall b: nat, i: nat ensures KnownAt(h.(mem := m), known', b, i) {
      assert KnownAt(h, known, b, i) && SameAt(h, m, b, i);
    }
  }

  /** What is known depends on the memory and the lists alone. */
  lemma {:induction false} KnownIgnores(h: Heap, h': Heap, known: set<nat>)
    requires Known(h, known) && h'.mem == h.mem && h'.lists == h.lists
    ensures Known(h', known)
  {
    forall b: nat, i: nat ensures KnownAt(h', known, b, i) { assert KnownAt(h, known, b, i); }
  }

  lemma {:induction false} KnownFresh(h: Heap, m: Memory, s: nat, pages: nat, known: set<nat>, known': set<nat>)
    requires Inv(h) && Known(h, known) && known <= known' && Fresh(h, s, pages) && SameOutside(h.mem, m, s, s + pages * PAGE)
    ensures Known(h.(mem := m), known')
  {
    forall b: nat, i: nat ensures SameAt(h, m, b, i) {
      if b < BUCKETS && i < |h.lists[b]| { FreeIsOutside(h, s, pages, b, i); }
    }
    KnownSame(h, m, known, known');
  }

  lemma {:induction false} KnownPop(h: Heap, b: nat, known: set<nat>)
    requires |h.heads| == BUCKETS && |h.lists| == BUCKETS && Known(h, known) && b < BUCKETS && h.lists[b] != []
    ensures Known(Pop(h, b), known) && Holds(h.mem, known, h.lists[b][0], Size(b))
  {
    assert KnownAt(h, known, b, 0);
    forall c: nat, i: nat ensures KnownAt(Pop(h, b), known, c, i) {
      var j := i + 1;
      assert KnownAt(h, known, c, i) && KnownAt(h, known, b, j);
    }
  }

  lemma {:induction false} HoldsUpdate(m: Memory, known: set<nat>, y: nat, n: nat, x: nat, v: nat)
    requires Holds(m, known, y, n) && (x <= y || y + n <= x)
    ensures Holds(m[x := v], known, y, n)
  {
    forall a: nat | y + 8 <= a < y + n && a % 8 == 0 ensures Get(m[x := v], a) in known { assert Get(m, a) in known; }
  }

  lemma {:induction false} KnownPush(h: Heap, b: nat, x: nat, known: set<nat>)
    requires Inv(h) && Known(h, known) && b < BUCKETS && SmallAt(h.slabs, b, x) && x !in h.lists[b]
    requires Holds(h.mem, known, x, Size(b))
    ensures Known(Push(h, b, x), known)
  {
    var h' := Push(h, b, x);
    HoldsUpdate(h.mem, known, x, Size(b), x, h.heads[b]);
    forall c: nat, i: nat ensures KnownAt(h', known, c, i) {
      if c < BUCKETS && c == b {
        if 0 < i <= |h.lists[b]| { StaysKnown(h, b, x, b, i - 1, known); }
      } else if c < BUCKETS && i < |h.lists[c]| {
        StaysKnown(h, b, x, c, i, known);
      }
    }
  }

  lemma {:induction false} StaysKnown(h: Heap, b: nat, x: nat, c: nat, i: nat, known: set<nat>)
    requires Inv(h) && Known(h, known) && b < BUCKETS && SmallAt(h.slabs, b, x) && x !in h.lists[b]
    requires c < BUCKETS && i < |h.lists[c]|
    ensures Holds(h.mem[x := h.heads[b]], known, h.lists[c][i], Size(c))
  {
    assert KnownAt(h, known, c, i);
    NodeApart(h, b, x, c, i);
    HoldsUpdate(h.mem, known, h.lists[c][i], Size(c), x, h.heads[b]);
  }

  lemma {:induction false} NodeApart(h: Heap, b: nat, x: nat, c: nat, i: nat)
    requires Inv(h) && b < BUCKETS && SmallAt(h.slabs, b, x) && x !in h.lists[b] && c < BUCKETS && i < |h.lists[c]|
    ensures x < h.lists[c][i] || h.lists[c][i] + Size(c) <= x
  {
    var y := h.lists[c][i];
    assert NodeAt(h, c, i);
    NodesDiffer(h, b, x, c, i);
    SmallWithin(h, b, x);
    SmallWithin(h, c, y);
    if PageOf(x) != PageOf(y) {
      HomesApart(h, PageOf(x), x, Size(b), PageOf(y), y, Size(c));
    } else {
      SamePageApart(h, b, x, y);
    }
  }

  lemma {:induction false} KnownFreeSmall(h: Heap, p: nat, known: set<nat>)
    requires Inv(h) && SmallLive(h, p) && Known(h, known) && POISON in known
    ensures Known(FreeSmall(h, p), known)
  {
    var b := h.live[p].b;
    var m := Poisoned(h.mem, p, Size(b) / 8);
    PoisonedReads(h.mem, p, Size(b) / 8);
    BlockWrites(h, p, m);
    KnownWrites(h, p, m, known);
    assert LiveAt(h, p);
    GridAligned(b, p);
    PoisonHolds(h.mem, p, b, known);
    KnownDropPush(h.(mem := m), p, known);
  }

  lemma {:induction false} KnownDropPush(h: Heap, p: nat, known: set<nat>)
    requires Inv(h) && SmallLive(h, p) && Known(h, known) && Holds(h.mem, known, p, Size(h.live[p].b))
    ensures Known(Push(Drop(h, p), h.live[p].b, p), known)
  {
    assert LiveAt(h, p);
    DropKeeps(h, p);
    KnownIgnores(h, Drop(h, p), known);
    KnownPush(Drop(h, p), h.live[p].b, p, known);
  }

  lemma {:induction false} PoisonHolds(m: Memory, p: nat, b: nat, known: set<nat>)
    requires b < BUCKETS && p % Size(b) == 0 && POISON in known
    ensures Holds(Poisoned(m, p, Size(b) / 8), known, p, Size(b))
  {
    PoisonedReads(m, p, Size(b) / 8);
    forall a: nat | p + 8 <= a < p + Size(b) && a % 8 == 0 ensures Get(Poisoned(m, p, Size(b) / 8), a) in known {
      EightAligned(b, p);
      var k: nat := (a - p) / 8;
      assert a == p + 8 * k;
    }
  }

  lemma {:induction false} EightAligned(b: nat, p: nat)
    requires b < BUCKETS && p % Size(b) == 0
    ensures p % 8 == 0
  {
    var n := Size(b);
    assert n == n / 8 * 8 && p == p / n * n;
    assert p == (p / n) * (n / 8 * 8);
    SumDivides(p / n, n / 8, 8, 0);
  }

  /** A write inside a block handed out reaches no free block. */
  lemma {:induction false} KnownWrites(h: Heap, p: nat, m: Memory, known: set<nat>)
    requires Inv(h) && p in h.live && Known(h, known) && SameOutside(h.mem, m, p, p + Room(h.live[p]))
    ensures Known(h.(mem := m), known)
  {
    forall b: nat, i: nat ensures SameAt(h, m, b, i) {
      if b < BUCKETS && i < |h.lists[b]| { FreeApart(h, b, i, p); }
    }
    KnownSame(h, m, known, known);
  }

  lemma {:induction false} KnownRemoveBig(h: Heap, s: nat, m: Memory, known: set<nat>)
    requires Inv(h) && s in h.bigs && s + 8 in h.live && Known(h, known) && SameOutside(h.mem, m, s, EndOf(h, s))
    ensures Known(RemoveBig(h, s, m), known)
  {
    forall b: nat, i: nat ensures SameAt(h, m, b, i) {
      if b < BUCKETS && i < |h.lists[b]| { FreeOutsideBig(h, s, b, i); }
    }
    KnownSame(h, m, known, known);
    KnownIgnores(h.(mem := m), RemoveBig(h, s, m), known);
  }

  lemma {:induction false} FreeOutsideBig(h: Heap, s: nat, b: nat, i: nat)
    requires Inv(h) && s in h.bigs && b < BUCKETS && i < |h.lists[b]|
    ensures h.lists[b][i] + Size(b) <= s || EndOf(h, s) <= h.lists[b][i]
  {
    var a := h.lists[b][i];
    assert NodeAt(h, b, i) && HeaderAt(h, s) && HeaderAt(h, PageOf(a));
    SmallWithin(h, b, a);
    assert PagesApart(h, s, PageOf(a)) && PagesApart(h, PageOf(a), s);
  }

  lemma {:induction false} KnownRefilled(h: Heap, s: nat, b: nat, k: nat, known: set<nat>)
    requires Inv(h) && Known(h, known) && Fresh(h, s, 1) && b < BUCKETS && (k == 0 || Fitting(b, k))
    requires forall a: nat :: s <= a < s + PAGE ==> Get(h.mem, a) in known
    ensures Known(Refilled(h, s, b, k), known)
    decreases k
  {
    if k == 0 {
      KnownFresh(h, h.mem[s := SlabWord(b)], s, 1, known, known);
      KnownIgnores(h.(mem := h.mem[s := SlabWord(b)]), AddSlab(h, s, b), known);
    } else {
      SpanGrows(k - 1, k, Size(b));
      KnownRefilled(h, s, b, k - 1, known);
      RefilledKeeps(h, s, b, k - 1);
      NextFits(h, s, b, k);
      NextHolds(h, s, b, k, known);
      KnownPush(Refilled(h, s, b, k - 1), b, s + Span(k, Size(b)), known);
    }
  }

  lemma {:induction false} NextFits(h: Heap, s: nat, b: nat, k: nat)
    requires Inv(h) && Fresh(h, s, 1) && b < BUCKETS && k > 0 && Fitting(b, k)
    ensures var r, x := Refilled(h, s, b, k - 1), s + Span(k, Size(b)); SmallAt(r.slabs, b, x) && x !in r.lists[b]
  {
    FreshIsBlank(h, s, b);
    NextIsNew(AddSlab(h, s, b), s, b, k);
    SplitIs(s, Span(k, Size(b)));
    SpanOnGrid(b, k);
  }

  lemma {:induction false} InsideBlock(b: nat, x: nat, a: nat)
    requires b < BUCKETS && x % Size(b) == 0 && x < a < x + Size(b)
    ensures a % Size(b) != 0
  {
    var n, q := Size(b), x / Size(b);
    assert x == q * n;
    DivUnique(a, n, q, a - x);
  }

  lemma {:induction false} NextHolds(h: Heap, s: nat, b: nat, k: nat, known: set<nat>)
    requires |h.heads| == BUCKETS && |h.lists| == BUCKETS && b < BUCKETS && s % PAGE == 0 && k > 0 && Fitting(b, k)
    requires forall a: nat :: s <= a < s + PAGE ==> Get(h.mem, a) in known
    ensures Holds(Refilled(h, s, b, k - 1).mem, known, s + Span(k, Size(b)), Size(b))
  {
    var x := s + Span(k, Size(b));
    SpanGrows(k - 1, k, Size(b));
    SpanOnGrid(b, k);
    SplitIs(s, Span(k, Size(b)));
    GridAligned(b, x);
    CarveWrites(AddSlab(h, s, b), s, b, k - 1);
    forall a: nat | x + 8 <= a < x + Size(b) && a % 8 == 0 ensures Get(Refilled(h, s, b, k - 1).mem, a) in known {
      InsideBlock(b, x, a);
      assert Get(AddSlab(h, s, b).mem, a) == Get(h.mem, a);
    }
  }
}
