/**
 The kernel heap as a value: bucket free lists threaded through the free blocks,
 headers at the start of the pages, the blocks handed out, and the byte count.
 */
module HeapSpec {
  import opened Arith

  const PAGE: nat := 0x1000
  const BUCKETS: nat := 8
  const SLAB_MAGIC: nat := 0x534C_4142
  const BIG_MAGIC: nat := 0x4249_4721
  const POISON: nat := 0xA5A5_A5A5_A5A5_A5A5

  function Size(b: nat): nat {
    if b == 0 then 16 else if b == 1 then 32 else if b == 2 then 64 else if b == 3 then 128
    else if b == 4 then 256 else if b == 5 then 512 else if b == 6 then 1024 else 2048
  }

  /** Memory by eight-byte words; a word never written reads as zero. */
  type Memory = map<nat, nat>

  function Get(m: Memory, a: nat): nat { if a in m then m[a] else 0 }

  /** The header words: magic in the low half, and what `kfree` needs in the high half. */
  function SlabWord(b: nat): nat { SLAB_MAGIC + (b + Size(b) * 0x1_0000) * 0x1_0000_0000 }
  function BigWord(pages: nat): nat { BIG_MAGIC + pages * 0x1_0000_0000 }
  function Magic(w: nat): nat { w % 0x1_0000_0000 }
  function Upper(w: nat): nat { w / 0x1_0000_0000 }

  lemma {:induction false} HeadersRead(b: nat, pages: nat)
    requires b < BUCKETS
    ensures Magic(SlabWord(b)) == SLAB_MAGIC && Upper(SlabWord(b)) % 0x1_0000 == b && Upper(SlabWord(b)) / 0x1_0000 == Size(b)
    ensures Magic(BigWord(pages)) == BIG_MAGIC && Upper(BigWord(pages)) == pages
  {
    DivUnique(SlabWord(b), 0x1_0000_0000, b + Size(b) * 0x1_0000, SLAB_MAGIC);
    DivUnique(b + Size(b) * 0x1_0000, 0x1_0000, Size(b), b);
    DivUnique(BigWord(pages), 0x1_0000_0000, pages, BIG_MAGIC);
  }

  // ------------------------------------------------------------------- the state

  /** What was handed out: a block of a bucket, or whole pages behind a header. */
  datatype Block = Small(b: nat) | Big(pages: nat)

  function Bytes(k: Block): nat { if k.Small? then Size(k.b) else k.pages * PAGE }

  /** The bytes the caller may use. */
  function Room(k: Block): nat { if k.Small? then Size(k.b) else if k.pages == 0 then 0 else k.pages * PAGE - 8 }

  datatype Heap = Heap(mem: Memory, heads: seq<nat>, lists: seq<seq<nat>>,
                       slabs: map<nat, nat>, bigs: map<nat, nat>, live: map<nat, Block>, cur: nat)

  function PageOf(a: nat): nat { a / PAGE * PAGE }

  function Offset(a: nat): nat { a % PAGE }

  /** A block of bucket `b` on its page, past the header: its offset is a multiple of its size. */
  predicate OnGrid(b: nat, off: nat) { off % Size(b) == 0 && Size(b) <= off && off + Size(b) <= PAGE }

  ghost predicate SmallAt(slabs: map<nat, nat>, b: nat, a: nat) {
    PageOf(a) in slabs && slabs[PageOf(a)] == b && OnGrid(b, Offset(a))
  }

  /** Where the pages that start at `s` end. */
  ghost function EndOf(h: Heap, s: nat): nat {
    if s in h.bigs then s + h.bigs[s] * PAGE else s + PAGE
  }

  ghost predicate Owned(h: Heap, s: nat) { s in h.slabs || s in h.bigs }

  // -------------------------------------------------------------------- invariant

  ghost predicate HeaderAt(h: Heap, s: nat) {
    && (s in h.slabs ==> s % PAGE == 0 && 0 < s && h.slabs[s] < BUCKETS && Get(h.mem, s) == SlabWord(h.slabs[s]))
    && (s in h.bigs ==> s % PAGE == 0 && 0 < s && 0 < h.bigs[s] && Get(h.mem, s) == BigWord(h.bigs[s]))
    && !(s in h.slabs && s in h.bigs)
  }

  ghost predicate PagesApart(h: Heap, s: nat, t: nat) {
    Owned(h, s) && Owned(h, t) && s < t ==> EndOf(h, s) <= t
  }

  ghost predicate NodeAt(h: Heap, b: nat, i: nat) {
    b < BUCKETS && b < |h.lists| && i < |h.lists[b]| ==>
      && SmallAt(h.slabs, b, h.lists[b][i])
      && Get(h.mem, h.lists[b][i]) == Follower(h.lists[b], i)
  }

  function Follower(list: seq<nat>, i: nat): nat { if i + 1 < |list| then list[i + 1] else 0 }

  function First(list: seq<nat>): nat { if list == [] then 0 else list[0] }

  ghost predicate ListAt(h: Heap, b: nat) {
    b < BUCKETS && b < |h.lists| && b < |h.heads| ==> h.heads[b] == First(h.lists[b]) && Once(h.lists[b])
  }

  ghost predicate Once(list: seq<nat>) {
    forall i, j :: 0 <= i < j < |list| ==> list[i] != list[j]
  }

  /** A block handed out lies on its page, past the header, and is not on a free list. */
  ghost predicate LiveAt(h: Heap, p: nat) {
    p in h.live ==>
      match h.live[p]
      case Small(b) => b < BUCKETS && b < |h.lists| && SmallAt(h.slabs, b, p) && p !in h.lists[b]
      case Big(pages) => 8 <= p && p - 8 in h.bigs && h.bigs[p - 8] == pages
  }

  ghost predicate Inv(h: Heap) {
    && |h.heads| == BUCKETS && |h.lists| == BUCKETS
    && (forall s: nat :: HeaderAt(h, s))
    && (forall s: nat, t: nat :: PagesApart(h, s, t))
    && (forall b: nat, i: nat :: NodeAt(h, b, i))
    && (forall b: nat :: ListAt(h, b))
    && (forall p: nat :: LiveAt(h, p))
    && h.cur == Total(h.live)
  }

  ghost function Total(live: map<nat, Block>): nat
    decreases |live|
  {
    if live == map[] then 0
    else
      var p :| p in live;
      Bytes(live[p]) + Total(live - {p})
  }

  lemma {:induction false} TotalPick(live: map<nat, Block>, p: nat)
    requires p in live
    ensures Total(live) == Bytes(live[p]) + Total(live - {p})
    decreases |live|
  {
    var x :| x in live && Total(live) == Bytes(live[x]) + Total(live - {x});
    if x != p {
      TotalPick(live - {x}, p);
      assert (live - {x}) - {p} == (live - {p}) - {x};
      assert x in live - {p};
      TotalPick(live - {p}, x);
    }
  }

  lemma {:induction false} TotalAdd(live: map<nat, Block>, p: nat, k: Block)
    requires p !in live
    ensures Total(live[p := k]) == Total(live) + Bytes(k)
  {
    TotalPick(live[p := k], p);
    assert live[p := k] - {p} == live;
  }

  function Init(): Heap {
    Heap(map[], seq(BUCKETS, _ => 0), seq(BUCKETS, _ => []), map[], map[], map[], 0)
  }

  lemma {:induction false} InitHolds()
    ensures Inv(Init())
  {
    var h := Init();
    assert forall b: nat :: ListAt(h, b);
  }

  // ------------------------------------------------------ addresses and the grid

  lemma {:induction false} PageSplit(a: nat)
    ensures PageOf(a) % PAGE == 0 && PageOf(a) + Offset(a) == a && Offset(a) < PAGE
  {
    DivUnique(PageOf(a), PAGE, a / PAGE, 0);
  }

  lemma {:induction false} SplitIs(s: nat, off: nat)
    requires s % PAGE == 0 && off < PAGE
    ensures PageOf(s + off) == s && Offset(s + off) == off
  {
    DivUnique(s + off, PAGE, s / PAGE, off);
  }

  /** Two blocks of one bucket on one page are the same or apart. */
  lemma {:induction false} GridApart(b: nat, x: nat, y: nat)
    requires OnGrid(b, x) && OnGrid(b, y) && x < y
    ensures x + Size(b) <= y
  {
    var n := Size(b);
    var q, r := x / n, y / n;
    assert x == q * n && y == r * n;
    MulLess(q, r, n);
    MulDistributes(r, q, n);
    MulAtLeast(r - q, n);
  }

  // ------------------------------------------------------------ what blocks occupy

  /** The start of the pages that a block lies on. */
  ghost function Home(h: Heap, p: nat): nat
    requires p in h.live
  {
    if h.live[p].Small? then PageOf(p) else if p < 8 then 0 else p - 8
  }

  ghost predicate Within(h: Heap, s: nat, lo: nat, n: nat) {
    Owned(h, s) && s + 8 <= lo && lo + n <= EndOf(h, s)
  }

  lemma {:induction false} SmallWithin(h: Heap, b: nat, a: nat)
    requires Inv(h) && SmallAt(h.slabs, b, a)
    ensures b < BUCKETS && Within(h, PageOf(a), a, Size(b))
  {
    PageSplit(a);
    assert HeaderAt(h, PageOf(a));
  }

  /** A block lies on its pages, past the header: it is aligned, and large enough for what its kind holds. */
  lemma {:induction false} LiveWithin(h: Heap, p: nat)
    requires Inv(h) && p in h.live
    ensures Within(h, Home(h, p), p, Room(h.live[p]))
  {
    assert LiveAt(h, p);
    if h.live[p].Small? {
      SmallWithin(h, h.live[p].b, p);
    } else {
      assert HeaderAt(h, p - 8);
    }
  }

  lemma {:induction false} HomesApart(h: Heap, s: nat, lo: nat, n: nat, t: nat, lo': nat, n': nat)
    requires Inv(h) && Within(h, s, lo, n) && Within(h, t, lo', n') && s != t
    ensures lo + n <= lo' || lo' + n' <= lo
  {
    assert PagesApart(h, s, t) && PagesApart(h, t, s);
  }

  lemma {:induction false} SamePageApart(h: Heap, b: nat, x: nat, y: nat)
    requires SmallAt(h.slabs, b, x) && SmallAt(h.slabs, b, y) && PageOf(x) == PageOf(y) && x != y
    ensures x + Size(b) <= y || y + Size(b) <= x
  {
    PageSplit(x);
    PageSplit(y);
    if x < y { GridApart(b, Offset(x), Offset(y)); } else { GridApart(b, Offset(y), Offset(x)); }
  }

  /** Two blocks that are both handed out never overlap. */
  lemma {:induction false} LiveApart(h: Heap, p: nat, q: nat)
    requires Inv(h) && p in h.live && q in h.live && p != q
    ensures p + Room(h.live[p]) <= q || q + Room(h.live[q]) <= p
  {
    LiveWithin(h, p);
    LiveWithin(h, q);
    assert LiveAt(h, p) && LiveAt(h, q);
    if Home(h, p) != Home(h, q) {
      HomesApart(h, Home(h, p), p, Room(h.live[p]), Home(h, q), q, Room(h.live[q]));
    } else {
      assert HeaderAt(h, Home(h, p));
      if h.live[p].Small? { SamePageApart(h, h.live[p].b, p, q); }
    }
  }

  /** A free block and one that is handed out never overlap. */
  lemma {:induction false} FreeApart(h: Heap, b: nat, i: nat, p: nat)
    requires Inv(h) && b < BUCKETS && i < |h.lists[b]| && p in h.live
    ensures var a := h.lists[b][i]; a + Size(b) <= p || p + Room(h.live[p]) <= a
  {
    var a := h.lists[b][i];
    assert NodeAt(h, b, i) && LiveAt(h, p);
    SmallWithin(h, b, a);
    LiveWithin(h, p);
    if PageOf(a) != Home(h, p) {
      HomesApart(h, PageOf(a), a, Size(b), Home(h, p), p, Room(h.live[p]));
    } else {
      assert HeaderAt(h, PageOf(a));
      SamePageApart(h, b, a, p);
    }
  }

  /** No block reaches a page header, of its own pages or of others. */
  lemma {:induction false} HeadersClear(h: Heap, s: nat, p: nat)
    requires Inv(h) && Owned(h, s) && p in h.live
    ensures s < p || p + Room(h.live[p]) <= s
  {
    LiveWithin(h, p);
    assert PagesApart(h, s, Home(h, p)) && PagesApart(h, Home(h, p), s);
  }

  // --------------------------------------------------------- what writing leaves alone

  ghost predicate SameOutside(m: Memory, m': Memory, lo: nat, hi: nat) {
    forall a: nat :: a < lo || hi <= a ==> Get(m', a) == Get(m, a)
  }

  /** Memory that keeps the headers and the free nodes keeps the invariant. */
  lemma {:induction false} MemoryKeeps(h: Heap, m: Memory)
    requires Inv(h)
    requires forall s: nat :: Owned(h, s) ==> Get(m, s) == Get(h.mem, s)
    requires forall b, i :: 0 <= b < BUCKETS && 0 <= i < |h.lists[b]| ==> Get(m, h.lists[b][i]) == Get(h.mem, h.lists[b][i])
    ensures Inv(h.(mem := m))
  {
    var h' := h.(mem := m);
    forall s: nat ensures HeaderAt(h', s) { assert HeaderAt(h, s); assert Owned(h, s) || !Owned(h, s); }
    forall s: nat, t: nat ensures PagesApart(h', s, t) { assert PagesApart(h, s, t); }
    forall b: nat, i: nat ensures NodeAt(h', b, i) { assert NodeAt(h, b, i); }
    forall b: nat ensures ListAt(h', b) { assert ListAt(h, b); }
    forall p: nat ensures LiveAt(h', p) { assert LiveAt(h, p); }
  }

  /** Whatever the caller writes in its block leaves the heap intact. */
  lemma {:induction false} BlockWrites(h: Heap, p: nat, m: Memory)
    requires Inv(h) && p in h.live && SameOutside(h.mem, m, p, p + Room(h.live[p]))
    ensures Inv(h.(mem := m))
  {
    forall s: nat | Owned(h, s) ensures Get(m, s) == Get(h.mem, s) { HeadersClear(h, s, p); }
    forall b, i | 0 <= b < BUCKETS && 0 <= i < |h.lists[b]|
      ensures Get(m, h.lists[b][i]) == Get(h.mem, h.lists[b][i])
    {
      FreeApart(h, b, i, p);
    }
    MemoryKeeps(h, m);
  }

  // ------------------------------------------------------------------ transitions

  /** Pages that the heap does not own yet. */
  ghost predicate Fresh(h: Heap, s: nat, pages: nat) {
    && s % PAGE == 0 && 0 < s && 0 < pages
    && forall t: nat :: FreshFrom(h, s, pages, t)
  }

  ghost predicate FreshFrom(h: Heap, s: nat, pages: nat, t: nat) {
    Owned(h, t) ==> EndOf(h, t) <= s || s + pages * PAGE <= t
  }

  /** A page given to bucket `b`. */
  ghost function AddSlab(h: Heap, s: nat, b: nat): Heap {
    h.(mem := h.mem[s := SlabWord(b)], slabs := h.slabs[s := b])
  }

  lemma {:induction false} FreshIsOutside(h: Heap, s: nat, pages: nat, t: nat, lo: nat, n: nat)
    requires Inv(h) && Fresh(h, s, pages) && Within(h, t, lo, n) && n > 0
    ensures lo + n <= s || s + pages * PAGE <= lo
  {
    assert FreshFrom(h, s, pages, t);
  }

  lemma {:induction false} NodeNotFresh(h: Heap, s: nat, pages: nat, b: nat, i: nat)
    requires Inv(h) && Fresh(h, s, pages) && b < BUCKETS && i < |h.lists[b]|
    ensures h.lists[b][i] != s && PageOf(h.lists[b][i]) != s && !Owned(h, s)
  {
    var a := h.lists[b][i];
    assert NodeAt(h, b, i) && FreshFrom(h, s, pages, s) && HeaderAt(h, s);
    SmallWithin(h, b, a);
    FreshIsOutside(h, s, pages, PageOf(a), a, Size(b));
    PageSplit(a);
  }

  lemma {:induction false} FreshIsNotOwned(h: Heap, s: nat, pages: nat)
    requires Inv(h) && Fresh(h, s, pages)
    ensures !Owned(h, s)
  {
    assert FreshFrom(h, s, pages, s) && HeaderAt(h, s);
  }

  lemma {:induction false} AddSlabKeeps(h: Heap, s: nat, b: nat)
    requires Inv(h) && Fresh(h, s, 1) && b < BUCKETS
    ensures Inv(AddSlab(h, s, b))
  {
    var h' := AddSlab(h, s, b);
    FreshIsNotOwned(h, s, 1);
    forall t: nat ensures HeaderAt(h', t) { assert HeaderAt(h, t); }
    forall t: nat, u: nat ensures PagesApart(h', t, u) {
      assert PagesApart(h, t, u) && FreshFrom(h, s, 1, t) && FreshFrom(h, s, 1, u) && HeaderAt(h, t) && HeaderAt(h, u);
    }
    forall c: nat, i: nat ensures NodeAt(h', c, i) {
      assert NodeAt(h, c, i);
      if c < BUCKETS && i < |h.lists[c]| { NodeNotFresh(h, s, 1, c, i); }
    }
    forall c: nat ensures ListAt(h', c) { assert ListAt(h, c); }
    forall p: nat ensures LiveAt(h', p) { assert LiveAt(h, p); }
  }

  /** A free block put on its list. */
  ghost function Push(h: Heap, b: nat, x: nat): Heap
    requires |h.heads| == BUCKETS && |h.lists| == BUCKETS && b < BUCKETS
  {
    h.(mem := h.mem[x := h.heads[b]], heads := h.heads[b := x], lists := h.lists[b := [x] + h.lists[b]])
  }

  lemma {:induction false} NodesDiffer(h: Heap, b: nat, x: nat, c: nat, i: nat)
    requires Inv(h) && b < BUCKETS && SmallAt(h.slabs, b, x) && x !in h.lists[b] && c < BUCKETS && i < |h.lists[c]|
    ensures h.lists[c][i] != x
  {
    assert NodeAt(h, c, i);
  }

  lemma {:induction false} NotAHeader(h: Heap, b: nat, x: nat, s: nat)
    requires Inv(h) && SmallAt(h.slabs, b, x) && Owned(h, s)
    ensures s != x
  {
    assert HeaderAt(h, s) && HeaderAt(h, PageOf(x));
    PageSplit(x);
  }

  lemma {:induction false} PushKeeps(h: Heap, b: nat, x: nat)
    requires Inv(h) && b < BUCKETS && SmallAt(h.slabs, b, x) && x !in h.lists[b] && x !in h.live
    ensures Inv(Push(h, b, x))
  {
    var h' := Push(h, b, x);
    forall s: nat ensures HeaderAt(h', s) {
      assert HeaderAt(h, s);
      if Owned(h, s) { NotAHeader(h, b, x, s); }
    }
    forall s: nat, t: nat ensures PagesApart(h', s, t) { assert PagesApart(h, s, t); }
    assert ListAt(h, b);
    forall c: nat, i: nat ensures NodeAt(h', c, i) {
      assert NodeAt(h, c, i);
      if c < BUCKETS && i < |h.lists[c]| { NodesDiffer(h, b, x, c, i); }
      if c == b && 0 < i <= |h.lists[b]| {
        var j := i - 1;
        assert NodeAt(h, b, j);
        NodesDiffer(h, b, x, b, j);
      }
    }
    forall c: nat ensures ListAt(h', c) { assert ListAt(h, c); }
    forall p: nat ensures LiveAt(h', p) { assert LiveAt(h, p); }
  }

  /** The first free block of a bucket handed out. */
  ghost function Pop(h: Heap, b: nat): Heap
    requires |h.heads| == BUCKETS && |h.lists| == BUCKETS && b < BUCKETS && h.lists[b] != []
  {
    var x := h.lists[b][0];
    h.(heads := h.heads[b := Get(h.mem, x)], lists := h.lists[b := h.lists[b][1..]],
       live := h.live[x := Small(b)], cur := h.cur + Size(b))
  }

  lemma {:induction false} NodeIsNotLive(h: Heap, b: nat, i: nat)
    requires Inv(h) && b < BUCKETS && i < |h.lists[b]|
    ensures h.lists[b][i] !in h.live
  {
    var x := h.lists[b][i];
    if x in h.live {
      assert LiveAt(h, x) && NodeAt(h, b, i);
      if h.live[x].Big? { assert HeaderAt(h, x - 8); }
      assert Size(b) > 0 && Room(h.live[x]) > 0;
      FreeApart(h, b, i, x);
      assert false;
    }
  }

  lemma {:induction false} PopKeeps(h: Heap, b: nat)
    requires Inv(h) && b < BUCKETS && h.lists[b] != []
    ensures h.lists[b][0] !in h.live && h.lists[b][0] == h.heads[b] != 0 && Inv(Pop(h, b))
  {
    var h', x := Pop(h, b), h.lists[b][0];
    assert NodeAt(h, b, 0) && ListAt(h, b) && LiveAt(h, x);
    SmallWithin(h, b, x);
    NodeIsNotLive(h, b, 0);
    TotalAdd(h.live, x, Small(b));
    forall s: nat ensures HeaderAt(h', s) { assert HeaderAt(h, s); }
    forall s: nat, t: nat ensures PagesApart(h', s, t) { assert PagesApart(h, s, t); }
    forall c: nat, i: nat ensures NodeAt(h', c, i) {
      var j := i + 1;
      assert NodeAt(h, c, i) && NodeAt(h, b, j);
    }
    forall c: nat ensures ListAt(h', c) { assert ListAt(h, c); }
    forall p: nat ensures LiveAt(h', p) { assert LiveAt(h, p); }
  }

  /** The byte count after a block is taken back: never below zero. */
  function Without(cur: nat, bytes: nat): nat { if cur >= bytes then cur - bytes else 0 }

  /** A block taken back; where it goes is another step. */
  ghost function Drop(h: Heap, p: nat): Heap
    requires p in h.live
  {
    h.(live := h.live - {p}, cur := Without(h.cur, Bytes(h.live[p])))
  }

  lemma {:induction false} DropKeeps(h: Heap, p: nat)
    requires Inv(h) && p in h.live
    ensures Inv(Drop(h, p)) && Drop(h, p).cur + Bytes(h.live[p]) == h.cur
  {
    var h' := Drop(h, p);
    TotalPick(h.live, p);
    forall s: nat ensures HeaderAt(h', s) { assert HeaderAt(h, s); }
    forall s: nat, t: nat ensures PagesApart(h', s, t) { assert PagesApart(h, s, t); }
    forall c: nat, i: nat ensures NodeAt(h', c, i) { assert NodeAt(h, c, i); }
    forall c: nat ensures ListAt(h', c) { assert ListAt(h, c); }
    forall q: nat ensures LiveAt(h', q) { assert LiveAt(h, q); }
  }

  /** Whole pages handed out behind a header. */
  ghost function AddBig(h: Heap, s: nat, pages: nat): Heap {
    h.(mem := h.mem[s := BigWord(pages)], bigs := h.bigs[s := pages],
       live := h.live[s + 8 := Big(pages)], cur := h.cur + pages * PAGE)
  }

  lemma {:induction false} BigIsNew(h: Heap, s: nat, pages: nat)
    requires Inv(h) && Fresh(h, s, pages)
    ensures s + 8 !in h.live && !Owned(h, s)
  {
    FreshIsNotOwned(h, s, pages);
    assert LiveAt(h, s + 8);
    SplitIs(s, 8);
  }

  lemma {:induction false} AddBigKeeps(h: Heap, s: nat, pages: nat)
    requires Inv(h) && Fresh(h, s, pages)
    ensures Inv(AddBig(h, s, pages)) && s + 8 !in h.live
  {
    var h' := AddBig(h, s, pages);
    BigIsNew(h, s, pages);
    TotalAdd(h.live, s + 8, Big(pages));
    forall t: nat ensures HeaderAt(h', t) { assert HeaderAt(h, t); }
    forall t: nat, u: nat ensures PagesApart(h', t, u) {
      assert PagesApart(h, t, u) && FreshFrom(h, s, pages, t) && FreshFrom(h, s, pages, u) && HeaderAt(h, t) && HeaderAt(h, u);
    }
    forall c: nat, i: nat ensures NodeAt(h', c, i) {
      assert NodeAt(h, c, i);
      if c < BUCKETS && i < |h.lists[c]| { NodeNotFresh(h, s, pages, c, i); }
    }
    forall c: nat ensures ListAt(h', c) { assert ListAt(h, c); }
    forall p: nat ensures LiveAt(h', p) { assert LiveAt(h, p); }
  }

  /** Pages given back, whatever was written over them. */
  ghost function RemoveBig(h: Heap, s: nat, m: Memory): Heap
    requires s in h.bigs && s + 8 in h.live
  {
    Drop(h, s + 8).(mem := m, bigs := h.bigs - {s})
  }

  lemma {:induction false} RemoveBigKeeps(h: Heap, s: nat, m: Memory)
    requires Inv(h) && s in h.bigs && s + 8 in h.live && h.live[s + 8].Big?
    requires SameOutside(h.mem, m, s, EndOf(h, s))
    ensures Inv(RemoveBig(h, s, m)) && RemoveBig(h, s, m).cur + h.bigs[s] * PAGE == h.cur
  {
    var h' := RemoveBig(h, s, m);
    assert LiveAt(h, s + 8);
    TotalPick(h.live, s + 8);
    forall t: nat ensures HeaderAt(h', t) { assert HeaderAt(h, t) && PagesApart(h, s, t) && PagesApart(h, t, s) && HeaderAt(h, s); }
    forall t: nat, u: nat ensures PagesApart(h', t, u) { assert PagesApart(h, t, u); }
    forall c: nat, i: nat ensures NodeAt(h', c, i) {
      assert NodeAt(h, c, i);
      if c < BUCKETS && i < |h.lists[c]| { NodeOutsideBig(h, s, c, i); }
    }
    forall c: nat ensures ListAt(h', c) { assert ListAt(h, c); }
    forall p: nat ensures LiveAt(h', p) { assert LiveAt(h, p); }
  }

  lemma {:induction false} NodeOutsideBig(h: Heap, s: nat, b: nat, i: nat)
    requires Inv(h) && s in h.bigs && b < BUCKETS && i < |h.lists[b]|
    ensures h.lists[b][i] < s || EndOf(h, s) <= h.lists[b][i]
  {
    var a := h.lists[b][i];
    assert NodeAt(h, b, i) && HeaderAt(h, s) && HeaderAt(h, PageOf(a));
    SmallWithin(h, b, a);
    assert PagesApart(h, s, PageOf(a)) && PagesApart(h, PageOf(a), s);
  }
}
