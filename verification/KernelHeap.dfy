/**
 The kernel heap as an object: bucket free lists over carved pages, whole pages
 behind a header for what no bucket holds, and `kfree` by the page header alone.
 */
module KernelHeap {
  import opened Arith
  import opened HeapSpec
  import opened HeapSteps
  import opened Options

  const W32: nat := 0x1_0000_0000
  const W64: nat := 0x1_0000_0000_0000_0000

  // -------------------------------------------------------------- size arithmetic

  /** Pages for a large request, in the source's 64-bit and 32-bit arithmetic. */
  function Pages(size: nat): nat {
    ((size + 8) % W64 + 0xFFF) % W64 / PAGE % W32
  }

  /** The smallest bucket that holds `size` bytes, from bucket `b` on. */
  function BucketFrom(size: nat, b: nat): nat
    decreases BUCKETS - b
  {
    if b >= BUCKETS || size <= Size(b) then b else BucketFrom(size, b + 1)
  }

  function KindFor(size: nat): Block {
    if BucketFrom(size, 0) < BUCKETS then Small(BucketFrom(size, 0)) else Big(Pages(size))
  }

  /** The pages that a request asks of the page allocator. */
  function Asked(size: nat): nat {
    if KindFor(size).Small? then 1 else Pages(size)
  }

  lemma {:induction false} BucketHolds(size: nat, b: nat)
    requires b < BUCKETS
    ensures BucketFrom(size, b) < BUCKETS <==> size <= 2048
    ensures BucketFrom(size, b) < BUCKETS ==> size <= Size(BucketFrom(size, b))
    decreases BUCKETS - b
  {
    if size > Size(b) && b + 1 < BUCKETS { BucketHolds(size, b + 1); }
  }

  lemma {:induction false} PagesExact(size: nat)
    requires size + 8 <= W32 * PAGE - PAGE
    ensures Pages(size) == (size + 8 + 0xFFF) / PAGE
  {
    var n := size + 8 + 0xFFF;
    assert n < W32 * PAGE;
    assert n == n / PAGE * PAGE + n % PAGE;
  }

  /** A block has room for its request exactly when the page count does not lose its high bits. */
  lemma {:induction false} RoomIff(size: nat)
    requires 0 < size < W64
    ensures size <= Room(KindFor(size)) <==> size <= W32 * PAGE - PAGE - 8
  {
    BucketHolds(size, 0);
    if size > 2048 {
      if size + 8 <= W32 * PAGE - PAGE { PagesExact(size); }
      assert Pages(size) < W32;
    }
  }

  // ------------------------------------------------------------------- the object

  /** Pages from the page allocator, with whatever words they still hold. */
  datatype Grant = Grant(at: nat, words: Memory)

  function Values(words: Memory): set<nat> { words.Values + {0} }

  /** Whether a request takes the granted pages. */
  ghost predicate Takes(h: Heap, size: nat, grant: Option<Grant>) {
    grant.Some? && size > 0 && |h.lists| == BUCKETS &&
    match KindFor(size)
    case Small(b) => b < BUCKETS && h.lists[b] == []
    case Big(_) => true
  }

  /** A block on the granted pages, up to `end`, that past its first word holds what they brought. */
  ghost predicate AsBrought(m: Memory, grant: Grant, x: nat, n: nat, end: nat) {
    && grant.at <= x && x + n <= end
    && forall a: nat :: x < a < x + n ==> Get(m, a) == Get(grant.words, a)
  }

  class KHeap {
    var mem: Memory
    var heads: seq<nat>
    var cur: nat
    ghost var lists: seq<seq<nat>>
    ghost var slabs: map<nat, nat>
    ghost var bigs: map<nat, nat>
    ghost var live: map<nat, Block>
    ghost var known: set<nat>  // zero, the poison, and every word that granted pages brought

    ghost function Abs(): Heap
      reads this
    {
      Heap(mem, heads, lists, slabs, bigs, live, cur)
    }

    ghost predicate Valid()
      reads this
    {
      Inv(Abs()) && Kept(Abs()) && Known(Abs(), known) && POISON in known
    }

    constructor ()
      ensures Valid() && live == map[] && cur == 0 && slabs == map[] && bigs == map[] && known == {0, POISON}
      ensures forall b :: 0 <= b < BUCKETS ==> lists[b] == []
    {
      mem, heads, cur := map[], seq(BUCKETS, _ => 0), 0;
      lists, slabs, bigs, live, known := seq(BUCKETS, _ => []), map[], map[], map[], {0, POISON};
      new;
      assert Abs() == Init();
      InitHolds();
      InitKept();
    }

    method BucketForSize(size: nat) returns (b: nat)
      ensures b == BucketFrom(size, 0)
    {
      b := 0;
      while b < BUCKETS && size > Size(b)
        invariant b <= BUCKETS
        invariant BucketFrom(size, b) == BucketFrom(size, 0)
      {
        b := b + 1;
      }
    }

    method PushBlock(b: nat, x: nat)
      requires |heads| == BUCKETS && |lists| == BUCKETS && b < BUCKETS
      modifies `mem, `heads, `lists
      ensures Abs() == Push(old(Abs()), b, x)
    {
      mem := mem[x := heads[b]];
      heads := heads[b := x];
      lists := lists[b := [x] + lists[b]];
    }

    /** Granted pages come into view with the words they hold. */
    method Receive(s: nat, ghost pages: nat, words: Memory, end: nat)
      requires Valid() && Fresh(Abs(), s, pages) && end == s + pages * PAGE
      modifies `mem, `known
      ensures Valid() && Fresh(Abs(), s, pages) && known == old(known) + Values(words)
      ensures SameOutside(old(mem), mem, s, end) && forall a: nat :: s <= a < end ==> Get(mem, a) == Get(words, a)
    {
      ghost var h := Abs();
      BroughtReads(mem, words, s, end);
      FreshWrites(h, s, pages, Brought(mem, words, s, end));
      KnownFresh(h, Brought(mem, words, s, end), s, pages, known, known + Values(words));
      mem := Brought(mem, words, s, end);
      known := known + Values(words);
      assert Abs() == h.(mem := mem);
    }

    /** Carves one page, if there is one, into blocks of bucket `b`. */
    method RefillBucket(b: nat, page: Option<Grant>)
      requires Valid() && b < BUCKETS && (page.Some? ==> Fresh(Abs(), page.value.at, 1))
      modifies this
      ensures Valid() && live == old(live) && cur == old(cur)
      ensures page.None? ==> Abs() == old(Abs()) && known == old(known)
      ensures page.Some? ==> lists[b] != [] && known == old(known) + Values(page.value.words)
      ensures page.Some? ==> SameOutside(old(mem), mem, page.value.at, page.value.at + PAGE)
      ensures page.Some? ==> Carved(mem, page.value, Size(b)) && (old(lists)[b] == [] ==> AllOn(lists[b], page.value.at))
    {
      if page.None? { return; }
      Receive(page.value.at, 1, page.value.words, page.value.at + PAGE);
      CarvePage(b, page.value.at, known);
    }

    method CarvePage(b: nat, s: nat, ghost all: set<nat>)
      requires Valid() && b < BUCKETS && Fresh(Abs(), s, 1) && all == known
      requires forall a: nat :: s <= a < s + PAGE ==> Get(mem, a) in known
      modifies `mem, `heads, `lists, `slabs
      ensures Valid() && lists[b] != [] && SameOutside(old(mem), mem, s, s + PAGE)
      ensures forall a: nat :: a % Size(b) != 0 ==> Get(mem, a) == Get(old(mem), a)
      ensures old(lists)[b] == [] ==> AllOn(lists[b], s)
    {
      var bs := Size(b);
      ghost var h := Abs();
      mem := mem[s := SlabWord(b)];
      slabs := slabs[s := b];
      assert Abs() == AddSlab(h, s, b);
      var p, end := (s + 8 + (bs - 1)) / bs * bs, s + PAGE;
      ghost var k := 0;
      FirstBlock(s, b);
      while p + bs <= end
        invariant p == s + Span(k + 1, bs) && (k == 0 || Fitting(b, k))
        invariant Abs() == Refilled(h, s, b, k)
        decreases end - p
      {
        PushBlock(b, p);
        k := k + 1;
        p := p + bs;
      }
      RefilledFacts(h, s, b, k, all);
    }

    method PopBlock(b: nat) returns (x: nat)
      requires Valid() && b < BUCKETS
      modifies `heads, `lists, `live, `cur
      ensures Valid()
      ensures old(lists)[b] == [] ==> x == 0 && Abs() == old(Abs())
      ensures old(lists)[b] != [] ==> x != 0 && x == old(lists)[b][0] && x !in old(live) && Abs() == Pop(old(Abs()), b)
      ensures old(lists)[b] != [] ==> Holds(mem, known, x, Size(b)) && SmallAt(slabs, b, x)
    {
      ghost var h := Abs();
      assert ListAt(h, b);
      HeadIsFirst(h, b);
      x := heads[b];
      if x == 0 { return; }
      PopKeeps(h, b);
      PopKept(h, b);
      KnownPop(h, b, known);
      assert NodeAt(h, b, 0);
      heads := heads[b := Get(mem, x)];
      lists := lists[b := lists[b][1..]];
      live := live[x := Small(b)];
      cur := cur + Size(b);
    }

    method TakePages(s: nat, pages: nat) returns (x: nat)
      requires Valid() && Fresh(Abs(), s, pages)
      modifies `mem, `bigs, `live, `cur
      ensures Valid() && x == s + 8 && x !in old(live) && Abs() == AddBig(old(Abs()), s, pages)
    {
      ghost var h := Abs();
      AddBigKeeps(h, s, pages);
      AddBigKept(h, s, pages);
      KnownFresh(h, mem[s := BigWord(pages)], s, pages, known, known);
      mem := mem[s := BigWord(pages)];
      bigs := bigs[s := pages];
      live := live[s + 8 := Big(pages)];
      cur := cur + pages * PAGE;
      x := s + 8;
      KnownIgnores(h.(mem := mem), Abs(), known);
    }

    /**
     A block for `size` bytes, or 0. `grant` is the page allocator's answer, should it be
     asked. The new block is none of those handed out, and none of those changes; past its first
     word it holds what its pages brought, if they are new, or else words known before.
     */
    method Kmalloc(size: nat, grant: Option<Grant>) returns (x: nat)
      requires Valid() && size < W64 && (grant.Some? ==> Fresh(Abs(), grant.value.at, Asked(size)))
      modifies this
      ensures Valid()
      ensures x == 0 ==> live == old(live) && cur == old(cur)
      ensures x != 0 ==> x !in old(live) && live == old(live)[x := KindFor(size)] && cur == old(cur) + Bytes(KindFor(size))
      ensures x == 0 <==> size == 0 || (grant.None? && (KindFor(size).Big? || old(lists)[KindFor(size).b] == []))
      ensures forall q: nat :: q in old(live) ==> BlockSame(old(Abs()), mem, q)
      ensures known == old(known) + if Takes(old(Abs()), size, grant) then Values(grant.value.words) else {}
      ensures x != 0 ==> Holds(mem, known, x, Room(KindFor(size)))
      ensures x != 0 && Takes(old(Abs()), size, grant) ==>
        AsBrought(mem, grant.value, x, Room(KindFor(size)), grant.value.at + Asked(size) * PAGE)
    {
      if size == 0 { return 0; }
      BucketHolds(size, 0);
      var b := BucketForSize(size);
      if b < BUCKETS {
        x := SmallBlock(b, grant);
      } else {
        if grant.None? { return 0; }
        x := BigBlock(Pages(size), grant.value);
      }
    }

    method SmallBlock(b: nat, grant: Option<Grant>) returns (x: nat)
      requires Valid() && b < BUCKETS && (grant.Some? ==> Fresh(Abs(), grant.value.at, 1))
      modifies this
      ensures Valid()
      ensures x == 0 <==> grant.None? && old(lists)[b] == []
      ensures x == 0 ==> live == old(live) && cur == old(cur)
      ensures x != 0 ==> x !in old(live) && live == old(live)[x := Small(b)] && cur == old(cur) + Size(b)
      ensures forall q: nat :: q in old(live) ==> BlockSame(old(Abs()), mem, q)
      ensures known == old(known) + if grant.Some? && old(lists)[b] == [] then Values(grant.value.words) else {}
      ensures x != 0 ==> Holds(mem, known, x, Size(b))
      ensures x != 0 && grant.Some? && old(lists)[b] == [] ==>
        AsBrought(mem, grant.value, x, Size(b), grant.value.at + PAGE)
    {
      ghost var h := Abs();
      HeadIsFirst(h, b);
      if heads[b] == 0 {
        RefillBucket(b, grant);
        if grant.Some? {
          GrantOthersKept(h, grant.value.at, 1, mem);
          CarvedBlock(Abs(), b, grant.value);
        }
      }
      x := PopBlock(b);
    }

    method BigBlock(pages: nat, grant: Grant) returns (x: nat)
      requires Valid() && Fresh(Abs(), grant.at, pages)
      modifies this
      ensures Valid() && x != 0
      ensures x !in old(live) && live == old(live)[x := Big(pages)] && cur == old(cur) + pages * PAGE
      ensures forall q: nat :: q in old(live) ==> BlockSame(old(Abs()), mem, q)
      ensures known == old(known) + Values(grant.words)
      ensures Holds(mem, known, x, Room(Big(pages))) && AsBrought(mem, grant, x, Room(Big(pages)), grant.at + pages * PAGE)
    {
      ghost var h := Abs();
      Receive(grant.at, pages, grant.words, grant.at + pages * PAGE);
      ghost var m := mem;
      x := TakePages(grant.at, pages);
      GrantOthersKept(h, grant.at, pages, mem);
      BigWords(m, mem, grant, pages, known);
    }

    /** A word written by the owner of a block, inside the block. */
    method Store(ghost p: nat, a: nat, v: nat)
      requires Valid() && p in live && p <= a < p + Room(live[p]) && a % 8 == 0
      modifies this`mem
      ensures Valid() && mem == old(mem)[a := v]
      ensures forall q: nat :: q in live && q != p ==> BlockSame(old(Abs()), mem, q)
    {
      ghost var h, m := Abs(), mem[a := v];
      BlockWrites(h, p, m);
      OthersKept(h, p, m);
      WritesKept(h, m);
      KnownWrites(h, p, m, known);
      mem := mem[a := v];
      assert Abs() == h.(mem := m);
    }

    method FreeSmallBlock(p: nat)
      requires Valid() && SmallLive(Abs(), p)
      modifies `mem, `heads, `lists, `live, `cur
      ensures Valid() && Abs() == FreeSmall(old(Abs()), p)
      ensures live == old(live) - {p} && cur + Bytes(old(live)[p]) == old(cur)
    {
      ghost var h := Abs();
      var b := SlabBucket(p);
      FreeSmallKeeps(h, p);
      FreeSmallKept(h, p);
      KnownFreeSmall(h, p, known);
      mem := Poisoned(mem, p, Size(b) / 8);
      live := live - {p};
      cur := Without(cur, Size(b));
      PushBlock(b, p);
    }

    /** The bucket in the page header is the block's own. */
    method SlabBucket(p: nat) returns (b: nat)
      requires Valid() && SmallLive(Abs(), p)
      ensures b == live[p].b && Upper(Get(mem, PageOf(p))) / 0x1_0000 == Size(b)
    {
      assert LiveAt(Abs(), p) && HeaderAt(Abs(), PageOf(p));
      HeadersRead(live[p].b, 0);
      b := Upper(Get(mem, PageOf(p))) % 0x1_0000;
    }

    method FreeBigBlock(p: nat) returns (freed: nat)
      requires Valid() && p in live && live[p].Big? && p >= 8
      modifies `mem, `bigs, `live, `cur
      ensures Valid() && live == old(live) - {p} && cur + Bytes(old(live)[p]) == old(cur) && freed == old(live)[p].pages
      ensures bigs == old(bigs) - {(p - 8) as nat} && SameOutside(old(mem), mem, p - 8, p - 8 + freed * PAGE)
    {
      ghost var h := Abs();
      var s := p - 8;
      assert LiveAt(h, p) && HeaderAt(h, s);
      HeadersRead(0, bigs[s]);
      freed := Upper(Get(mem, s));
      var m := Poisoned(mem, s, freed * PAGE / 8);
      PoisonedReads(mem, s, freed * PAGE / 8);
      RemoveBigKeeps(h, s, m);
      RemoveBigKept(h, s, m);
      KnownRemoveBig(h, s, m, known);
      mem := m;
      cur := Without(cur, freed * PAGE);
      bigs := bigs - {s};
      live := live - {p};
      assert Abs() == RemoveBig(h, s, m);
    }

    /**
     Takes a block back, from the page header alone: the block leaves the ones handed out,
     exactly its bytes leave the count, and no other block changes. A large block's pages go
     back to the page allocator. A pointer into a page without a header is left alone.
     */
    method Kfree(p: nat) returns (pages: Option<(nat, nat)>)
      requires Valid()
      requires p == 0 || p in live || (Magic(Get(mem, PageOf(p))) != SLAB_MAGIC && Magic(Get(mem, PageOf(p))) != BIG_MAGIC)
      modifies `mem, `heads, `lists, `bigs, `live, `cur
      ensures Valid()
      ensures p !in old(live) || p == 0 ==> Abs() == old(Abs()) && pages.None?
      ensures p in old(live) && p != 0 ==>
        live == old(live) - {p} && cur + Bytes(old(live)[p]) == old(cur)
      ensures p in old(live) && p != 0 ==>
        pages == if old(live)[p].Big? && p >= 8 then Some((p - 8, old(live)[p].pages)) else None
      ensures forall q: nat :: q in old(live) && q != p ==> BlockSame(old(Abs()), mem, q)
    {
      if p == 0 { return None; }
      var magic := Magic(Get(mem, PageOf(p)));
      ghost var h := Abs();
      if p in live { LiveMagic(h, p); }
      if magic == SLAB_MAGIC {
        FreeSmallWrites(h, p);
        OthersKept(h, p, FreeSmall(h, p).mem);
        FreeSmallBlock(p);
        return None;
      }
      if magic == BIG_MAGIC {
        var freed := FreeBigBlock(p);
        BigOthersKept(h, p, mem);
        return Some((p - 8, freed));
      }
      return None;
    }
  }

  // -------------------------------------------------------------- what they rest on

  lemma {:induction false} BigAligned(p: nat, pages: nat)
    requires p >= 8 && (p - 8) % PAGE == 0 && p > 8 && pages > 0
    ensures p >= 16 && p % 8 == 0 && 16 <= Room(Big(pages))
  {
    var q := (p - 8) / PAGE;
    assert p == q * PAGE + 8;
    SumDivides(q, PAGE / 8, 8, 1);
    MulAtLeast(pages, PAGE);
  }

  /** Every block starts on a multiple of eight, a small one on a multiple of its size. */
  lemma {:induction false} LiveAligned(h: Heap, p: nat)
    requires Inv(h) && p in h.live
    ensures p >= 16 && p % 8 == 0 && 16 <= Room(h.live[p])
    ensures h.live[p].Small? ==> p % Size(h.live[p].b) == 0
  {
    assert LiveAt(h, p);
    match h.live[p]
    case Small(b) =>
      GridAligned(b, p);
      EightAligned(b, p);
      PageSplit(p);
    case Big(pages) =>
      assert HeaderAt(h, p - 8);
      BigAligned(p, pages);
  }

  lemma {:induction false} GrantOthersKept(h: Heap, s: nat, pages: nat, m: Memory)
    requires Inv(h) && Fresh(h, s, pages) && SameOutside(h.mem, m, s, s + pages * PAGE)
    ensures forall q: nat :: q in h.live ==> BlockSame(h, m, q)
  {
    forall q: nat | q in h.live ensures BlockSame(h, m, q) {
      LiveWithin(h, q);
      LiveAligned(h, q);
      FreshIsOutside(h, s, pages, Home(h, q), q, Room(h.live[q]));
    }
  }

  lemma {:induction false} FirstBlock(s: nat, b: nat)
    requires s % PAGE == 0 && b < BUCKETS
    ensures (s + 8 + (Size(b) - 1)) / Size(b) * Size(b) == s + Span(1, Size(b))
  {
    var n, q := Size(b), s / PAGE;
    var k := PAGE / n;
    assert s == q * PAGE && PAGE == k * n;
    assert s == (q * k) * n;
    MulDistributes(q * k, 1, n);
    DivUnique(s + 8 + (n - 1), n, q * k + 1, 7);
    assert Span(1, n) == n + Span(0, n);
  }

  lemma {:induction false} BigWords(m: Memory, m': Memory, grant: Grant, pages: nat, known: set<nat>)
    requires pages > 0 && Values(grant.words) <= known && m' == m[grant.at := BigWord(pages)]
    requires forall a: nat :: grant.at <= a < grant.at + pages * PAGE ==> Get(m, a) == Get(grant.words, a)
    ensures Holds(m', known, grant.at + 8, Room(Big(pages))) &&
      AsBrought(m', grant, grant.at + 8, Room(Big(pages)), grant.at + pages * PAGE)
  {
    forall a: nat | grant.at + 8 < a < grant.at + pages * PAGE
      ensures Get(m', a) == Get(grant.words, a) && Get(m', a) in known
    {
      assert Get(m, a) == Get(grant.words, a) && Get(grant.words, a) in Values(grant.words);
    }
  }

  /** What lies between the block starts of a new page is what the page brought. */
  ghost predicate Carved(m: Memory, page: Grant, size: nat)
    requires size > 0
  {
    forall a: nat :: page.at <= a < page.at + PAGE && a % size != 0 ==> Get(m, a) == Get(page.words, a)
  }

  ghost predicate AllOn(list: seq<nat>, s: nat) { forall i :: 0 <= i < |list| ==> PageOf(list[i]) == s }

  lemma {:induction false} RefilledFacts(h: Heap, s: nat, b: nat, k: nat, known: set<nat>)
    requires Inv(h) && Kept(h) && Known(h, known) && Fresh(h, s, 1) && b < BUCKETS
    requires (k == 0 || Fitting(b, k)) && !Fitting(b, k + 1)
    requires forall a: nat :: s <= a < s + PAGE ==> Get(h.mem, a) in known
    ensures var r := Refilled(h, s, b, k);
      && Inv(r) && Kept(r) && Known(r, known) && r.lists[b] != [] && SameOutside(h.mem, r.mem, s, s + PAGE)
      && (forall a: nat :: a % Size(b) != 0 ==> Get(r.mem, a) == Get(h.mem, a))
      && (h.lists[b] == [] ==> AllOn(r.lists[b], s))
  {
    AtLeastOne(b, k);
    RefilledKeeps(h, s, b, k);
    RefilledKept(h, s, b, k);
    KnownRefilled(h, s, b, k, known);
    CarveWrites(AddSlab(h, s, b), s, b, k);
    if h.lists[b] == [] { CarvedOn(h, s, b, k); }
    PageIsMultiple(s, b);
  }

  lemma {:induction false} PageIsMultiple(s: nat, b: nat)
    requires s % PAGE == 0 && b < BUCKETS
    ensures s % Size(b) == 0
  {
    SumDivides(s / PAGE, PAGE / Size(b), Size(b), 0);
  }

  lemma {:induction false} CarvedOn(h: Heap, s: nat, b: nat, k: nat)
    requires Inv(h) && Fresh(h, s, 1) && b < BUCKETS && (k == 0 || Fitting(b, k)) && h.lists[b] == []
    ensures AllOn(Refilled(h, s, b, k).lists[b], s)
  {
    var list := Refilled(h, s, b, k).lists[b];
    forall i | 0 <= i < |list| ensures PageOf(list[i]) == s {
      CarveLists(AddSlab(h, s, b), s, b, k, list[i]);
      var j: nat :| 0 < j <= k && list[i] == s + Span(j, Size(b));
      if j < k { SpanGrows(j, k, Size(b)); }
      SplitIs(s, Span(j, Size(b)));
    }
  }

  /** The first block of a list that a new page alone makes up holds what the page brought. */
  lemma {:induction false} CarvedBlock(h: Heap, b: nat, page: Grant)
    requires Inv(h) && b < BUCKETS && h.lists[b] != [] && Carved(h.mem, page, Size(b)) && page.at % PAGE == 0
    ensures AllOn(h.lists[b], page.at) ==> AsBrought(h.mem, page, h.lists[b][0], Size(b), page.at + PAGE)
  {
    var x := h.lists[b][0];
    assert NodeAt(h, b, 0);
    SmallWithin(h, b, x);
    GridAligned(b, x);
    PageSplit(x);
    assert HeaderAt(h, PageOf(x));
    forall a: nat | AllOn(h.lists[b], page.at) && x < a < x + Size(b) ensures Get(h.mem, a) == Get(page.words, a) {
      InsideBlock(b, x, a);
    }
  }

  lemma {:induction false} AtLeastOne(b: nat, k: nat)
    requires b < BUCKETS && !Fitting(b, k + 1)
    ensures k > 0
  {
    assert Span(1, Size(b)) == Size(b) + Span(0, Size(b));
  }

  lemma {:induction false} HeadIsFirst(h: Heap, b: nat)
    requires Inv(h) && b < BUCKETS
    ensures h.heads[b] == First(h.lists[b]) && (h.heads[b] == 0 <==> h.lists[b] == [])
  {
    assert ListAt(h, b) && NodeAt(h, b, 0);
    if h.lists[b] != [] { SmallWithin(h, b, h.lists[b][0]); }
  }

  /** The words of a block read the same. */
  ghost predicate BlockSame(h: Heap, m: Memory, q: nat) {
    q in h.live ==> forall a: nat :: q <= a < q + Room(h.live[q]) ==> Get(m, a) == Get(h.mem, a)
  }

  lemma {:induction false} LiveMagic(h: Heap, p: nat)
    requires Inv(h) && p in h.live
    ensures Magic(Get(h.mem, PageOf(p))) == if h.live[p].Small? then SLAB_MAGIC else BIG_MAGIC
    ensures h.live[p].Small? ==> h.live[p].b < BUCKETS
    ensures h.live[p].Big? ==> p >= 8
  {
    assert LiveAt(h, p) && HeaderAt(h, PageOf(p));
    if h.live[p].Small? {
      HeadersRead(h.live[p].b, 0);
    } else {
      assert HeaderAt(h, p - 8);
      SplitIs(p - 8, 8);
      HeadersRead(0, h.bigs[p - 8]);
    }
  }

  lemma {:induction false} WritesKept(h: Heap, m: Memory)
    requires Kept(h)
    ensures Kept(h.(mem := m))
  {
    forall a: nat ensures KeptAt(h.(mem := m), a) { assert KeptAt(h, a); }
  }

  lemma {:induction false} OthersKept(h: Heap, p: nat, m: Memory)
    requires Inv(h) && p in h.live && SameOutside(h.mem, m, p, p + Room(h.live[p]))
    ensures forall q: nat :: q in h.live && q != p ==> BlockSame(h, m, q)
  {
    forall q: nat | q in h.live && q != p ensures BlockSame(h, m, q) { LiveApart(h, p, q); }
  }

  lemma {:induction false} BigOthersKept(h: Heap, p: nat, m: Memory)
    requires Inv(h) && p in h.live && h.live[p].Big? && p >= 8
    requires SameOutside(h.mem, m, p - 8, p - 8 + h.live[p].pages * PAGE)
    ensures forall q: nat :: q in h.live && q != p ==> BlockSame(h, m, q)
  {
    assert LiveAt(h, p);
    forall q: nat | q in h.live && q != p ensures BlockSame(h, m, q) {
      LiveWithin(h, q);
      assert LiveAt(h, q) && HeaderAt(h, p - 8);
      assert PagesApart(h, p - 8, Home(h, q)) && PagesApart(h, Home(h, q), p - 8);
    }
  }
}
