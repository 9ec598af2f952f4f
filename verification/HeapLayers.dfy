/**
 The allocators stacked on the kernel heap: the accounting header of `cka_kmalloc`, the
 aligned blocks of `cka_malloc`, and the runtime's `posix_memalign`, `malloc` and `free`.
 Each finds its way back to the kernel block through words it left before its pointer.
 */
module HeapLayers {
  import opened Arith
  import opened HeapSpec
  import HeapSteps
  import opened KernelHeap
  import opened Options

  const CORE_MAGIC: nat := 0x4341_5041_5A4D_454D
  const SHIM_MAGIC: nat := 0x4341_505A_414C_474E
  const MAX_ALIGN: nat := 16

  /** The largest kernel request that gets the room it asks for. */
  const LIMIT: nat := W32 * PAGE - PAGE - 8

  // ----------------------------------------------------------------- alignment

  /** The first power of two from `p` on that is at least `x`. */
  function NextPow2(x: nat, p: nat): nat
    requires p > 0
    decreases x - p
  {
    if p >= x then p else NextPow2(x, p * 2)
  }

  /** The alignment that `cka_malloc` uses: at least a pointer, and a power of two. */
  function Effective(alignment: nat): nat { NextPow2(if alignment < 8 then 8 else alignment, 1) }

  lemma {:induction false} NextPow2Is(x: nat, p: nat)
    requires IsPow2(p) && p > 0 && (p == 1 || p / 2 < x)
    ensures var r := NextPow2(x, p); IsPow2(r) && x <= r && (r == 1 || r / 2 < x)
    decreases x - p
  {
    if p < x { NextPow2Is(x, p * 2); }
  }

  /** The smallest power of two that is at least the alignment asked for and a pointer's size. */
  lemma {:induction false} EffectiveIs(alignment: nat)
    ensures IsPow2(Effective(alignment)) && alignment <= Effective(alignment) && 8 <= Effective(alignment)
    ensures Effective(alignment) / 2 < alignment || Effective(alignment) == 8
  {
    NextPow2Is(if alignment < 8 then 8 else alignment, 1);
    if alignment < 8 { EffectiveEight(); }
  }

  lemma {:induction false} EffectiveMax()
    ensures Effective(MAX_ALIGN) == MAX_ALIGN
  {
    assert NextPow2(16, 1) == NextPow2(16, 2) == NextPow2(16, 4) == NextPow2(16, 8) == NextPow2(16, 16);
  }

  lemma {:induction false} EffectiveEight()
    ensures NextPow2(8, 1) == 8
  {
    assert NextPow2(8, 1) == NextPow2(8, 2) == NextPow2(8, 4) == NextPow2(8, 8);
  }

  method RoundUpPow2(x: nat) returns (p: nat)
    requires x <= W64 / 2
    ensures p == NextPow2(x, 1)
  {
    if x <= 1 { return 1; }
    p := 1;
    while p < x
      invariant p > 0 && NextPow2(x, p) == NextPow2(x, 1)
      decreases x - p
    {
      p := p * 2;
    }
  }

  // ------------------------------------------------------------------ the layers

  /**
   How a client came by its address: from `cka_kmalloc`, from `cka_malloc` (with whether the word two
   before the address differs from the mark of `posix_memalign`), or from `posix_memalign`.
   */
  datatype Kind = Core | Direct(clear: bool) | Aligned

  /** What a client address stands for: its kernel block, the address from `cka_malloc`, and what was charged. */
  datatype User = User(block: nat, inner: nat, size: nat, charge: nat, kind: Kind)

  /** The words that lead from a client address back to the kernel block. */
  ghost predicate Holds(m: Memory, p: nat, u: User) {
    && Get(m, u.block) == CORE_MAGIC && Get(m, u.block + 8) == u.charge && u.block + 16 <= p && p % 8 == 0
    && match u.kind
       case Core => p == u.block + 16
       case Direct(clear) => NamesBlock(m, u) && p == u.inner && (clear <==> Get(m, p - 16) != SHIM_MAGIC)
       case Aligned => NamesBlock(m, u) && u.inner + 16 <= p && Get(m, p - 16) == SHIM_MAGIC && Get(m, p - 8) == u.inner
  }

  ghost predicate NamesBlock(m: Memory, u: User) {
    u.block + 24 <= u.inner && Get(m, u.inner - 8) == u.block + 16
  }

  ghost predicate UserAt(h: Heap, users: map<nat, User>, p: nat) {
    p in users ==>
      && users[p].block in h.live && Holds(h.mem, p, users[p])
      && p + users[p].size <= users[p].block + Room(h.live[users[p].block])
  }

  ghost predicate OwnersApart(users: map<nat, User>, p: nat, q: nat) {
    p in users && q in users && p != q ==> users[p].block != users[q].block
  }

  ghost predicate Sound(h: Heap, users: map<nat, User>) {
    && (forall p: nat :: UserAt(h, users, p))
    && forall p: nat, q: nat :: OwnersApart(users, p, q)
  }

  ghost predicate Unowned(users: map<nat, User>, k: nat) {
    forall p: nat :: p in users ==> users[p].block != k
  }

  /** What two clients may write never overlaps, nor does either reach the other's way back. */
  lemma {:induction false} ClientsApart(h: Heap, users: map<nat, User>, p: nat, q: nat)
    requires Inv(h) && Sound(h, users) && p in users && q in users && p != q
    ensures p + users[p].size <= users[q].block || q + users[q].size <= users[p].block
  {
    assert UserAt(h, users, p) && UserAt(h, users, q) && OwnersApart(users, p, q);
    LiveApart(h, users[p].block, users[q].block);
  }

  /** A client's block that reads the same keeps its way back. */
  ghost predicate Untouched(h: Heap, h': Heap, k: nat) {
    k in h.live ==> k in h'.live && h'.live[k] == h.live[k] && BlockSame(h, h'.mem, k)
  }

  lemma {:induction false} HoldsKept(h: Heap, h': Heap, users: map<nat, User>, p: nat)
    requires Inv(h) && p in users && UserAt(h, users, p) && Untouched(h, h', users[p].block)
    ensures UserAt(h', users, p)
  {
    LiveAligned(h, users[p].block);
    var u := users[p];
    assert Get(h'.mem, u.block) == Get(h.mem, u.block) && Get(h'.mem, u.block + 8) == Get(h.mem, u.block + 8);
    if !u.kind.Core? {
      assert Get(h'.mem, u.inner - 8) == Get(h.mem, u.inner - 8);
      assert Get(h'.mem, p - 8) == Get(h.mem, p - 8) && Get(h'.mem, p - 16) == Get(h.mem, p - 16);
    }
  }

  lemma {:induction false} SoundKept(h: Heap, h': Heap, users: map<nat, User>, users': map<nat, User>)
    requires Inv(h) && Sound(h, users)
    requires forall p: nat :: p in users' ==> p in users && users'[p] == users[p] && Untouched(h, h', users[p].block)
    ensures Sound(h', users')
  {
    forall p: nat ensures UserAt(h', users', p) {
      assert UserAt(h, users, p);
      if p in users' { HoldsKept(h, h', users, p); }
    }
    forall p: nat, q: nat ensures OwnersApart(users', p, q) { assert OwnersApart(users, p, q); }
  }

  /** Whatever a client writes in its own bytes, every way back stays. */
  lemma {:induction false} ClientWrites(h: Heap, h': Heap, users: map<nat, User>, p: nat)
    requires Inv(h) && Sound(h, users) && p in users
    requires h' == h.(mem := h'.mem) && SameOutside(h.mem, h'.mem, p, p + users[p].size)
    ensures Sound(h', users)
  {
    assert UserAt(h, users, p);
    forall q: nat ensures UserAt(h', users, q) {
      assert UserAt(h, users, q) && OwnersApart(users, p, q);
      if q in users && q != p {
        LiveApart(h, users[p].block, users[q].block);
        HoldsKept(h, h', users, q);
      }
    }
  }

  lemma {:induction false} Replaced(users: map<nat, User>, p: nat, u: User, q: nat, v: User)
    requires p !in users
    ensures (users[p := u] - {p})[q := v] == users[q := v]
  {
  }

  lemma {:induction false} AddUser(h: Heap, users: map<nat, User>, p: nat, u: User)
    requires Inv(h) && Sound(h, users) && Unowned(users, u.block) && p !in users
    requires UserAt(h, map[p := u], p)
    ensures Sound(h, users[p := u])
  {
    var users' := users[p := u];
    forall q: nat ensures UserAt(h, users', q) { assert UserAt(h, users, q); }
    forall q: nat, r: nat ensures OwnersApart(users', q, r) { assert OwnersApart(users, q, r); }
  }

  /** A pointer into a block that no client owns is no client's. */
  lemma {:induction false} NewPointer(h: Heap, users: map<nat, User>, k: nat, p: nat)
    requires Inv(h) && Sound(h, users) && Unowned(users, k) && k in h.live && k < p <= k + Room(h.live[k])
    ensures p !in users
  {
    assert UserAt(h, users, p);
    if p in users { LiveApart(h, users[p].block, k); }
  }

  // ------------------------------------------------------------------ way back

  /** The address that `free` hands to `cka_kfree`. */
  function Recovered(m: Memory, p: nat): nat {
    if p >= 16 && Get(m, p - 16) == SHIM_MAGIC && Get(m, p - 8) != 0
    then if Get(m, p - 8) >= 8 then Get(m, Get(m, p - 8) - 8) else 0
    else if p >= 8 then Get(m, p - 8) else 0
  }

  /** Which clients `free` serves, told from what is known at the allocation. */
  predicate Freeable(u: User) {
    match u.kind
    case Core => u.charge == u.block + 16
    case Direct(clear) => clear || u.charge == u.block + 16
    case Aligned => true
  }

  /**
   `free` finds the kernel block of a client exactly in these cases: always from `posix_memalign`; from
   `cka_malloc` when the word two before the address is not the mark (or the charged size names the block).
   */
  lemma {:induction false} RecoveredIff(h: Heap, users: map<nat, User>, p: nat)
    requires Inv(h) && p in users && UserAt(h, users, p)
    ensures p >= 32 && (Recovered(h.mem, p) == users[p].block + 16 <==> Freeable(users[p]))
  {
    LiveAligned(h, users[p].block);
  }

  // -------------------------------------------------------------------- requests

  /** The request that `cka_malloc` passes on, and the one `cka_kmalloc` passes to the heap. */
  function InnerRequest(size: nat, alignment: nat): nat
    requires alignment > 0
  {
    (size + (alignment - 1) + 8) % W64
  }

  function KernelRequest(size: nat): nat { (size + 16) % W64 }

  /** The kernel request behind a call of `cka_malloc`. */
  function Request(size: nat, alignment: nat): nat {
    var n := Effective(alignment);
    if n == 0 then 0 else KernelRequest(InnerRequest(size, n))
  }

  /** Neither sum wraps, and the kernel request gets its room. */
  predicate Sane(size: nat, alignment: nat)
    requires alignment > 0
  {
    size + (alignment - 1) + 8 + 16 <= LIMIT
  }

  /** Below the limit and only there the block holds both headers and the client's bytes. */
  lemma {:induction false} SaneIff(size: nat, alignment: nat)
    requires 0 < alignment && size < W64 && alignment < W64
    requires KernelRequest(InnerRequest(size, alignment)) > 0
    ensures Sane(size, alignment) <==>
      size + (alignment - 1) + 8 + 16 <= Room(KindFor(KernelRequest(InnerRequest(size, alignment))))
  {
    var n := KernelRequest(InnerRequest(size, alignment));
    RoomIff(n);
    RoomBound(n);
  }

  lemma {:induction false} RoomBound(size: nat)
    requires 0 < size < W64
    ensures Room(KindFor(size)) <= LIMIT
  {
    BucketHolds(size, 0);
    if size > 2048 { assert Pages(size) <= W32 - 1; }
  }

  lemma {:induction false} SaneHasRoom(size: nat, alignment: nat)
    requires alignment > 0 && Sane(size, alignment)
    ensures size + (alignment - 1) + 24 <= Room(KindFor(KernelRequest(InnerRequest(size, alignment))))
  {
    var n := size + (alignment - 1) + 24;
    assert n < W64 && KernelRequest(InnerRequest(size, alignment)) == n;
    RoomIff(n);
  }

  /** The bytes a client of `cka_kmalloc` may use. */
  function Usable(size: nat): nat {
    var room := Room(KindFor(KernelRequest(size)));
    if size + 16 <= room then size else if room <= 16 then 0 else room - 16
  }

  lemma {:induction false} UsableFits(size: nat)
    requires 0 < KernelRequest(size)
    ensures 16 + Usable(size) <= Room(KindFor(KernelRequest(size))) || Room(KindFor(KernelRequest(size))) < 16
  {
  }

  /** They are those asked for exactly when the request neither wraps nor passes the heap's limit. */
  lemma {:induction false} UsableIff(size: nat)
    requires size < W64 && KernelRequest(size) > 0
    ensures Usable(size) == size <==> size + 16 <= LIMIT
  {
    RoomIff(KernelRequest(size));
    RoomBound(KernelRequest(size));
  }

  lemma {:induction false} SaneRequest(size: nat, alignment: nat)
    requires alignment > 0 && Sane(size, alignment)
    ensures var inner := InnerRequest(size, alignment);
      && inner == size + (alignment - 1) + 8 && inner < SHIM_MAGIC && Usable(inner) == inner && KernelRequest(inner) > 0
  {
    UsableIff(size + (alignment - 1) + 8);
  }

  /** Neither a free block of the size nor pages for one. */
  ghost predicate NoBlock(h: Heap, size: nat, grant: Option<Grant>) {
    grant.None? &&
    match KindFor(size)
    case Small(b) => b < |h.lists| && h.lists[b] == []
    case Big(_) => true
  }

  function Offered(grant: Option<Grant>): set<nat> { if grant.Some? then Values(grant.value.words) else {} }

  /** What an accounted block holds when it is handed out: words known before, or those of its new pages. */
  ghost predicate Filled(h: Heap, m: Memory, known: set<nat>, raw: nat, size: nat, grant: Option<Grant>) {
    forall a: nat :: FilledAt(h, m, known, raw, size, grant, a)
  }

  ghost predicate Granted(grant: Option<Grant>, size: nat, a: nat) {
    grant.Some? && grant.value.at <= a < grant.value.at + Asked(size) * PAGE
  }

  ghost predicate FilledAt(h: Heap, m: Memory, known: set<nat>, raw: nat, size: nat, grant: Option<Grant>, a: nat) {
    raw <= a && a + 16 < raw + Room(KindFor(size)) && a % 8 == 0 ==>
      Get(m, a) in known && (Takes(h, size, grant) ==> Get(m, a) == Get(grant.value.words, a) && Granted(grant, size, a))
  }

  lemma {:induction false} FilledAfter(h: Heap, m: Memory, m': Memory, known: set<nat>, k: nat, size: nat, grant: Option<Grant>)
    requires HeapSteps.Holds(m, known, k, Room(KindFor(size)))
    requires Takes(h, size, grant) ==>
      AsBrought(m, grant.value, k, Room(KindFor(size)), grant.value.at + Asked(size) * PAGE)
    requires forall a: nat :: a >= k + 16 ==> Get(m', a) == Get(m, a)
    ensures Filled(h, m', known, k + 16, size, grant)
  {
    var raw := k + 16;
    forall a: nat ensures FilledAt(h, m', known, raw, size, grant, a) {
      if raw <= a < k + Room(KindFor(size)) { assert Get(m', a) == Get(m, a); }
    }
  }

  function Labelled(u: User, m: Memory, p: nat, size: nat): User {
    u.(inner := p, size := size, kind := Direct(p < 16 || Get(m, p - 16) != SHIM_MAGIC))
  }

  lemma {:induction false} MultipleOfEight(p: nat, n: nat)
    requires n > 0 && IsPow2(n) && n >= 8 && p % n == 0
    ensures p % 8 == 0
  {
    EightIsPow2();
    Pow2Divides(8, n);
    var k, j := p / n, n / 8;
    assert p == k * n && n == j * 8;
    assert p == (k * j) * 8;
    DivMulAdd(k * j, 8, 0);
  }

  lemma {:induction false} EightIsPow2()
    ensures IsPow2(8)
  {
    assert IsPow2(2) && IsPow2(4);
  }

  /** The aligned address and the client's bytes lie in what the accounted block has room for. */
  lemma {:induction false} PlaceFits(raw: nat, size: nat, alignment: nat)
    requires alignment >= 8 && IsPow2(alignment) && Sane(size, alignment)
    ensures var p, inner := AlignUp(raw + 8, alignment), InnerRequest(size, alignment);
      && p % alignment == 0 && p % 8 == 0 && raw + 8 <= p && p + size <= raw + inner
      && inner + 16 <= Room(KindFor(KernelRequest(inner)))
  {
    var p := AlignUp(raw + 8, alignment);
    AlignUpBounds(raw + 8, alignment);
    MultipleOfEight(p, alignment);
    SaneRequest(size, alignment);
    SaneHasRoom(size, alignment);
  }

  /** What a new client of `cka_malloc` finds two words before its address. */
  ghost predicate MarkKnown(h: Heap, m: Memory, known: set<nat>, u: User, p: nat, size: nat, grant: Option<Grant>) {
    && p >= 16 && u.kind == Direct(Get(m, p - 16) != SHIM_MAGIC)
    && (p == u.block + 24 || SHIM_MAGIC !in known ==> u.kind.clear)
    && (p > u.block + 24 && Takes(h, size, grant) ==>
          Granted(grant, size, p - 16) && (u.kind.clear <==> Get(grant.value.words, p - 16) != SHIM_MAGIC))
  }

  /** It is the charged size, or a word that the new block came with. */
  lemma {:induction false} MarkOrWord(h: Heap, m: Memory, known: set<nat>, u: User, p: nat, size: nat, request: nat,
                                      grant: Option<Grant>)
    requires p % 8 == 0 && u.block % 8 == 0 && u.block + 24 <= p && p + size <= u.block + Room(KindFor(request))
    requires Get(m, u.block + 8) == u.charge < SHIM_MAGIC
    requires Filled(h, m, known, u.block + 16, request, grant)
    ensures MarkKnown(h, m[p - 8 := u.block + 16], known, Labelled(u, m[p - 8 := u.block + 16], p, size), p, request, grant)
  {
    assert FilledAt(h, m, known, u.block + 16, request, grant, p - 16);
  }

  // ---------------------------------------------------------------- the runtime

  class Runtime {
    const heap: KHeap
    ghost var users: map<nat, User>

    ghost predicate Valid()
      reads this, heap
    {
      heap.Valid() && Sound(heap.Abs(), users)
    }

    constructor ()
      ensures Valid() && users == map[] && fresh(heap) && heap.live == map[] && heap.known == {0, POISON}
      ensures heap.slabs == map[] && heap.bigs == map[] && forall b :: 0 <= b < BUCKETS ==> heap.lists[b] == []
    {
      heap := new KHeap();
      users := map[];
    }

    /**
     A kernel block with the accounting header; `allowed` is the task's memory ceiling. The client
     has the bytes it asked for or, where the request wraps or is cut, those that the block holds.
     */
    method CoreKmalloc(size: nat, allowed: bool, grant: Option<Grant>) returns (raw: nat)
      requires Valid() && size < W64
      requires grant.Some? ==> Fresh(heap.Abs(), grant.value.at, Asked(KernelRequest(size)))
      modifies this`users, heap
      ensures Valid() && (raw != 0 ==> raw >= 32)
      ensures raw == 0 ==> users == old(users) && heap.live == old(heap.live)
      ensures raw == 0 <==> !allowed || KernelRequest(size) == 0 || NoBlock(old(heap.Abs()), KernelRequest(size), grant)
      ensures raw != 0 ==> raw !in old(users) && raw - 16 !in old(heap.live)
      ensures raw != 0 ==> heap.live == old(heap.live)[raw - 16 := KindFor(KernelRequest(size))]
      ensures raw != 0 ==> users == old(users)[raw := User(raw - 16, raw, Usable(size), size, Core)]
      ensures raw != 0 ==> Filled(old(heap.Abs()), heap.mem, heap.known, raw, KernelRequest(size), grant)
      ensures heap.known <= old(heap.known) + Offered(grant)
    {
      if !allowed { return 0; }
      ghost var h := heap.Abs();
      var k := heap.Kmalloc(KernelRequest(size), grant);
      SoundKept(h, heap.Abs(), users, users);
      if k == 0 { return 0; }
      assert Unowned(users, k) by { forall p: nat | p in users ensures users[p].block != k { assert UserAt(h, users, p); } }
      ghost var m := heap.mem;
      UsableFits(size);
      raw := WriteHeader(k, size, Usable(size));
      FilledAfter(h, m, heap.mem, heap.known, k, KernelRequest(size), grant);
    }

    /** The accounting header of a new block, and its client. */
    method WriteHeader(k: nat, size: nat, ghost usable: nat) returns (raw: nat)
      requires Valid() && k in heap.live && 16 + usable <= Room(heap.live[k]) && Unowned(users, k)
      modifies this`users, heap`mem
      ensures Valid() && raw == k + 16 >= 32 && raw !in old(users)
      ensures users == old(users)[raw := User(k, raw, usable, size, Core)]
      ensures forall a: nat :: a >= raw ==> Get(heap.mem, a) == Get(old(heap.mem), a)
    {
      LiveAligned(heap.Abs(), k);
      StoreWord(k, k, CORE_MAGIC);
      StoreWord(k, k + 8, size);
      raw := k + 16;
      Enter(raw, User(k, raw, usable, size, Core));
    }

    /** A word written in a block that no client owns. */
    method StoreWord(ghost k: nat, a: nat, v: nat)
      requires Valid() && k in heap.live && k <= a < k + Room(heap.live[k]) && a % 8 == 0 && Unowned(users, k)
      modifies heap`mem
      ensures Valid() && heap.mem == old(heap.mem)[a := v]
    {
      ghost var h := heap.Abs();
      heap.Store(k, a, v);
      forall p: nat | p in users ensures Untouched(h, heap.Abs(), users[p].block) { assert UserAt(h, users, p); }
      SoundKept(h, heap.Abs(), users, users);
    }

    ghost method Enter(p: nat, u: User)
      requires Valid() && Unowned(users, u.block) && UserAt(heap.Abs(), map[p := u], p)
      modifies this`users
      ensures Valid() && p !in old(users) && users == old(users)[p := u]
    {
      LiveAligned(heap.Abs(), u.block);
      NewPointer(heap.Abs(), users, u.block, p);
      AddUser(heap.Abs(), users, p, u);
      users := users[p := u];
    }

    ghost method ForgetUser(p: nat)
      requires Valid() && p in users
      modifies this`users
      ensures Valid() && users == old(users) - {p} && Unowned(users, old(users)[p].block)
    {
      ghost var rest := users - {p};
      forall q: nat | q in rest ensures rest[q].block != users[p].block && Untouched(heap.Abs(), heap.Abs(), rest[q].block) {
        assert OwnersApart(users, p, q);
      }
      SoundKept(heap.Abs(), heap.Abs(), users, rest);
      users := rest;
    }

    /** The next layer's address in place of the one below it. */
    ghost method Relabel(p: nat, q: nat, u: User)
      requires Valid() && p in users && u.block == users[p].block && UserAt(heap.Abs(), map[q := u], q)
      modifies this`users
      ensures Valid() && users == (old(users) - {p})[q := u] && (q != p ==> q !in old(users))
    {
      ForgetUser(p);
      Enter(q, u);
    }

    /** A word written by a client, in its own bytes. */
    method ClientStore(ghost p: nat, a: nat, v: nat)
      requires Valid() && p in users && p <= a < p + users[p].size && a % 8 == 0
      modifies heap`mem
      ensures Valid() && heap.mem == old(heap.mem)[a := v]
    {
      ghost var h := heap.Abs();
      assert UserAt(h, users, p);
      heap.Store(users[p].block, a, v);
      ClientWrites(h, heap.Abs(), users, p);
    }

    /**
     An aligned block; the word before it names the accounted block. The word before that one is
     not the mark if the pages that the heap was given never held it, or if it is the charged size.
     */
    method CkaMalloc(size: nat, alignment: nat, allowed: bool, grant: Option<Grant>) returns (p: nat)
      requires Valid() && alignment <= W64 / 2 && Effective(alignment) > 0 && Sane(size, Effective(alignment))
      requires grant.Some? ==> Fresh(heap.Abs(), grant.value.at, Asked(Request(size, alignment)))
      modifies this`users, heap
      ensures Valid()
      ensures p == 0 ==> users == old(users) && heap.live == old(heap.live)
      ensures p == 0 <==> !allowed || NoBlock(old(heap.Abs()), Request(size, alignment), grant)
      ensures p != 0 ==> p % Effective(alignment) == 0 && p !in old(users) && p in users && users == old(users)[p := users[p]]
      ensures p != 0 ==> users[p].size == size && users[p].charge == InnerRequest(size, Effective(alignment))
      ensures p != 0 ==> p == AlignUp(users[p].block + 24, Effective(alignment))
      ensures p != 0 ==> MarkKnown(old(heap.Abs()), heap.mem, heap.known, users[p], p, Request(size, alignment), grant)
      ensures p != 0 ==> users[p].block !in old(heap.live)
      ensures p != 0 ==> heap.live == old(heap.live)[users[p].block := KindFor(Request(size, alignment))]
      ensures heap.known <= old(heap.known) + Offered(grant)
    {
      var effective := RoundUpPow2(if alignment < 8 then 8 else alignment);
      EffectiveIs(alignment);
      SaneRequest(size, effective);
      p := PlacedBlock(size, effective, InnerRequest(size, effective), Request(size, alignment), allowed, grant);
    }

    /** An accounted block for `inner` bytes, with the client's `size` bytes aligned inside. */
    method PlacedBlock(size: nat, effective: nat, inner: nat, ghost request: nat, allowed: bool, grant: Option<Grant>)
      returns (p: nat)
      requires Valid() && IsPow2(effective) && 8 <= effective && Sane(size, effective)
      requires inner == InnerRequest(size, effective) && request == KernelRequest(inner) > 0 && inner < W64
      requires grant.Some? ==> Fresh(heap.Abs(), grant.value.at, Asked(request))
      modifies this`users, heap
      ensures Valid()
      ensures p == 0 ==> users == old(users) && heap.live == old(heap.live)
      ensures p == 0 <==> !allowed || NoBlock(old(heap.Abs()), request, grant)
      ensures p != 0 ==> p % effective == 0 && p !in old(users) && p in users && users == old(users)[p := users[p]]
      ensures p != 0 ==> users[p].size == size && users[p].charge == inner && p == AlignUp(users[p].block + 24, effective)
      ensures p != 0 ==> MarkKnown(old(heap.Abs()), heap.mem, heap.known, users[p], p, request, grant)
      ensures p != 0 ==> users[p].block !in old(heap.live) && heap.live == old(heap.live)[users[p].block := KindFor(request)]
      ensures heap.known <= old(heap.known) + Offered(grant)
    {
      ghost var h, before := heap.Abs(), users;
      SaneRequest(size, effective);
      var raw := CoreKmalloc(inner, allowed, grant);
      if raw == 0 { return 0; }
      p := AlignUp(raw + 8, effective);
      PlaceFits(raw, size, effective);
      ghost var u := users[raw];
      PlaceBlock(h, raw, p, size, inner, request, grant);
      Replaced(before, raw, u, p, users[p]);
    }

    /** The word before the first aligned address behind the accounting header. */
    method PlaceBlock(ghost h: Heap, raw: nat, p: nat, ghost size: nat, ghost inner: nat, ghost request: nat,
                      ghost grant: Option<Grant>)
      requires Valid() && raw >= 32 && raw in users && users[raw] == User(raw - 16, raw, inner, inner, Core)
      requires raw + 8 <= p && p % 8 == 0 && p + size <= raw + inner && inner + 16 <= Room(KindFor(request))
      requires inner < SHIM_MAGIC && Filled(h, heap.mem, heap.known, raw, request, grant)
      modifies this`users, heap`mem
      ensures Valid() && p !in old(users) && p in users && users == (old(users) - {raw})[p := users[p]]
      ensures users[p].block == raw - 16 && users[p].size == size && users[p].charge == inner
      ensures MarkKnown(h, heap.mem, heap.known, users[p], p, request, grant)
    {
      assert UserAt(heap.Abs(), users, raw);
      LiveAligned(heap.Abs(), raw - 16);
      MarkOrWord(h, heap.mem, heap.known, users[raw], p, size, request, grant);
      LabelBlock(raw, p, size);
    }

    /** The word before the aligned address, and the client that has it. */
    method LabelBlock(raw: nat, p: nat, ghost size: nat)
      requires Valid() && raw in users && users[raw].kind.Core?
      requires raw + 8 <= p && p + size <= raw + users[raw].size && p % 8 == 0
      modifies this`users, heap`mem
      ensures Valid() && p !in old(users) && heap.mem == old(heap.mem)[p - 8 := raw]
      ensures users == (old(users) - {raw})[p := Labelled(old(users)[raw], heap.mem, p, size)]
    {
      assert UserAt(heap.Abs(), users, raw);
      ClientStore(raw, p - 8, raw);
      assert UserAt(heap.Abs(), users, raw);
      Relabel(raw, p, Labelled(users[raw], heap.mem, p, size));
    }

    /** The runtime's aligned allocation: an aligned address and the mark in front of it. */
    method PosixMemalign(alignment: nat, size: nat, allowed: bool, grant: Option<Grant>) returns (error: nat, p: nat)
      requires Valid() && (IsPow2(alignment) && alignment % 8 == 0 ==> Sane(size + alignment + 16, MAX_ALIGN))
      requires IsPow2(alignment) && alignment % 8 == 0 && grant.Some? ==>
        Fresh(heap.Abs(), grant.value.at, Asked(Request(size + alignment + 16, MAX_ALIGN)))
      modifies this`users, heap
      ensures Valid() && (error == 0 <==> p != 0) && (p == 0 ==> error == 22 || error == 12)
      ensures error == 22 <==> !(IsPow2(alignment) && alignment % 8 == 0)
      ensures p == 0 ==> users == old(users) && heap.live == old(heap.live)
      ensures p != 0 ==> p % alignment == 0 && p !in old(users) && p in users && users == old(users)[p := users[p]]
      ensures p != 0 ==> users[p].size == size && users[p].kind.Aligned?
      ensures p != 0 ==> users[p].block !in old(heap.live) && heap.live.Keys == old(heap.live).Keys + {users[p].block}
      ensures heap.known <= old(heap.known) + Offered(grant)
    {
      if !(IsPow2(alignment) && alignment % 8 == 0) { return 22, 0; }
      EffectiveMax();
      var base := CkaMalloc(size + alignment + 16, MAX_ALIGN, allowed, grant);
      if base == 0 { return 12, 0; }
      p := AlignUp(base + 16, alignment);
      AlignUpBounds(base + 16, alignment);
      MultipleOfEight(p, alignment);
      error := 0;
      ghost var u := users[base];
      MarkShim(base, p, size);
      Replaced(old(users), base, u, p, users[p]);
    }

    /** The client's block re-labelled: its bytes start at `p` now, behind the mark. */
    method MarkShim(base: nat, p: nat, ghost size: nat)
      requires Valid() && base in users && users[base].kind.Direct?
      requires base + 16 <= p && p + size <= base + users[base].size && p % 8 == 0
      modifies this`users, heap`mem
      ensures Valid() && p !in old(users)
      ensures users == (old(users) - {base})[p := old(users)[base].(inner := base, size := size, kind := Aligned)]
    {
      ClientStore(base, p - 16, SHIM_MAGIC);
      ClientStore(base, p - 8, base);
      assert UserAt(heap.Abs(), users, base);
      Relabel(base, p, users[base].(inner := base, size := size, kind := Aligned));
    }

    /**
     `cka_kfree`: a block with the accounting header, of client `p`, leaves the heap, and what was charged is
     refunded; a block of `kmalloc` without it goes back as it is. Other clients stay as they are.
     */
    method CoreKfree(raw: nat, ghost p: Option<nat>) returns (refund: nat, pages: Option<(nat, nat)>)
      requires Valid() && (raw == 0 ==> p.None?)
      requires p.Some? ==> p.value in users && raw == users[p.value].block + 16
      requires p.None? && raw != 0 ==> raw in heap.live && Unowned(users, raw)
      requires p.None? && raw >= 16 ==> Get(heap.mem, raw - 16) != CORE_MAGIC
      modifies this`users, heap
      ensures Valid() && heap.known == old(heap.known)
      ensures p.Some? ==> users == old(users) - {p.value} && refund == old(users)[p.value].charge
      ensures p.Some? ==> heap.live == old(heap.live) - {old(users)[p.value].block}
      ensures p.None? ==> users == old(users) && refund == 0
      ensures p.None? ==> heap.live == old(heap.live) - {raw}
    {
      if raw == 0 {
        assert 0 !in heap.live by { if 0 in heap.live { LiveAligned(heap.Abs(), 0); } }
        return 0, None;
      }
      ghost var k := if p.Some? then users[p.value].block else raw;
      if p.Some? { assert UserAt(heap.Abs(), users, p.value); }
      LiveAligned(heap.Abs(), k);
      if Get(heap.mem, raw - 16) == CORE_MAGIC {
        refund := Get(heap.mem, raw - 8);
        ForgetUser(p.value);
        StoreWord(k, raw - 16, 0);
        pages := FreeUnowned(raw - 16);
      } else {
        refund := 0;
        pages := FreeUnowned(raw);
      }
    }

    method FreeUnowned(k: nat) returns (pages: Option<(nat, nat)>)
      requires Valid() && k in heap.live && Unowned(users, k)
      modifies heap
      ensures Valid() && heap.live == old(heap.live) - {k} && heap.known == old(heap.known)
    {
      ghost var h := heap.Abs();
      LiveAligned(h, k);
      pages := heap.Kfree(k);
      forall q: nat | q in users ensures Untouched(h, heap.Abs(), users[q].block) { assert UserAt(h, users, q); }
      SoundKept(h, heap.Abs(), users, users);
    }

    /** `cka_free`: the word in front of the bytes holds the accounted block. */
    method CkaFree(q: nat, ghost p: nat) returns (refund: nat, pages: Option<(nat, nat)>)
      requires Valid() && (q != 0 ==> p in users && q >= 8 && Get(heap.mem, q - 8) == users[p].block + 16)
      modifies this`users, heap
      ensures Valid() && heap.known == old(heap.known)
      ensures q == 0 ==> users == old(users) && heap.live == old(heap.live) && refund == 0
      ensures q != 0 ==> users == old(users) - {p} && refund == old(users)[p].charge
      ensures q != 0 ==> heap.live == old(heap.live) - {old(users)[p].block}
    {
      if q == 0 { return 0, None; }
      var raw := Get(heap.mem, q - 8);
      refund, pages := CoreKfree(raw, Some(p));
    }

    /**
     The runtime's `free`: whatever clients wrote since, it finds the kernel block of `p`,
     gives back that one and no other, and refunds what the allocation charged.
     */
    method Free(p: nat) returns (refund: nat, pages: Option<(nat, nat)>)
      requires Valid() && (p != 0 ==> p in users && Freeable(users[p]))
      modifies this`users, heap
      ensures Valid() && heap.known == old(heap.known)
      ensures p == 0 ==> users == old(users) && heap.Abs() == old(heap.Abs()) && refund == 0
      ensures p != 0 ==> users == old(users) - {p} && refund == old(users)[p].charge
      ensures p != 0 ==> heap.live == old(heap.live) - {old(users)[p].block}
    {
      if p == 0 { return 0, None; }
      RecoveredIff(heap.Abs(), users, p);
      if Get(heap.mem, p - 16) == SHIM_MAGIC && Get(heap.mem, p - 8) != 0 {
        refund, pages := CkaFree(Get(heap.mem, p - 8), p);
      } else {
        refund, pages := CkaFree(p, p);
      }
    }
  }

  // -------------------------------------------------------------------- an example

  /** The request of the example: a block of 64 bytes, with the client's bytes from its 32nd on. */
  lemma {:induction false} ExampleRequest()
    ensures Effective(16) == 16 && Request(16, 16) == 55 && InnerRequest(16, 16) == 39 && Sane(16, 16)
    ensures KindFor(55) == Small(2) && Asked(55) == 1
  {
    EffectiveMax();
    assert BucketFrom(55, 0) == BucketFrom(55, 1) == BucketFrom(55, 2) == 2;
  }

  lemma {:induction false} ExampleAddress(k: nat)
    requires k % 64 == 0
    ensures AlignUp(k + 24, 16) == k + 32
  {
    var q := k / 64;
    DivUnique(k + 24 + 15, 16, 4 * q + 2, 7);
  }

  /** `n` words from `a` that are all the mark. */
  function Marked(a: nat, n: nat): Memory { if n == 0 then map[] else Marked(a, n - 1)[a + 8 * (n - 1) := SHIM_MAGIC] }

  lemma {:induction false} MarkedReads(a: nat, n: nat, k: nat)
    requires k < n
    ensures Get(Marked(a, n), a + 8 * k) == SHIM_MAGIC
    decreases n
  {
    if k < n - 1 { MarkedReads(a, n - 1, k); }
  }

  /**
   A first page that still holds the mark everywhere, and one call of `cka_malloc`: from the address it gives,
   `free` does not find the block.
   */
  method MarkedBlock() returns (r: Runtime, p: nat)
    ensures r.Valid() && p in r.users && r.users[p].kind == Direct(false)
    ensures !Freeable(r.users[p]) && Recovered(r.heap.mem, p) != r.users[p].block + 16
  {
    r := new Runtime();
    var words := Marked(PAGE, PAGE / 8);
    ExampleRequest();
    assert Fresh(r.heap.Abs(), PAGE, 1) by {
      forall t: nat ensures FreshFrom(r.heap.Abs(), PAGE, 1, t) { assert !Owned(r.heap.Abs(), t); }
    }
    p := r.CkaMalloc(16, 16, true, Some(Grant(PAGE, words)));
    LiveAligned(r.heap.Abs(), r.users[p].block);
    ExampleAddress(r.users[p].block);
    assert UserAt(r.heap.Abs(), r.users, p);
    MarkedReads(PAGE, PAGE / 8, (p - 16 - PAGE) / 8);
    RecoveredIff(r.heap.Abs(), r.users, p);
  }
}
