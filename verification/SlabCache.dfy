/**
 The object cache: single pages carved into objects of one size, allocation from the
 first page with a free object, and freeing by the page that holds the object.
 */
module SlabCache {
  import opened Arith
  import H = HeapSpec
  import HeapSteps
  import opened Options
  import opened SlabSpec

  /** The size of an object as the source computes it: cut to 32 bits, aligned, cut again, and at least a pointer. */
  function Rounded(objSize: nat, want: nat): nat
    requires want > 0
  {
    var n := AlignUp(objSize % W32, want) % W32;
    if n < 8 then 8 else n
  }

  /**
   The geometry of a cache, or none where the source panics. Sizes pass through 32-bit
   casts: the objects have the size asked for exactly when that fits a page.
   */
  method Configure(objSize: nat, align: nat) returns (r: Option<Geometry>)
    ensures r.Some? <==> objSize > 0 && IsPow2(Wanted(align)) && AlignUp(HEADER, Wanted(align)) + Rounded(objSize, Wanted(align)) <= H.PAGE
    ensures r.Some? ==> r.value == Geometry(Rounded(objSize, Wanted(align)), Wanted(align))
    ensures r.Some? && objSize <= H.PAGE ==> Proper(r.value) && objSize <= r.value.size && align % W32 <= r.value.align
    ensures r.Some? ==> (objSize <= r.value.size <==> objSize <= H.PAGE)
  {
    if objSize == 0 { return None; }
    var want := Wanted(align);
    if !IsPow2(want) { return None; }
    AlignUpBounds(objSize % W32, want);
    AlignUpBounds(HEADER, want);
    var sz := Rounded(objSize, want);
    if AlignUp(HEADER, want) + sz > H.PAGE { return None; }
    if objSize <= H.PAGE { SmallIsExact(objSize, want); }
    return Some(Geometry(sz, want));
  }

  /** A size past a page is accepted exactly when what the casts leave of it fits behind the header. */
  lemma {:induction false} PastPageIff(objSize: nat)
    requires objSize > H.PAGE
    ensures AlignUp(HEADER, 8) + Rounded(objSize, 8) <= H.PAGE <==> objSize % W32 <= H.PAGE - HEADER || objSize % W32 > W32 - 8
  {
    var n := objSize % W32;
    AlignUpBounds(n, 8);
    var r := AlignUp(n, 8);
    if n > W32 - 8 { DivUnique(n + 7, 8, W32 / 8, n + 7 - W32); }
  }

  /** Such a size: 2^32 + 8 bytes are taken for 8. */
  method PastPageExample() returns (r: Option<Geometry>)
    ensures r == Some(Geometry(8, 8))
  {
    assert IsPow2(Wanted(8)) by { assert IsPow2(2) && IsPow2(4) && IsPow2(8); }
    r := Configure(W32 + 8, 8);
  }

  /** The alignment used: at least a pointer. */
  function Wanted(align: nat): (r: nat)
    ensures 8 <= r < W32
  {
    if align % W32 < 8 then 8 else align % W32
  }

  /** A size within a page is not cut by the casts, unless aligning it leaves the page anyway. */
  lemma {:induction false} SmallIsExact(objSize: nat, want: nat)
    requires 0 < objSize <= H.PAGE && 8 <= want < W32 && IsPow2(want)
    ensures objSize % W32 == objSize && 8 <= AlignUp(objSize, want)
    ensures AlignUp(objSize, want) % W32 == AlignUp(objSize, want)
  {
    AlignUpBounds(objSize, want);
    AtLeastOnce(AlignUp(objSize, want), want);
    if want > H.PAGE {
      DivUnique(objSize + (want - 1), want, 1, objSize - 1);
    }
  }

  lemma {:induction false} AtLeastOnce(x: nat, n: nat)
    requires n > 0 && x > 0 && x % n == 0
    ensures n <= x
  {
    var k := x / n;
    assert x == k * n;
    MulAtLeast(k, n);
  }

  datatype Freed = Done | Nothing | Foreign | Underflow

  class ObjectCache {
    const g: Geometry
    var mem: H.Memory
    var pages: seq<nat>
    var heads: map<nat, nat>
    var counts: map<nat, nat>
    var inuse: map<nat, nat>
    var total: nat
    ghost var lists: map<nat, seq<nat>>
    ghost var live: set<nat>

    ghost function Abs(): Cache
      reads this
    {
      Cache(g, mem, pages, heads, counts, inuse, total, lists, live)
    }

    ghost predicate Valid()
      reads this
    {
      Inv(Abs())
    }

    constructor (g: Geometry)
      requires Proper(g)
      ensures Valid() && this.g == g && live == {} && pages == []
    {
      this.g := g;
      mem, pages, heads, counts, inuse, total := map[], [], map[], map[], map[], 0;
      lists, live := map[], {};
    }

    /** Carves a page: all the objects that fit, at least one. */
    method BuildFreelist(s: nat) returns (m: H.Memory, head: nat, k: nat)
      requires Proper(g) && s % H.PAGE == 0
      ensures Threaded(m, Carved(s, g, k)) && head == H.First(Carved(s, g, k)) && H.SameOutside(mem, m, s, s + H.PAGE)
      ensures k > 0 && Front(g) + Span(k, g.size) <= H.PAGE < Front(g) + Span(k + 1, g.size)
    {
      FrontIs(g, s);
      var cursor, end := AlignUp(s + HEADER, g.align), s + H.PAGE;
      m, head, k := mem, 0, 0;
      while cursor + g.size <= end
        invariant cursor == s + Front(g) + Span(k, g.size) && Front(g) + Span(k, g.size) <= H.PAGE
        invariant Threaded(m, Carved(s, g, k)) && head == H.First(Carved(s, g, k)) && H.SameOutside(mem, m, s, end)
        decreases end - cursor
      {
        CarveLinks(m, s, g, k);
        m := m[cursor := head];
        head := cursor;
        cursor := cursor + g.size;
        k := k + 1;
      }
    }

    /** The first page with a free object. */
    method FindPage() returns (i: nat)
      requires Valid()
      ensures i <= |pages| && (i < |pages| ==> List(Abs(), pages[i]) != [])
      ensures forall j :: 0 <= j < i ==> List(Abs(), pages[j]) == []
    {
      i := 0;
      while i < |pages|
        invariant i <= |pages|
        invariant forall j :: 0 <= j < i ==> List(Abs(), pages[j]) == []
      {
        HeadTells(Abs(), pages[i]);
        if Look(heads, pages[i]) != 0 { return; }
        i := i + 1;
      }
    }

    method TakeFrom(s: nat) returns (x: nat)
      requires Valid() && s in pages && List(Abs(), s) != []
      modifies this
      ensures Valid() && pages == old(pages) && mem == old(mem)
      ensures x != 0 && x !in old(live) && live == old(live) + {x} && total == old(total) + 1
      ensures ObjectAt(g, s, x) && x % g.align == 0
    {
      ghost var c := Abs();
      assert PageAt(c, s);
      TakeKeeps(c, s);
      x := Look(heads, s);
      ObjectAligned(g, s, x);
      heads := heads[s := H.Get(mem, x)];
      lists := lists[s := List(c, s)[1..]];
      inuse := inuse[s := Look(inuse, s) + 1];
      total := total + 1;
      live := live + {x};
      assert Abs() == Take(c, s);
    }

    method AddSlabPage(s: nat)
      requires Valid() && s % H.PAGE == 0 && 0 < s && s !in pages
      modifies this
      ensures Valid() && live == old(live) && total == old(total) && pages == [s] + old(pages)
      ensures List(Abs(), s) != [] && H.SameOutside(old(mem), mem, s, s + H.PAGE)
    {
      ghost var c := Abs();
      var m, head, k := BuildFreelist(s);
      AddPageKeeps(c, s, m, k);
      mem, pages := m, [s] + pages;
      heads, counts, inuse := heads[s := head], counts[s := k], inuse[s := 0];
      lists := lists[s := Carved(s, g, k)];
      assert Abs() == AddPage(c, s, m, k);
    }

    /** An aligned object that was not in use, or 0 when every page is full and there is no new one. */
    method Alloc(grant: Option<nat>) returns (x: nat)
      requires Valid() && (grant.Some? ==> grant.value % H.PAGE == 0 && 0 < grant.value && grant.value !in pages)
      modifies this
      ensures Valid()
      ensures x == 0 <==> grant.None? && forall j :: 0 <= j < |old(pages)| ==> List(old(Abs()), old(pages)[j]) == []
      ensures x == 0 ==> Abs() == old(Abs())
      ensures x != 0 ==> x !in old(live) && live == old(live) + {x} && total == old(total) + 1
      ensures x != 0 ==> x % g.align == 0 && H.PageOf(x) in pages && ObjectAt(g, H.PageOf(x), x)
      ensures forall q :: q in old(live) ==> SameObject(old(mem), mem, q, g.size)
    {
      var i := FindPage();
      var s: nat;
      ghost var c := Abs();
      if i < |pages| {
        s := pages[i];
      } else {
        if grant.None? { return 0; }
        s := grant.value;
        AddSlabPage(s);
        PageApart(c, s, mem);
      }
      assert PageAt(Abs(), s);
      x := TakeFrom(s);
      ObjectPage(g, s, x);
    }

    /** A word written by the owner of an object, inside the object. */
    method Store(ghost p: nat, a: nat, v: nat)
      requires Valid() && p in live && p <= a < p + g.size && a % 8 == 0
      modifies this`mem
      ensures Valid() && mem == old(mem)[a := v]
      ensures forall q :: q in live && q != p ==> SameObject(old(mem), mem, q, g.size)
    {
      ghost var c := Abs();
      WriteKeeps(c, p, mem[a := v]);
      OthersSame(c, p, mem[a := v]);
      mem := mem[a := v];
      assert Abs() == c.(mem := mem);
    }

    /** Whether a page is one of the cache's. */
    method Owns(s: nat) returns (found: bool)
      ensures found <==> s in pages
    {
      var i := 0;
      found := false;
      while i < |pages| && !found
        invariant i <= |pages| && (found <==> s in pages[..i])
      {
        assert pages[..i + 1] == pages[..i] + [pages[i]];
        found := pages[i] == s;
        i := i + 1;
      }
      assert !found ==> pages[..i] == pages;
    }

    /** Takes an object in use back; neither panic is reached. A pointer into another page is foreign. */
    method Free(p: nat) returns (r: Freed)
      requires Valid() && (p == 0 || p in live || H.PageOf(p) !in pages)
      modifies this
      ensures Valid()
      ensures p != 0 && p in old(live) ==> r == Done && live == old(live) - {p} && total + 1 == old(total)
      ensures p == 0 || p !in old(live) ==> Abs() == old(Abs()) && r == if p == 0 then Nothing else Foreign
      ensures forall q :: q in live ==> SameObject(old(mem), mem, q, g.size)
    {
      if p == 0 { return Nothing; }
      var s := H.PageOf(p);
      var found := Owns(s);
      if !found {
        LiveHasPage(Abs(), p);
        return Foreign;
      }
      ghost var c := Abs();
      LiveIsCounted(c, p);
      if Look(inuse, s) == 0 || total == 0 { return Underflow; }
      var m := HeapSteps.Poisoned(mem, p, g.size / 8);
      HeapSteps.PoisonedReads(mem, p, g.size / 8);
      GiveKeeps(c, p, m);
      OthersSame(c, p, m[p := Look(heads, s)]);
      mem := m[p := Look(heads, s)];
      heads := heads[s := p];
      lists := lists[s := [p] + List(c, s)];
      inuse := inuse[s := Look(inuse, s) - 1];
      total := total - 1;
      live := live - {p};
      assert Abs() == Give(c, p, m);
      return Done;
    }
  }

  lemma {:induction false} FrontIs(g: Geometry, s: nat)
    requires Proper(g) && s % H.PAGE == 0
    ensures AlignUp(s + HEADER, g.align) == s + Front(g)
  {
    AlignDividesPage(g);
    MultipleOfMultiple(s, H.PAGE, g.align);
    AlignUpFrom(s, HEADER, g.align);
  }

  lemma {:induction false} HeadTells(c: Cache, s: nat)
    requires Inv(c) && s in c.pages
    ensures Look(c.heads, s) != 0 <==> List(c, s) != []
  {
    assert PageAt(c, s) && NodeAt(c, s, 0);
    if List(c, s) != [] { ObjectPage(c.g, s, List(c, s)[0]); }
  }

  lemma {:induction false} LiveHasPage(c: Cache, p: nat)
    requires Inv(c)
    ensures p in c.live ==> H.PageOf(p) in c.pages
  {
    assert LiveAt(c, p);
  }

  ghost predicate SameObject(m: H.Memory, m': H.Memory, x: nat, n: nat) {
    forall a: nat :: x <= a < x + n ==> H.Get(m', a) == H.Get(m, a)
  }

  lemma {:induction false} PageApart(c: Cache, s: nat, m: H.Memory)
    requires Inv(c) && s % H.PAGE == 0 && s !in c.pages && H.SameOutside(c.mem, m, s, s + H.PAGE)
    ensures forall q :: q in c.live ==> SameObject(c.mem, m, q, c.g.size)
  {
    forall q | q in c.live ensures SameObject(c.mem, m, q, c.g.size) {
      assert LiveAt(c, q) && PageAt(c, H.PageOf(q));
      ObjectPage(c.g, H.PageOf(q), q);
      if s < H.PageOf(q) { StrideApart(H.PAGE, s, H.PageOf(q)); } else { StrideApart(H.PAGE, H.PageOf(q), s); }
    }
  }

  lemma {:induction false} OthersSame(c: Cache, p: nat, m: H.Memory)
    requires Inv(c) && p in c.live && H.SameOutside(c.mem, m, p, p + c.g.size)
    ensures forall q :: q in c.live && q != p ==> SameObject(c.mem, m, q, c.g.size)
  {
    forall q | q in c.live && q != p ensures SameObject(c.mem, m, q, c.g.size) {
      assert LiveAt(c, p) && LiveAt(c, q) && PageAt(c, H.PageOf(p)) && PageAt(c, H.PageOf(q));
      if p < q { ObjectsApart(c.g, H.PageOf(p), p, H.PageOf(q), q); } else { ObjectsApart(c.g, H.PageOf(q), q, H.PageOf(p), p); }
    }
  }
}
