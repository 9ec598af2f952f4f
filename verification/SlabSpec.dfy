/**
 An object cache as a value: single pages, each with its free list threaded through
 its free objects, its capacity and its count of objects in use.
 */
module SlabSpec {
  import opened Arith
  import opened HeapSpec

  const HEADER: nat := 24
  const W32: nat := 0x1_0000_0000

  /** The size and the alignment of the objects. */
  datatype Geometry = Geometry(size: nat, align: nat)

  /** Where the objects of a page start, past its header. */
  function Front(g: Geometry): nat { if g.align == 0 then HEADER else AlignUp(HEADER, g.align) }

  ghost predicate Proper(g: Geometry) {
    && IsPow2(g.align) && 8 <= g.align && 8 <= g.size && g.size % g.align == 0
    && Front(g) + g.size <= PAGE
  }

  ghost predicate ObjectAt(g: Geometry, s: nat, x: nat) {
    && 0 < g.size && s + Front(g) <= x && (x - s - Front(g)) % g.size == 0 && x + g.size <= s + PAGE
  }

  datatype Cache = Cache(g: Geometry, mem: Memory, pages: seq<nat>, heads: map<nat, nat>, counts: map<nat, nat>,
                         inuse: map<nat, nat>, total: nat, lists: map<nat, seq<nat>>, live: set<nat>)

  ghost function On(live: set<nat>, s: nat): set<nat> { set x | x in live && PageOf(x) == s }

  function Look(m: map<nat, nat>, s: nat): nat { if s in m then m[s] else 0 }

  function List(c: Cache, s: nat): seq<nat> { if s in c.lists then c.lists[s] else [] }

  // -------------------------------------------------------------------- invariant

  /** Free objects and objects in use make up the capacity. */
  ghost predicate PageAt(c: Cache, s: nat) {
    s in c.pages ==>
      && s % PAGE == 0 && 0 < s
      && Look(c.heads, s) == First(List(c, s)) && Once(List(c, s))
      && |List(c, s)| + Look(c.inuse, s) == Look(c.counts, s)
      && Look(c.inuse, s) == |On(c.live, s)|
  }

  ghost predicate NodeAt(c: Cache, s: nat, i: nat) {
    s in c.pages && i < |List(c, s)| ==>
      && ObjectAt(c.g, s, List(c, s)[i]) && Get(c.mem, List(c, s)[i]) == Follower(List(c, s), i)
      && List(c, s)[i] !in c.live
  }

  ghost predicate LiveAt(c: Cache, x: nat) {
    x in c.live ==> PageOf(x) in c.pages && ObjectAt(c.g, PageOf(x), x)
  }

  ghost predicate Inv(c: Cache) {
    && Proper(c.g) && Once(c.pages)
    && (forall s: nat :: PageAt(c, s))
    && (forall s: nat, i: nat :: NodeAt(c, s, i))
    && (forall x: nat :: LiveAt(c, x))
    && c.total == |c.live|
  }

  // ------------------------------------------------------------------- the objects

  lemma {:induction false} ObjectPage(g: Geometry, s: nat, x: nat)
    requires Proper(g) && s % PAGE == 0 && ObjectAt(g, s, x)
    ensures PageOf(x) == s && s + HEADER <= x
  {
    AlignUpBounds(HEADER, g.align);
    SplitIs(s, x - s);
  }

  lemma {:induction false} AlignDividesPage(g: Geometry)
    requires Proper(g)
    ensures g.align <= PAGE && PAGE % g.align == 0
  {
    AlignUpBounds(HEADER, g.align);
    assert g.align <= Front(g) by {
      var k := Front(g) / g.align;
      assert Front(g) == k * g.align;
      if k == 0 { assert false; }
      MulAtLeast(k, g.align);
    }
    PageIsPow2();
    Pow2Divides(g.align, PAGE);
  }

  lemma {:induction false} PageIsPow2()
    ensures IsPow2(PAGE)
  {
    assert IsPow2(64) by { assert IsPow2(8) by { assert IsPow2(2); assert IsPow2(4); } assert IsPow2(16); assert IsPow2(32); }
    assert IsPow2(128) && IsPow2(256) && IsPow2(512) && IsPow2(1024) && IsPow2(2048);
  }

  lemma {:induction false} MultipleOfMultiple(x: nat, size: nat, align: nat)
    requires align > 0 && size > 0 && size % align == 0 && x % size == 0
    ensures x % align == 0
  {
    var k, j := x / size, size / align;
    assert x == k * size && size == j * align;
    assert x == (k * j) * align;
    DivMulAdd(k * j, align, 0);
  }

  lemma {:induction false} SumOfMultiples(a: nat, b: nat, n: nat)
    requires n > 0 && a % n == 0 && b % n == 0
    ensures (a + b) % n == 0
  {
    var p, q := a / n, b / n;
    assert a == p * n && b == q * n;
    MulDistributes(p, q, n);
    DivMulAdd(p + q, n, 0);
  }

  /** Every object is aligned and lies past the header of its page. */
  lemma {:induction false} ObjectAligned(g: Geometry, s: nat, x: nat)
    requires Proper(g) && s % PAGE == 0 && ObjectAt(g, s, x)
    ensures x % g.align == 0
  {
    AlignDividesPage(g);
    AlignUpBounds(HEADER, g.align);
    var off: nat := x - s - Front(g);
    MultipleOfMultiple(s, PAGE, g.align);
    MultipleOfMultiple(off, g.size, g.align);
    SumOfMultiples(s, Front(g), g.align);
    SumOfMultiples(s + Front(g), off, g.align);
  }

  lemma {:induction false} StrideApart(n: nat, x: nat, y: nat)
    requires n > 0 && x % n == 0 && y % n == 0 && x < y
    ensures x + n <= y
  {
    var q, r := x / n, y / n;
    assert x == q * n && y == r * n;
    MulLess(q, r, n);
    MulDistributes(r, q, n);
    MulAtLeast(r - q, n);
  }

  /** Two objects, free or in use, never overlap. */
  lemma {:induction false} ObjectsApart(g: Geometry, s: nat, x: nat, t: nat, y: nat)
    requires Proper(g) && s % PAGE == 0 && t % PAGE == 0 && ObjectAt(g, s, x) && ObjectAt(g, t, y) && x < y
    ensures x + g.size <= y
  {
    ObjectPage(g, s, x);
    ObjectPage(g, t, y);
    if s == t {
      StrideApart(g.size, x - s - Front(g), y - s - Front(g));
    } else if s < t {
      StrideApart(PAGE, s, t);
    } else {
      StrideApart(PAGE, t, s);
    }
  }

  // -------------------------------------------------------------------- counting

  lemma {:induction false} OnAdds(live: set<nat>, x: nat, s: nat)
    requires x !in live
    ensures |live + {x}| == |live| + 1
    ensures |On(live + {x}, s)| == |On(live, s)| + if PageOf(x) == s then 1 else 0
  {
    if PageOf(x) == s {
      assert On(live + {x}, s) == On(live, s) + {x};
    } else {
      assert On(live + {x}, s) == On(live, s);
    }
  }

  lemma {:induction false} OnDrops(live: set<nat>, x: nat, s: nat)
    requires x in live
    ensures |live - {x}| + 1 == |live|
    ensures |On(live - {x}, s)| + (if PageOf(x) == s then 1 else 0) == |On(live, s)|
  {
    OnAdds(live - {x}, x, s);
    assert live - {x} + {x} == live;
  }

  // ------------------------------------------------------------------- transitions

  /** The first free object of a page handed out. */
  ghost function Take(c: Cache, s: nat): Cache
    requires List(c, s) != []
  {
    var x := List(c, s)[0];
    c.(heads := c.heads[s := Get(c.mem, x)], lists := c.lists[s := List(c, s)[1..]],
       inuse := c.inuse[s := Look(c.inuse, s) + 1], total := c.total + 1, live := c.live + {x})
  }

  lemma {:induction false} TakeKeeps(c: Cache, s: nat)
    requires Inv(c) && s in c.pages && List(c, s) != []
    ensures Inv(Take(c, s)) && List(c, s)[0] !in c.live && List(c, s)[0] != 0 && ObjectAt(c.g, s, List(c, s)[0])
  {
    var c', x := Take(c, s), List(c, s)[0];
    assert PageAt(c, s) && NodeAt(c, s, 0);
    ObjectPage(c.g, s, x);
    OnAdds(c.live, x, s);
    forall t: nat ensures PageAt(c', t) {
      assert PageAt(c, t);
      OnAdds(c.live, x, t);
    }
    forall t: nat, i: nat ensures NodeAt(c', t, i) {
      var j := i + 1;
      assert NodeAt(c, t, i) && NodeAt(c, s, j) && PageAt(c, t);
      if t in c.pages && t != s && i < |List(c, t)| { ObjectPage(c.g, t, List(c, t)[i]); }
    }
    forall y: nat ensures LiveAt(c', y) { assert LiveAt(c, y); }
  }

  /** An object taken back: overwritten as `m` says, first on its page's list again. */
  ghost function Give(c: Cache, x: nat, m: Memory): Cache {
    var s := PageOf(x);
    c.(mem := m[x := Look(c.heads, s)], heads := c.heads[s := x], lists := c.lists[s := [x] + List(c, s)],
       inuse := c.inuse[s := if Look(c.inuse, s) == 0 then 0 else Look(c.inuse, s) - 1],
       total := if c.total == 0 then 0 else c.total - 1, live := c.live - {x})
  }

  lemma {:induction false} GiveNodes(c: Cache, x: nat, m: Memory, t: nat, i: nat)
    requires Inv(c) && x in c.live && SameOutside(c.mem, m, x, x + c.g.size) && t in c.pages && i < |List(c, t)|
    ensures Get(m[x := Look(c.heads, PageOf(x))], List(c, t)[i]) == Get(c.mem, List(c, t)[i]) && List(c, t)[i] != x
  {
    var y := List(c, t)[i];
    assert LiveAt(c, x) && NodeAt(c, t, i) && PageAt(c, t) && PageAt(c, PageOf(x));
    if y > x { ObjectsApart(c.g, PageOf(x), x, t, y); }
  }

  lemma {:induction false} GivePages(c: Cache, x: nat, m: Memory, t: nat)
    requires Inv(c) && x in c.live && x !in List(c, PageOf(x))
    ensures PageAt(Give(c, x, m), t)
  {
    assert PageAt(c, t) && LiveAt(c, x) && PageAt(c, PageOf(x));
    OnDrops(c.live, x, t);
  }

  /** An object in use means that neither count is zero, so taking it back never panics. */
  lemma {:induction false} LiveIsCounted(c: Cache, x: nat)
    requires Inv(c) && x in c.live
    ensures PageOf(x) in c.pages && Look(c.inuse, PageOf(x)) > 0 && c.total > 0 && x != 0
  {
    assert LiveAt(c, x) && PageAt(c, PageOf(x));
    assert x in On(c.live, PageOf(x));
    ObjectPage(c.g, PageOf(x), x);
  }

  lemma {:induction false} GiveKeeps(c: Cache, x: nat, m: Memory)
    requires Inv(c) && x in c.live && SameOutside(c.mem, m, x, x + c.g.size)
    ensures Inv(Give(c, x, m)) && x !in List(c, PageOf(x))
  {
    var c', s := Give(c, x, m), PageOf(x);
    assert LiveAt(c, x) && PageAt(c, s);
    forall i | 0 <= i < |List(c, s)| ensures List(c, s)[i] != x { GiveNodes(c, x, m, s, i); }
    OnDrops(c.live, x, s);
    forall t: nat ensures PageAt(c', t) { GivePages(c, x, m, t); }
    forall t: nat, i: nat ensures NodeAt(c', t, i) {
      assert NodeAt(c, t, i);
      if t in c.pages && i < |List(c, t)| { GiveNodes(c, x, m, t, i); }
      if t == s && 0 < i <= |List(c, s)| {
        var j := i - 1;
        assert NodeAt(c, s, j);
        GiveNodes(c, x, m, s, j);
      }
    }
    forall y: nat ensures LiveAt(c', y) { assert LiveAt(c, y); }
  }

  /** A word written inside an object in use changes no free object's link. */
  lemma {:induction false} WriteKeeps(c: Cache, x: nat, m: Memory)
    requires Inv(c) && x in c.live && SameOutside(c.mem, m, x, x + c.g.size)
    ensures Inv(c.(mem := m))
  {
    var c' := c.(mem := m);
    forall t: nat ensures PageAt(c', t) { assert PageAt(c, t); }
    forall t: nat, i: nat ensures NodeAt(c', t, i) {
      assert NodeAt(c, t, i);
      if t in c.pages && i < |List(c, t)| { GiveNodes(c, x, m, t, i); }
    }
    forall y: nat ensures LiveAt(c', y) { assert LiveAt(c, y); }
  }

  // ---------------------------------------------------------------------- a new page

  /** The first `k` objects of a page, newest first. */
  function Carved(s: nat, g: Geometry, k: nat): seq<nat>
    decreases k
  {
    if k == 0 then [] else [s + Front(g) + Span(k - 1, g.size)] + Carved(s, g, k - 1)
  }

  lemma {:induction false} CarvedAt(s: nat, g: Geometry, k: nat, i: nat)
    requires i < k
    ensures |Carved(s, g, k)| == k && Carved(s, g, k)[i] == s + Front(g) + Span(k - 1 - i, g.size)
    decreases k
  {
    if i > 0 {
      CarvedAt(s, g, k - 1, i - 1);
    } else if k > 1 {
      CarvedAt(s, g, k - 1, 0);
    }
  }

  lemma {:induction false} CarvedIsObject(s: nat, g: Geometry, k: nat, i: nat)
    requires Proper(g) && i < k && Front(g) + Span(k, g.size) <= PAGE
    ensures |Carved(s, g, k)| == k && ObjectAt(g, s, Carved(s, g, k)[i])
  {
    CarvedAt(s, g, k, i);
    SpanGrows(k - 1 - i, k, g.size);
    SpanMultiplies(k - 1 - i, g.size);
    DivMulAdd(k - 1 - i, g.size, 0);
  }

  lemma {:induction false} CarvedOnce(s: nat, g: Geometry, k: nat)
    requires g.size > 0
    ensures Once(Carved(s, g, k)) && |Carved(s, g, k)| == k
  {
    forall i, j | 0 <= i < j < |Carved(s, g, k)| ensures Carved(s, g, k)[i] != Carved(s, g, k)[j] {
      CarvedLength(s, g, k);
      CarvedAt(s, g, k, i);
      CarvedAt(s, g, k, j);
      SpanGrows(k - 1 - j, k - 1 - i, g.size);
    }
    CarvedLength(s, g, k);
  }

  lemma {:induction false} CarvedLength(s: nat, g: Geometry, k: nat)
    ensures |Carved(s, g, k)| == k
    decreases k
  {
    if k > 0 { CarvedLength(s, g, k - 1); }
  }

  /** Every object of the list links to the one after it. */
  ghost predicate Threaded(m: Memory, list: seq<nat>) {
    forall i :: 0 <= i < |list| ==> Get(m, list[i]) == Follower(list, i)
  }

  lemma {:induction false} CarveLinks(m: Memory, s: nat, g: Geometry, k: nat)
    requires g.size > 0 && Threaded(m, Carved(s, g, k))
    ensures var x := s + Front(g) + Span(k, g.size);
            Threaded(m[x := First(Carved(s, g, k))], Carved(s, g, k + 1))
  {
    var x, list := s + Front(g) + Span(k, g.size), Carved(s, g, k);
    CarvedOnce(s, g, k + 1);
    assert Carved(s, g, k + 1) == [x] + list;
    forall i | 0 <= i < |list| ensures list[i] != x { assert ([x] + list)[0] != ([x] + list)[i + 1]; }
  }

  /** A page with all its objects free, put first. */
  ghost function AddPage(c: Cache, s: nat, m: Memory, k: nat): Cache {
    c.(mem := m, pages := [s] + c.pages, heads := c.heads[s := First(Carved(s, c.g, k))], counts := c.counts[s := k],
       inuse := c.inuse[s := 0], lists := c.lists[s := Carved(s, c.g, k)])
  }

  lemma {:induction false} LivePage(c: Cache, s: nat)
    requires Inv(c) && s !in c.pages
    ensures On(c.live, s) == {}
  {
    forall x | x in c.live ensures PageOf(x) != s { assert LiveAt(c, x); }
  }

  lemma {:induction false} NodeElsewhere(c: Cache, s: nat, t: nat, i: nat)
    requires Inv(c) && s % PAGE == 0 && s !in c.pages && t in c.pages && i < |List(c, t)|
    ensures List(c, t)[i] < s || s + PAGE <= List(c, t)[i]
  {
    assert NodeAt(c, t, i) && PageAt(c, t);
    ObjectPage(c.g, t, List(c, t)[i]);
    if s < t { StrideApart(PAGE, s, t); } else { StrideApart(PAGE, t, s); }
  }

  lemma {:induction false} NewIsFree(c: Cache, s: nat, k: nat, i: nat)
    requires Inv(c) && s % PAGE == 0 && s !in c.pages && i < k && Front(c.g) + Span(k, c.g.size) <= PAGE
    ensures |Carved(s, c.g, k)| == k && Carved(s, c.g, k)[i] !in c.live
  {
    CarvedIsObject(s, c.g, k, i);
    ObjectPage(c.g, s, Carved(s, c.g, k)[i]);
    assert LiveAt(c, Carved(s, c.g, k)[i]);
  }

  lemma {:induction false} AddPageKeeps(c: Cache, s: nat, m: Memory, k: nat)
    requires Inv(c) && s % PAGE == 0 && 0 < s && s !in c.pages
    requires k > 0 && Front(c.g) + Span(k, c.g.size) <= PAGE
    requires Threaded(m, Carved(s, c.g, k)) && SameOutside(c.mem, m, s, s + PAGE)
    ensures Inv(AddPage(c, s, m, k)) && List(AddPage(c, s, m, k), s) != []
  {
    var c' := AddPage(c, s, m, k);
    CarvedOnce(s, c.g, k);
    LivePage(c, s);
    assert Once(c'.pages);
    forall t: nat ensures PageAt(c', t) { assert PageAt(c, t); }
    forall t: nat, i: nat ensures NodeAt(c', t, i) {
      assert NodeAt(c, t, i);
      if t == s && i < k {
        CarvedIsObject(s, c.g, k, i);
        NewIsFree(c, s, k, i);
      } else if t in c.pages && t != s && i < |List(c, t)| {
        NodeElsewhere(c, s, t, i);
      }
    }
    forall x: nat ensures LiveAt(c', x) { assert LiveAt(c, x); }
  }
}
