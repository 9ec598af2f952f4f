/** Building the kernel's translation tables from the memory ranges, and walking them. */
module Mmu {
  import opened Arith
  import opened PageDesc
  import opened Ranges

  const L2_TABLES: nat := 128
  const L3_TABLES: nat := 64

  /** The physical addresses of the level-1 table and of the two pools. */
  datatype Layout = Layout(l1: nat, l2: nat, l3: nat)

  /** Two stretches of memory that do not meet. */
  predicate Off(a: nat, n: nat, b: nat, m: nat) { a + n <= b || b + m <= a }

  /** Page aligned, apart, and addressable. */
  ghost predicate Proper(a: Layout) {
    && a.l1 % PAGE == 0 && a.l2 % PAGE == 0 && a.l3 % PAGE == 0
    && Off(a.l1, PAGE, a.l2, L2_TABLES * PAGE) && Off(a.l1, PAGE, a.l3, L3_TABLES * PAGE)
    && Off(a.l2, L2_TABLES * PAGE, a.l3, L3_TABLES * PAGE)
    && a.l1 + PAGE <= ADDRESSES && a.l2 + L2_TABLES * PAGE <= ADDRESSES && a.l3 + L3_TABLES * PAGE <= ADDRESSES
  }

  class PageTables {
    const at: Layout
    const im: Image
    const l0: array<nat>
    const l1: array<nat>
    const l2: array2<nat>
    const l3: array2<nat>
    const owner: array<int>
    var l2Used: nat
    var l3Used: nat
    ghost var mapped: set<Cell>
    ghost var pageTable: map<Cell, nat>

    /** Empty tables: the level-0 entry of the upper half, and the device block. */
    constructor (at: Layout, im: Image)
      requires Proper(at)
      ensures Valid() && mapped == {} && this.at == at && this.im == im && l2Used == 0 && l3Used == 0
      ensures fresh(l0) && fresh(l1) && fresh(l2) && fresh(l3) && fresh(owner)
    {
      this.at, this.im := at, im;
      l0 := new nat[512](i => if i == 256 then TableDesc(at.l1) else 0);
      l1 := new nat[512](i => if i == 0 then DEVICE_DESC else 0);
      l2 := new nat[L2_TABLES, 512]((i, j) => 0);
      l3 := new nat[L3_TABLES, 512]((i, j) => 0);
      owner := new int[512](i => -1);
      l2Used, l3Used, mapped, pageTable := 0, 0, {}, map[];
      new;
      assert forall i: nat :: OwnerOk(i);
      assert forall i: nat, j: nat :: OwnersApart(i, j);
      assert forall c: Cell :: CellOk(c);
      assert forall c: Cell :: PagesOk(c);
    }

    ghost predicate Shape()
      reads this
    {
      && Proper(at)
      && l0.Length == 512 && l1.Length == 512 && owner.Length == 512 && l0 != l1
      && l2.Length0 == L2_TABLES && l2.Length1 == 512
      && l3.Length0 == L3_TABLES && l3.Length1 == 512 && l2 != l3
      && l2Used <= L2_TABLES && l3Used <= L3_TABLES
    }

    /** Level-1 entry `i` is empty, or the table that `i` owns. */
    ghost predicate OwnerOk(i: nat)
      requires Shape()
      reads this, l1, owner
    {
      1 <= i < 512 ==>
        if owner[i] < 0 then l1[i] == 0
        else owner[i] < l2Used && l1[i] == TableDesc(at.l2 + owner[i] * PAGE)
    }

    ghost predicate OwnersApart(i: nat, j: nat)
      requires Shape()
      reads this, owner
    {
      1 <= i < 512 && 1 <= j < 512 && i != j && owner[i] >= 0 ==> owner[i] != owner[j]
    }

    /** The level-2 entry that block `c` should have. */
    ghost function Want(c: Cell): nat
      reads this
    {
      if c !in mapped then 0
      else if TouchesImage(im, BlockPa(c.i, c.j)) then
        (if c in pageTable then TableDesc(at.l3 + pageTable[c] * PAGE) else 0)
      else LeafDesc(BlockPa(c.i, c.j), ReadWrite, 1)
    }

    ghost predicate CellOk(c: Cell)
      requires Shape()
      reads this, l2, owner
    {
      Usable(c) ==>
        && (c in mapped ==> owner[c.i] >= 0)
        && (0 <= owner[c.i] < L2_TABLES ==> l2[owner[c.i], c.j] == Want(c))
    }

    ghost predicate PagesOk(c: Cell)
      requires Shape()
      reads this, l3
    {
      c in mapped && TouchesImage(im, BlockPa(c.i, c.j)) ==>
        && c in pageTable && pageTable[c] < l3Used
        && Filled(pageTable[c], c)
    }

    /** Table `k` of the pool maps the pages of block `c`. */
    ghost predicate Filled(k: nat, c: Cell)
      requires Shape() && k < L3_TABLES
      reads this, l3
    {
      forall p: nat :: p < 512 ==> l3[k, p] == PageLeaf(c, p)
    }

    function PageLeaf(c: Cell, p: nat): nat {
      var pa := BlockPa(c.i, c.j) + p * PAGE;
      LeafDesc(pa, AccessOf(im, pa), 3)
    }

    ghost predicate Valid()
      reads this, l0, l1, l2, l3, owner
    {
      && Shape()
      && (forall i: nat :: i < 512 ==> l0[i] == if i == 256 then TableDesc(at.l1) else 0)
      && l1[0] == DEVICE_DESC
      && (forall c :: c in mapped ==> Usable(c))
      && (forall i: nat :: OwnerOk(i))
      && (forall i: nat, j: nat :: OwnersApart(i, j))
      && (forall c: Cell :: CellOk(c))
      && (forall c: Cell :: PagesOk(c))
    }

    // ---------------------------------------------------------------- the walk

    /** Word `i` of the table at a physical address. */
    function Word(addr: nat, i: nat): nat
      requires Shape() && i < 512
      reads this, l1, l2, l3
    {
      if addr == at.l1 then l1[i]
      else if at.l2 <= addr < at.l2 + L2_TABLES * PAGE then l2[(addr - at.l2) / PAGE, i]
      else if at.l3 <= addr < at.l3 + L3_TABLES * PAGE then l3[(addr - at.l3) / PAGE, i]
      else 0
    }

    function Lookup(va: nat): nat
      requires Shape()
      reads this, l0, l1, l2, l3
    {
      var d0 := l0[va / REACH % 512];
      if d0 == 0 then 0
      else if Kind(d0) != 3 then d0
      else
        var d1 := Word(Addr(d0), va / GIB % 512);
        if d1 == 0 then 0
        else if Kind(d1) == 1 then d1
        else if Kind(d1) != 3 then 0
        else
          var d2 := Word(Addr(d1), va / BLOCK % 512);
          if d2 == 0 then 0
          else if Kind(d2) == 1 then d2
          else if Kind(d2) != 3 then 0
          else Word(Addr(d2), va / PAGE % 512)
    }

    lemma {:induction false} FirstWord(i: nat)
      requires Valid() && i < 512
      ensures Kind(TableDesc(at.l1)) == 3 && TableDesc(at.l1) != 0 && Word(Addr(TableDesc(at.l1)), i) == l1[i]
    {
      TableDescReads(at.l1);
    }

    lemma {:induction false} SecondWord(k: nat, j: nat)
      requires Valid() && k < L2_TABLES && j < 512
      ensures var d := TableDesc(at.l2 + k * PAGE);
              Kind(d) == 3 && d != 0 && Word(Addr(d), j) == l2[k, j]
    {
      TableDescReads(at.l2 + k * PAGE);
      DivUnique(k * PAGE, PAGE, k, 0);
    }

    lemma {:induction false} ThirdWord(k: nat, p: nat)
      requires Valid() && k < L3_TABLES && p < 512
      ensures var d := TableDesc(at.l3 + k * PAGE);
              Kind(d) == 3 && d != 0 && Word(Addr(d), p) == l3[k, p]
    {
      TableDescReads(at.l3 + k * PAGE);
      DivUnique(k * PAGE, PAGE, k, 0);
    }

    /** The walk finds, for every address, the leaf that the mapped blocks call for. */
    lemma {:induction false} LookupIsLeaf(va: nat)
      requires Valid()
      ensures Lookup(va) == Leaf(im, mapped, va)
    {
      var i0, i1, i2, i3 := va / REACH % 512, va / GIB % 512, va / BLOCK % 512, va / PAGE % 512;
      if i0 == 256 {
        FirstWord(i1);
        if i1 == 0 {
          DeviceDescReads();
        } else {
          assert OwnerOk(i1);
          assert CellOk(Cell(i1, i2));
          if owner[i1] >= 0 {
            SecondWord(owner[i1], i2);
            if Cell(i1, i2) in mapped { SecondLevel(i1, i2, i3); }
          }
        }
      }
    }

    /** What the second-level entry of a mapped block leads to. */
    lemma {:induction false} SecondLevel(i1: nat, i2: nat, i3: nat)
      requires Valid() && 0 < i1 < 512 && i2 < 512 && i3 < 512 && owner[i1] >= 0 && Cell(i1, i2) in mapped
      ensures owner[i1] < L2_TABLES
      ensures var d2, pa := l2[owner[i1], i2], BlockPa(i1, i2);
        if TouchesImage(im, pa) then d2 != 0 && Kind(d2) == 3 && Word(Addr(d2), i3) == PageLeaf(Cell(i1, i2), i3)
        else d2 != 0 && Kind(d2) == 1 && d2 == LeafDesc(pa, ReadWrite, 1)
    {
      var c := Cell(i1, i2);
      assert OwnerOk(i1) && CellOk(c) && PagesOk(c);
      BlockAligned(i1, i2, i3);
      if TouchesImage(im, BlockPa(i1, i2)) {
        ThirdWord(pageTable[c], i3);
      } else {
        LeafDescReads(BlockPa(i1, i2), ReadWrite, 1);
      }
    }

    /** Built from ranges, the tables translate every address of RAM in a range whose end does not wrap to itself. */
    lemma {:induction false} RamIsReached(mem: seq<Range>, i: nat, pa: nat)
      requires Valid() && i < |mem| && mem[i].Has(pa) && RAM_BASE <= pa < REACH && Sane(mem[i])
      requires forall c :: c in mapped <==> WantedBy(mem, |mem|, c)
      ensures Lookup(HH_BASE + pa) != 0 && Translate(Lookup(HH_BASE + pa), HH_BASE + pa) == pa
    {
      RamIsWanted(mem[i], pa);
      LookupIsLeaf(HH_BASE + pa);
      MappedTranslates(im, mapped, pa);
    }

    // --------------------------------------------------------------- the builder

    /** A table of the second pool, cleared; none left is reported as failure. */
    method AllocL2() returns (ok: bool, k: nat)
      requires Valid()
      modifies this`l2Used, l2
      ensures Valid()
      ensures ok <==> old(l2Used) < L2_TABLES
      ensures l2Used == if ok then old(l2Used) + 1 else old(l2Used)
      ensures ok ==> k == old(l2Used) && forall j :: 0 <= j < 512 ==> l2[k, j] == 0
    {
      if l2Used >= L2_TABLES { return false, 0; }
      k := l2Used;
      var j := 0;
      while j < 512
        invariant 0 <= j <= 512
        invariant forall i :: 0 <= i < j ==> l2[k, i] == 0
        invariant forall m, i :: 0 <= m < L2_TABLES && 0 <= i < 512 && m != k ==> l2[m, i] == old(l2[m, i])
        modifies l2
      {
        l2[k, j] := 0;
        j := j + 1;
      }
      l2Used := l2Used + 1;
      ok := true;
      assert forall i: nat :: OwnerOk(i) by {
        forall i: nat ensures OwnerOk(i) { assert old(OwnerOk(i)); }
      }
      assert forall c: Cell :: CellOk(c) by {
        forall c: Cell ensures CellOk(c) { assert old(CellOk(c)); assert old(OwnerOk(c.i)); }
      }
      assert forall i: nat, j: nat :: OwnersApart(i, j) by {
        forall i: nat, j: nat ensures OwnersApart(i, j) { assert old(OwnersApart(i, j)); }
      }
      assert forall c: Cell :: PagesOk(c) by {
        forall c: Cell ensures PagesOk(c) { assert old(PagesOk(c)); }
      }
    }

    /** The level-2 table of entry `i`, made when it is first needed. */
    method GetL2(i: nat) returns (ok: bool, k: nat)
      requires Valid() && 1 <= i < 512
      modifies this`l2Used, l1, l2, owner
      ensures Valid()
      ensures ok ==> k < L2_TABLES && owner[i] == k
      ensures !ok ==> l2Used == L2_TABLES
    {
      if owner[i] >= 0 {
        assert OwnerOk(i);
        return true, owner[i];
      }
      ok, k := AllocL2();
      if !ok { return; }
      forall m: nat | 1 <= m < 512 ensures owner[m] != k { assert old(OwnerOk(m)); }
      Claim(i, k);
    }

    method Claim(i: nat, k: nat)
      requires Valid() && 1 <= i < 512 && owner[i] < 0 && l2Used > 0 && k == l2Used - 1
      requires forall j :: 0 <= j < 512 ==> l2[k, j] == 0
      requires forall m: nat :: 1 <= m < 512 ==> owner[m] != k
      modifies l1, owner
      ensures Valid() && owner[i] == k
    {
      owner[i] := k;
      l1[i] := TableDesc(at.l2 + k * PAGE);
      forall m: nat ensures OwnerOk(m) { assert old(OwnerOk(m)); }
      forall m: nat, n: nat ensures OwnersApart(m, n) { assert old(OwnersApart(m, n)); }
      forall c: Cell ensures CellOk(c) { assert old(CellOk(c)); }
      forall c: Cell ensures PagesOk(c) { assert old(PagesOk(c)); }
    }

    /** A table of the third pool with the pages of block `c`, each with the permissions of its section. */
    method FillL3(c: Cell) returns (ok: bool, k: nat)
      requires Valid() && Usable(c)
      modifies this`l3Used, l3
      ensures Valid()
      ensures ok <==> old(l3Used) < L3_TABLES
      ensures l3Used == if ok then old(l3Used) + 1 else old(l3Used)
      ensures ok ==> k == old(l3Used) && Filled(k, c)
    {
      if l3Used >= L3_TABLES { return false, 0; }
      k := l3Used;
      var pa4, p := BlockPa(c.i, c.j), 0;
      while p < 512
        invariant 0 <= p <= 512 && pa4 == BlockPa(c.i, c.j) + p * PAGE
        invariant forall q: nat :: q < p ==> l3[k, q] == PageLeaf(c, q)
        invariant forall m, q :: 0 <= m < L3_TABLES && 0 <= q < 512 && m != k ==> l3[m, q] == old(l3[m, q])
        modifies l3
      {
        l3[k, p] := LeafDesc(pa4, AccessOf(im, pa4), 3);
        pa4 := pa4 + PAGE;
        p := p + 1;
      }
      l3Used := l3Used + 1;
      ok := true;
      forall m: nat ensures OwnerOk(m) { assert old(OwnerOk(m)); }
      forall m: nat, n: nat ensures OwnersApart(m, n) { assert old(OwnersApart(m, n)); }
      forall e: Cell ensures CellOk(e) { assert old(CellOk(e)); }
      forall e: Cell ensures PagesOk(e) { assert old(PagesOk(e)); }
    }

    /** Point the level-2 entry of block `c` at what it should be. */
    method Install(c: Cell, k: nat, desc: nat, ghost table: map<Cell, nat>)
      requires Valid() && Usable(c) && k < L2_TABLES && owner[c.i] == k
      requires forall e :: e != c && e in pageTable ==> e in table && table[e] == pageTable[e]
      requires if TouchesImage(im, BlockPa(c.i, c.j))
               then c in table && table[c] < l3Used && Filled(table[c], c) && desc == TableDesc(at.l3 + table[c] * PAGE)
               else desc == LeafDesc(BlockPa(c.i, c.j), ReadWrite, 1)
      modifies this`mapped, this`pageTable, l2
      ensures Valid() && mapped == old(mapped) + {c}
    {
      l2[k, c.j] := desc;
      mapped := mapped + {c};
      pageTable := table;
      forall m: nat ensures OwnerOk(m) { assert old(OwnerOk(m)); }
      forall m: nat, n: nat ensures OwnersApart(m, n) { assert old(OwnersApart(m, n)); }
      forall e: Cell ensures CellOk(e) { assert old(CellOk(e)); assert old(PagesOk(e)); assert old(OwnersApart(e.i, c.i)); }
      forall e: Cell ensures PagesOk(e) { assert old(PagesOk(e)); }
    }

    /** Map one 2 MiB block, by pages when the image reaches into it. */
    method MapBlock(c: Cell) returns (ok: bool)
      requires Valid() && Usable(c)
      modifies this, l1, l2, l3, owner
      ensures Valid()
      ensures mapped == if ok then old(mapped) + {c} else old(mapped)
      ensures !ok ==> l2Used == L2_TABLES || l3Used == L3_TABLES
    {
      var k;
      ok, k := GetL2(c.i);
      if !ok { return; }
      if TouchesImage(im, BlockPa(c.i, c.j)) {
        var t;
        ok, t := FillL3(c);
        if !ok { return; }
        Install(c, k, TableDesc(at.l3 + t * PAGE), pageTable[c := t]);
      } else {
        Install(c, k, LeafDesc(BlockPa(c.i, c.j), ReadWrite, 1), pageTable);
      }
    }

    /** Map the blocks of one range, from the start of RAM on. */
    method MapRange(r: Range) returns (ok: bool)
      requires Valid()
      modifies this, l1, l2, l3, owner
      ensures Valid()
      ensures ok ==> forall c :: c in mapped <==> c in old(mapped) || Wanted(r, c)
      ensures !ok ==> l2Used == L2_TABLES || l3Used == L3_TABLES
    {
      if End64(r) <= RAM_BASE { return true; }
      var n := FirstBlock(r);
      var pa, paEnd := n * BLOCK, LastBlock(r) * BLOCK;
      while pa < paEnd
        invariant Valid() && FirstBlock(r) <= n && pa == n * BLOCK
        invariant forall c :: c in mapped <==> c in old(mapped) || (Usable(c) && FirstBlock(r) <= Number(c) < n && n <= LastBlock(r))
        invariant n <= LastBlock(r) || FirstBlock(r) > LastBlock(r)
        decreases paEnd - pa
      {
        var i := pa / GIB;
        BlockNumber(n);
        if !(i == 0 || i >= 512) {
          ok := MapBlock(Cell(i, pa % GIB / BLOCK));
          if !ok { return; }
        }
        pa := pa + BLOCK;
        n := n + 1;
      }
      return true;
    }

    /** Map every range; with no range at all, the window that the boot code maps. */
    method Build(ranges: seq<Range>) returns (ok: bool)
      requires Valid() && mapped == {}
      modifies this, l1, l2, l3, owner
      ensures Valid()
      ensures ok ==> forall c :: c in mapped <==> WantedBy(Effective(ranges), |Effective(ranges)|, c)
      ensures !ok ==> l2Used == L2_TABLES || l3Used == L3_TABLES
    {
      var mem := Effective(ranges);
      var r := 0;
      while r < |mem|
        invariant 0 <= r <= |mem| && Valid()
        invariant forall c :: c in mapped <==> WantedBy(mem, r, c)
      {
        ok := MapRange(mem[r]);
        if !ok { return; }
        r := r + 1;
      }
      return true;
    }
  }

  function Effective(ranges: seq<Range>): seq<Range> {
    if ranges == [] then [Range(RAM_BASE, GIB)] else ranges
  }

  /** Blocks are numbered from address zero on. */
  function Number(c: Cell): nat { c.i * 512 + c.j }

  const U64: nat := 0x1_0000_0000_0000_0000

  /** The end of a range in 64 bits. */
  function End64(r: Range): nat { r.End() % U64 }

  /** Neither the end nor its rounding up to a block wraps. */
  predicate Sane(r: Range) { r.End() + BLOCK <= U64 }

  function FirstBlock(r: Range): nat { (if r.base < RAM_BASE then RAM_BASE else r.base) / BLOCK }

  function LastBlock(r: Range): nat { (End64(r) + BLOCK - 1) % U64 / BLOCK }

  predicate Wanted(r: Range, c: Cell) {
    Usable(c) && End64(r) > RAM_BASE && FirstBlock(r) <= Number(c) < LastBlock(r)
  }

  ghost predicate WantedBy(mem: seq<Range>, n: nat, c: Cell)
    requires n <= |mem|
  {
    exists i :: 0 <= i < n && Wanted(mem[i], c)
  }

  lemma {:induction false} BlockNumber(n: nat)
    ensures var pa := n * BLOCK;
            && pa / GIB == n / 512 && pa % GIB / BLOCK == n % 512
            && forall c: Cell :: c.j < 512 ==> (Number(c) == n <==> c == Cell(n / 512, n % 512))
  {
    var q, j := n / 512, n % 512;
    assert n == q * 512 + j;
    DivUnique(n * BLOCK, GIB, q, j * BLOCK);
    DivUnique(j * BLOCK, BLOCK, j, 0);
    forall c: Cell | c.j < 512
      ensures Number(c) == n <==> c == Cell(q, j)
    {
      DivUnique(Number(c), 512, c.i, c.j);
    }
  }

  lemma {:induction false} SaneEnds(r: Range)
    requires Sane(r)
    ensures End64(r) == r.End() && LastBlock(r) == (r.End() + BLOCK - 1) / BLOCK
  {
    DivUnique(r.End(), U64, 0, r.End());
    DivUnique(r.End() + BLOCK - 1, U64, 0, r.End() + BLOCK - 1);
  }

  lemma {:induction false} InBlocks(start: nat, end: nat, pa: nat)
    requires start <= pa < end
    ensures start / BLOCK <= pa / BLOCK < (end + BLOCK - 1) / BLOCK
  {
  }

  /** Whether an address of RAM is mapped for a range, by the number of its block. */
  lemma {:induction false} WantedByNumber(r: Range, pa: nat)
    requires RAM_BASE <= pa < REACH
    ensures Wanted(r, CellOf(pa)) <==> End64(r) > RAM_BASE && FirstBlock(r) <= pa / BLOCK < LastBlock(r)
  {
    Indices(pa);
    var n := pa / BLOCK;
    BlockNumber(n);
    DivUnique(pa, GIB, n / 512, n % 512 * BLOCK + pa % BLOCK);
  }

  /** Every address of RAM that a range holds lies in a wanted block. */
  lemma {:induction false} RamIsWanted(r: Range, pa: nat)
    requires Sane(r) && r.Has(pa) && RAM_BASE <= pa < REACH
    ensures Wanted(r, CellOf(pa))
  {
    WantedByNumber(r, pa);
    SaneEnds(r);
    InBlocks(if r.base < RAM_BASE then RAM_BASE else r.base, r.End(), pa);
  }

  /** A range that ends in the last block of the address space has its end rounded to zero, and nothing of it is mapped. */
  lemma {:induction false} WrappedMapsNothing(r: Range, c: Cell)
    requires r.End() < U64 && !Sane(r)
    ensures !Wanted(r, c)
  {
    DivUnique(r.End(), U64, 0, r.End());
    DivUnique(r.End() + BLOCK - 1, U64, 1, r.End() + BLOCK - 1 - U64);
  }

  /** The end of the range wraps, and what is left of it still passes the last block that the tables reach. */
  predicate PassesReach(r: Range) { r.End() >= U64 && LastBlock(r) * BLOCK >= REACH }

  /** A range whose end wraps has all its RAM mapped exactly when its blocks go on to the end of the reach. */
  lemma {:induction false} PastEndIff(r: Range)
    requires r.End() >= U64 && r.base < REACH
    ensures (forall pa: nat :: r.Has(pa) && RAM_BASE <= pa < REACH ==> Wanted(r, CellOf(pa))) <==> PassesReach(r)
  {
    var last := REACH - 1;
    WantedByNumber(r, last);
    assert r.Has(last) && last / BLOCK + 1 == REACH / BLOCK && REACH / BLOCK * BLOCK == REACH;
    if PassesReach(r) {
      forall pa: nat | r.Has(pa) && RAM_BASE <= pa < REACH ensures Wanted(r, CellOf(pa)) {
        WantedByNumber(r, pa);
        InBlocks(if r.base < RAM_BASE then RAM_BASE else r.base, REACH, pa);
      }
    }
  }

  /** So all the RAM of a range is mapped exactly when neither its end nor the rounded end wraps, up to the reach. */
  lemma {:induction false} WantedIff(r: Range)
    requires r.base < REACH && RAM_BASE < r.End() && r.size > 0
    ensures (forall pa: nat :: r.Has(pa) && RAM_BASE <= pa < REACH ==> Wanted(r, CellOf(pa))) <==> Sane(r) || PassesReach(r)
  {
    if r.End() >= U64 {
      PastEndIff(r);
    } else if Sane(r) {
      forall pa: nat | r.Has(pa) && RAM_BASE <= pa < REACH ensures Wanted(r, CellOf(pa)) { RamIsWanted(r, pa); }
    } else {
      var pa := if r.base < RAM_BASE then RAM_BASE else r.base;
      WrappedMapsNothing(r, CellOf(pa));
      assert r.Has(pa) && RAM_BASE <= pa < REACH && !Wanted(r, CellOf(pa));
    }
  }

  /** Such a range: it reaches from 384 GiB to the last byte but one. */
  lemma {:induction false} WrappedExample()
    ensures var r := Range(0x60_0000_0000, U64 - 1 - 0x60_0000_0000);
            r.Has(0x60_0000_0000) && !Wanted(r, CellOf(0x60_0000_0000))
  {
    var r := Range(0x60_0000_0000, U64 - 1 - 0x60_0000_0000);
    WrappedMapsNothing(r, CellOf(0x60_0000_0000));
  }
}
