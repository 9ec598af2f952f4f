/**
 Translation-table descriptors of the VMSAv8-64 format (4 KiB granule): the fields
 the kernel sets, and what every leaf it wants for a virtual address is.
 */
module PageDesc {
  import opened Arith

  const PAGE: nat := 0x1000
  const BLOCK: nat := 0x20_0000
  const GIB: nat := 0x4000_0000
  const RAM_BASE: nat := 0x4000_0000
  const HH_BASE: nat := 0xFFFF_8000_0000_0000
  const REACH: nat := 0x80_0000_0000          // 512 GiB, what one level-1 table covers
  const ADDRESSES: nat := 0x1_0000_0000_0000  // bits 0 to 47

  const AF_INNER: nat := 0x700                // accessed, inner shareable, normal memory
  const AF_DEVICE: nat := 0x404               // accessed, not shareable, device memory
  const READ_ONLY: nat := 0x80                // AP = 2
  const NEVER: nat := 0x60_0000_0000_0000     // PXN and UXN, bits 53 and 54

  // ---------------------------------------------------------------- fields read

  function Kind(d: nat): nat { d % 4 }
  function Addr(d: nat): nat { d % ADDRESSES / PAGE * PAGE }
  function Attr(d: nat): nat { d / 4 % 8 }
  function Ap(d: nat): nat { d / 64 % 4 }
  predicate Executable(d: nat) { d / 0x20_0000_0000_0000 % 4 == 0 }
  predicate Writable(d: nat) { Ap(d) != 2 }

  // ------------------------------------------------------------- fields written

  function TableDesc(pa: nat): nat { pa + 3 }

  datatype Access = ReadWrite | ReadOnly | ReadExecute

  function Low(a: Access): nat { AF_INNER + if a.ReadWrite? then 0 else READ_ONLY }
  function High(a: Access): nat { if a.ReadExecute? then 0 else NEVER }

  function LeafDesc(pa: nat, a: Access, kind: nat): nat { pa + Low(a) + kind + High(a) }

  const DEVICE_DESC: nat := AF_DEVICE + 1 + NEVER

  lemma {:induction false} AddrOf(q: nat, low: nat, high: nat)
    requires q * PAGE < ADDRESSES && low < PAGE
    ensures Addr(q * PAGE + low + high * ADDRESSES) == q * PAGE
  {
    var d := q * PAGE + low + high * ADDRESSES;
    assert ADDRESSES == 0x10_0000_0000 * PAGE;
    assert q * PAGE + low < ADDRESSES;
    DivUnique(d, ADDRESSES, high, q * PAGE + low);
    DivUnique(q * PAGE + low, PAGE, q, low);
  }

  lemma {:induction false} TableDescReads(pa: nat)
    requires pa % PAGE == 0 && pa < ADDRESSES
    ensures Kind(TableDesc(pa)) == 3 && Addr(TableDesc(pa)) == pa && TableDesc(pa) != 0
  {
    var q := pa / PAGE;
    assert pa == q * PAGE;
    DivUnique(pa + 3, 4, q * 1024, 3);
    AddrOf(q, 3, 0);
  }

  function ApBits(a: Access): nat { if a.ReadWrite? then 0 else 2 }
  function NeverBits(a: Access): nat { if a.ReadExecute? then 0 else 3 }

  lemma {:induction false} LeafLowFields(q: nat, a: Access, kind: nat)
    requires kind == 1 || kind == 3
    ensures var d := LeafDesc(q * PAGE, a, kind);
            Kind(d) == kind && Attr(d) == 0 && Ap(d) == ApBits(a)
  {
    var d := LeafDesc(q * PAGE, a, kind);
    var h := if a.ReadExecute? then 0 else 0x1_8000_0000_0000;
    assert High(a) == h * 64;
    var sixtyFourths := q * 64 + 28 + ApBits(a) + h;
    assert d == sixtyFourths * 64 + kind;
    DivUnique(d, 4, sixtyFourths * 16, kind);
    DivUnique(sixtyFourths * 16, 8, sixtyFourths * 2, 0);
    DivUnique(d, 64, sixtyFourths, kind);
    DivUnique(sixtyFourths, 4, q * 16 + 7 + h / 4, ApBits(a));
  }

  lemma {:induction false} LeafHighFields(q: nat, a: Access, kind: nat)
    requires q * PAGE < ADDRESSES && (kind == 1 || kind == 3)
    ensures var d := LeafDesc(q * PAGE, a, kind);
            Addr(d) == q * PAGE && (Executable(d) <==> a.ReadExecute?)
  {
    var d, low := LeafDesc(q * PAGE, a, kind), Low(a) + kind;
    assert High(a) == NeverBits(a) * 0x20 * ADDRESSES;
    AddrOf(q, low, NeverBits(a) * 0x20);
    DivUnique(d, 0x20_0000_0000_0000, NeverBits(a), q * PAGE + low);
  }

  /** The fields of a leaf are those it was built from. */
  lemma {:induction false} LeafDescReads(pa: nat, a: Access, kind: nat)
    requires pa % PAGE == 0 && pa < ADDRESSES && (kind == 1 || kind == 3)
    ensures var d := LeafDesc(pa, a, kind);
            && Kind(d) == kind && Addr(d) == pa && Attr(d) == 0
            && (Writable(d) <==> a.ReadWrite?) && (Executable(d) <==> a.ReadExecute?)
  {
    var q := pa / PAGE;
    assert pa == q * PAGE;
    LeafLowFields(q, a, kind);
    LeafHighFields(q, a, kind);
  }

  lemma {:induction false} DeviceDescReads()
    ensures Kind(DEVICE_DESC) == 1 && Addr(DEVICE_DESC) == 0 && Attr(DEVICE_DESC) == 1
    ensures Writable(DEVICE_DESC) && !Executable(DEVICE_DESC)
  {
  }

  // ------------------------------------------------------- what should be mapped

  datatype Span = Span(start: nat, end: nat)

  predicate In(s: Span, pa: nat) { s.start <= pa < s.end }

  /** The image: its whole extent, the page of the vectors, and its sections. */
  datatype Image = Image(whole: Span, vectors: nat, text: Span, rodata: Span, coreText: Span, coreRodata: Span)

  /** The permissions of a 4 KiB page of the image. */
  function AccessOf(im: Image, pa: nat): Access {
    if pa == im.vectors || In(im.text, pa) then ReadExecute
    else if In(im.rodata, pa) then ReadOnly
    else if In(im.coreText, pa) then ReadExecute
    else if In(im.coreRodata, pa) then ReadOnly
    else ReadWrite
  }

  /** Block `i`, `j` covers 2 MiB from this address on. */
  function BlockPa(i: nat, j: nat): nat { i * GIB + j * BLOCK }

  predicate TouchesImage(im: Image, pa: nat) {
    !(pa + BLOCK <= im.whole.start || pa >= im.whole.end)
  }

  datatype Cell = Cell(i: nat, j: nat)

  predicate Usable(c: Cell) { 1 <= c.i < 512 && c.j < 512 }

  /** The leaf for an address when the blocks `m` are mapped; zero when there is none. */
  ghost function Leaf(im: Image, m: set<Cell>, va: nat): nat {
    var i0, i1, i2, i3 := va / REACH % 512, va / GIB % 512, va / BLOCK % 512, va / PAGE % 512;
    if i0 != 256 then 0
    else if i1 == 0 then DEVICE_DESC
    else if Cell(i1, i2) !in m then 0
    else if TouchesImage(im, BlockPa(i1, i2)) then
      var pa := BlockPa(i1, i2) + i3 * PAGE;
      LeafDesc(pa, AccessOf(im, pa), 3)
    else LeafDesc(BlockPa(i1, i2), ReadWrite, 1)
  }

  /** What a leaf translates an address to. */
  function Translate(d: nat, va: nat): nat {
    Addr(d) + va % (if Kind(d) == 3 then PAGE else if Attr(d) == 1 then GIB else BLOCK)
  }

  function CellOf(pa: nat): Cell { Cell(pa / GIB, pa / BLOCK % 512) }

  /** An address as its four table indices and the offset in its page. */
  lemma {:induction false} SplitAddress(i: nat, j: nat, p: nat, off: nat)
    requires i < 512 && j < 512 && p < 512 && off < PAGE
    ensures var pa := i * GIB + j * BLOCK + p * PAGE + off;
            && pa < REACH
            && (HH_BASE + pa) / REACH % 512 == 256 && (HH_BASE + pa) / GIB % 512 == i
            && (HH_BASE + pa) / BLOCK % 512 == j && (HH_BASE + pa) / PAGE % 512 == p
            && (HH_BASE + pa) % PAGE == off && (HH_BASE + pa) % BLOCK == p * PAGE + off
            && (HH_BASE + pa) % GIB == j * BLOCK + p * PAGE + off
  {
    var inPage, inBlock, inGib := off, p * PAGE + off, j * BLOCK + p * PAGE + off;
    var va := HH_BASE + (i * GIB + inGib);
    DivUnique(va, REACH, 0x1FF_FF00, i * GIB + inGib);
    DivUnique(va, GIB, 0x3_FFFE_0000 + i, inGib);
    DivUnique(0x3_FFFE_0000 + i, 512, 0x1FF_FF00, i);
    var blocks := (0x3_FFFE_0000 + i) * 512 + j;
    DivUnique(va, BLOCK, blocks, inBlock);
    DivUnique(blocks, 512, 0x3_FFFE_0000 + i, j);
    DivUnique(va, PAGE, blocks * 512 + p, inPage);
    DivUnique(blocks * 512 + p, 512, blocks, p);
  }

  lemma {:induction false} Indices(pa: nat)
    requires pa < REACH
    ensures var i, j, p, off := pa / GIB, pa / BLOCK % 512, pa / PAGE % 512, pa % PAGE;
            && i < 512 && pa == i * GIB + j * BLOCK + p * PAGE + off
            && pa % BLOCK == p * PAGE + off
  {
    var pages := pa / PAGE;
    var blocks := pages / 512;
    assert pa == pages * PAGE + pa % PAGE && pages == blocks * 512 + pages % 512 && blocks == blocks / 512 * 512 + blocks % 512;
    DivUnique(pa, BLOCK, blocks, pages % 512 * PAGE + pa % PAGE);
    DivUnique(pa, GIB, blocks / 512, blocks % 512 * BLOCK + pages % 512 * PAGE + pa % PAGE);
  }

  lemma {:induction false} LeafAt(im: Image, m: set<Cell>, i: nat, j: nat, p: nat, off: nat)
    requires i < 512 && j < 512 && p < 512 && off < PAGE
    ensures var start := BlockPa(i, j);
            var pa := start + p * PAGE;
            Leaf(im, m, HH_BASE + (pa + off)) ==
            if i == 0 then DEVICE_DESC
            else if Cell(i, j) !in m then 0
            else if TouchesImage(im, start) then LeafDesc(pa, AccessOf(im, pa), 3)
            else LeafDesc(start, ReadWrite, 1)
  {
    SplitAddress(i, j, p, off);
  }

  lemma {:induction false} TranslateAt(im: Image, m: set<Cell>, i: nat, j: nat, p: nat, off: nat)
    requires i < 512 && j < 512 && p < 512 && off < PAGE
    ensures var pa := BlockPa(i, j) + p * PAGE + off;
            var d := Leaf(im, m, HH_BASE + pa);
            && (d != 0 <==> i == 0 || Cell(i, j) in m)
            && (d != 0 ==> Translate(d, HH_BASE + pa) == pa)
  {
    SplitAddress(i, j, p, off);
    LeafAt(im, m, i, j, p, off);
    DeviceDescReads();
    var start := BlockPa(i, j);
    var page := start + p * PAGE;
    BlockAligned(i, j, p);
    LeafDescReads(page, AccessOf(im, page), 3);
    LeafDescReads(start, ReadWrite, 1);
  }

  lemma {:induction false} BlockAligned(i: nat, j: nat, p: nat)
    requires i < 512 && j < 512 && p < 512
    ensures BlockPa(i, j) % PAGE == 0 && (BlockPa(i, j) + p * PAGE) % PAGE == 0
    ensures BlockPa(i, j) + p * PAGE < REACH < ADDRESSES
  {
    DivUnique(BlockPa(i, j), PAGE, i * 0x4_0000 + j * 512, 0);
    DivUnique(BlockPa(i, j) + p * PAGE, PAGE, i * 0x4_0000 + j * 512 + p, 0);
  }

  /** Every mapped address is translated to the physical address it stands for. */
  lemma {:induction false} MappedTranslates(im: Image, m: set<Cell>, pa: nat)
    requires pa < REACH
    ensures var d := Leaf(im, m, HH_BASE + pa);
            && (d != 0 <==> pa < GIB || CellOf(pa) in m)
            && (d != 0 ==> Translate(d, HH_BASE + pa) == pa)
  {
    Indices(pa);
    TranslateAt(im, m, pa / GIB, pa / BLOCK % 512, pa / PAGE % 512, pa % PAGE);
  }

  /** No address is both writable and executable. */
  lemma {:induction false} NeverWritableAndExecutable(im: Image, m: set<Cell>, va: nat)
    ensures var d := Leaf(im, m, va); d != 0 ==> !(Writable(d) && Executable(d))
  {
    var i1, i2, i3 := va / GIB % 512, va / BLOCK % 512, va / PAGE % 512;
    var pa := BlockPa(i1, i2) + i3 * PAGE;
    DeviceDescReads();
    BlockAligned(i1, i2, i3);
    LeafDescReads(pa, AccessOf(im, pa), 3);
    LeafDescReads(BlockPa(i1, i2), ReadWrite, 1);
  }

  /** The pages that must be executable: the vectors, and pages that begin in the text sections. */
  predicate Code(im: Image, page: nat) {
    page == im.vectors || In(im.text, page) || (In(im.coreText, page) && !In(im.rodata, page))
  }

  /** The executable addresses are exactly those of mapped code pages of blocks that touch the image. */
  lemma {:induction false} ExecutableIsCode(im: Image, m: set<Cell>, pa: nat)
    requires pa < REACH
    ensures var d := Leaf(im, m, HH_BASE + pa);
            d != 0 && Executable(d) <==>
            && GIB <= pa && CellOf(pa) in m
            && TouchesImage(im, pa - pa % BLOCK) && Code(im, pa - pa % PAGE)
  {
    Indices(pa);
    var i, j, p := pa / GIB, pa / BLOCK % 512, pa / PAGE % 512;
    LeafAt(im, m, i, j, p, pa % PAGE);
    DeviceDescReads();
    BlockAligned(i, j, p);
    var page := BlockPa(i, j) + p * PAGE;
    LeafDescReads(page, AccessOf(im, page), 3);
    LeafDescReads(BlockPa(i, j), ReadWrite, 1);
  }

  /** The image as the linker lays it out: code inside it, its pages in RAM and mapped. */
  ghost predicate Laid(im: Image, m: set<Cell>) {
    && (forall page: nat :: Code(im, page) && page % PAGE == 0 ==> In(im.whole, page) && page < REACH && CellOf(page) in m)
    && (forall c :: c in m ==> Usable(c))
  }

  /** Then the executable pages are exactly the vectors, the text and the core text. */
  lemma {:induction false} ExecutableIff(im: Image, m: set<Cell>, page: nat)
    requires Laid(im, m) && page % PAGE == 0 && page < REACH
    ensures var d := Leaf(im, m, HH_BASE + page);
            d != 0 && Executable(d) <==> Code(im, page)
  {
    ExecutableIsCode(im, m, page);
    assert page % BLOCK <= page;
  }
}
