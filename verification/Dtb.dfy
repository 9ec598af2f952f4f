/**
 Flattened device trees: how a tree is laid out in the structure block (section 5.4
 of the Devicetree Specification), and the memory ranges the kernel reads out of it.
 */
module Dtb {
  import opened Options
  import opened Bytes
  import opened Ranges

  const BEGIN_NODE: nat := 1
  const END_NODE: nat := 2
  const PROP: nat := 3
  const NOP: nat := 4
  const END: nat := 9
  const MAX_DEPTH: nat := 64
  const MAX_RANGES: nat := 16

  // ------------------------------------------------------------------ big endian

  /** Byte `i` of a 32-bit number, the most significant first. */
  function Octet(v: nat, i: nat): byte {
    if i == 0 then v / 0x100 / 0x100 / 0x100 % 0x100
    else if i == 1 then v / 0x100 / 0x100 % 0x100
    else if i == 2 then v / 0x100 % 0x100
    else v % 0x100
  }

  function BE32(v: nat): (r: Buf)
    ensures |r| == 4
  {
    seq(4, i requires 0 <= i < 4 => Octet(v, i))
  }

  function Get32(b: Buf, p: nat): (v: nat)
    requires p + 4 <= |b|
    ensures v < 0x1_0000_0000
  {
    ((b[p] as nat * 0x100 + b[p + 1] as nat) * 0x100 + b[p + 2] as nat) * 0x100 + b[p + 3] as nat
  }

  lemma {:induction false} OctetsSum(v: nat)
    requires v < 0x1_0000_0000
    ensures ((Octet(v, 0) as nat * 0x100 + Octet(v, 1) as nat) * 0x100 + Octet(v, 2) as nat) * 0x100 + Octet(v, 3) as nat == v
  {
    var x := v / 0x100;
    var y := x / 0x100;
    var z := y / 0x100;
    assert v == x * 0x100 + v % 0x100;
    assert x == y * 0x100 + x % 0x100;
    assert y == z * 0x100 + y % 0x100;
    assert z < 0x100;
  }

  lemma {:induction false} BE32Back(b: Buf, p: nat, v: nat)
    requires v < 0x1_0000_0000 && p + 4 <= |b| && b[p..p + 4] == BE32(v)
    ensures Get32(b, p) == v
  {
    var s := BE32(v);
    OctetsSum(v);
    assert b[p] == b[p..p + 4][0] == s[0] && b[p + 1] == b[p..p + 4][1] == s[1];
    assert b[p + 2] == b[p..p + 4][2] == s[2] && b[p + 3] == b[p..p + 4][3] == s[3];
  }

  ghost predicate Multiple4(n: nat) { n == 0 || (n >= 4 && Multiple4(n - 4)) }

  /** The next multiple of four. */
  function Align4(n: nat): (r: nat)
    ensures n <= r < n + 4
  {
    if n == 0 then 0 else if n <= 4 then 4 else 4 + Align4(n - 4)
  }

  lemma {:induction false} Align4Multiple(n: nat)
    ensures Multiple4(Align4(n))
  {
    if n > 4 { Align4Multiple(n - 4); }
  }

  lemma {:induction false} Align4Rounds(n: nat)
    ensures Align4(n) == (n + 3) / 4 * 4
  {
    if n > 4 { Align4Rounds(n - 4); }
  }

  // ----------------------------------------------------------- properties of a node

  /** Cells in force: those for the node's own `reg`, those it gives its children, and whether it is memory. */
  datatype Ctx = Ctx(parentAddr: nat, parentSize: nat, addr: nat, size: nat, memory: bool)

  function CharAt(s: Buf, i: nat): nat { if i < |s| then s[i] as nat else 0 }

  /** The characters of `prefix` stand from `i` on; past the end there are zeros. */
  predicate StartsWith(s: Buf, i: nat, prefix: seq<nat>)
    decreases |prefix|, s
  {
    prefix == [] || (CharAt(s, i) == prefix[0] && StartsWith(s, i + 1, prefix[1..]))
  }

  predicate StartsWithAny(s: Buf, prefixes: seq<seq<nat>>)
    decreases |prefixes|, s
  {
    prefixes != [] && (StartsWith(s, 0, prefixes[0]) || StartsWithAny(s, prefixes[1..]))
  }

  /** "memory", alone or before an address. */
  const MEMORY: seq<seq<nat>> := [[0x6D, 0x65, 0x6D, 0x6F, 0x72, 0x79, 0], [0x6D, 0x65, 0x6D, 0x6F, 0x72, 0x79, 0x40]]

  predicate IsMemoryName(name: Buf) { StartsWithAny(name, MEMORY) }

  datatype Meaning = AddressCells | SizeCells | Reg | Other

  /** What the parser takes a property for: it looks at the first two or three characters of the name. */
  function Kind(strings: Buf, off: nat): Meaning {
    if StartsWith(strings, off, [0x23, 0x61]) then AddressCells
    else if StartsWith(strings, off, [0x23, 0x73]) then SizeCells
    else if StartsWith(strings, off, [0x72, 0x65, 0x67]) then Reg
    else Other
  }

  function Cells(data: Buf, p: nat, n: nat): nat
    requires p + 4 * n <= |data| && n <= 2
  {
    if n == 0 then 0
    else if n == 1 then Get32(data, p)
    else Get32(data, p) * 0x1_0000_0000 + Get32(data, p + 4)
  }

  /** The address and size pairs of a `reg` property. */
  function Tuples(data: Buf, off: nat, ac: nat, sc: nat): seq<Range>
    decreases |data| - off
  {
    if ac == 0 || sc == 0 || ac > 2 || sc > 2 || off + 4 * (ac + sc) > |data| then []
    else [Range(Cells(data, off, ac), Cells(data, off + 4 * ac, sc))] + Tuples(data, off + 4 * (ac + sc), ac, sc)
  }

  function Append(mem: seq<Range>, r: Range): seq<Range> {
    if r.size == 0 || |mem| >= MAX_RANGES then mem else mem + [r]
  }

  /** The collected ranges after more of them: empty ones are skipped, and what does not fit is dropped. */
  function Fill(mem: seq<Range>, more: seq<Range>): seq<Range>
    decreases |more|
  {
    if more == [] then mem else Fill(Append(mem, more[0]), more[1..])
  }

  function NonEmpty(s: seq<Range>): seq<Range> {
    if s == [] then [] else (if s[0].size == 0 then [] else [s[0]]) + NonEmpty(s[1..])
  }

  function First(s: seq<Range>, n: nat): seq<Range> {
    if s == [] || n == 0 then [] else [s[0]] + First(s[1..], n - 1)
  }

  lemma {:induction false} FillMore(mem: seq<Range>, r: Range, rest: seq<Range>)
    requires |mem| < MAX_RANGES
    ensures mem + First([r] + rest, MAX_RANGES - |mem|) == (mem + [r]) + First(rest, MAX_RANGES - |mem| - 1)
  {
    assert ([r] + rest)[1..] == rest;
  }

  /** So what is collected is the first non-empty ones, as many as fit. */
  lemma {:induction false} FillTakesFirst(mem: seq<Range>, more: seq<Range>)
    requires |mem| <= MAX_RANGES
    ensures Fill(mem, more) == mem + First(NonEmpty(more), MAX_RANGES - |mem|)
    decreases |more|
  {
    if more == [] {
      assert mem + [] == mem;
    } else {
      var rest := NonEmpty(more[1..]);
      assert [] + rest == rest;
      FillTakesFirst(Append(mem, more[0]), more[1..]);
      if more[0].size != 0 && |mem| < MAX_RANGES { FillMore(mem, more[0], rest); }
    }
  }

  function OnProp(c: Ctx, kind: Meaning, data: Buf): Ctx {
    match kind
    case AddressCells => if |data| >= 4 then c.(addr := Get32(data, 0)) else c
    case SizeCells => if |data| >= 4 then c.(size := Get32(data, 0)) else c
    case Reg => c
    case Other => c
  }

  function Gather(c: Ctx, kind: Meaning, data: Buf, mem: seq<Range>): seq<Range> {
    if kind == Reg && c.memory then Fill(mem, Tuples(data, 0, c.parentAddr, c.parentSize)) else mem
  }

  function Enter(stack: seq<Ctx>, memory: bool): Ctx {
    if stack == [] then Ctx(2, 2, 2, 2, memory)
    else
      var up := stack[|stack| - 1];
      Ctx(up.addr, up.size, up.addr, up.size, memory)
  }

  // ------------------------------------------------------------------ the parser

  /** How the scan ends: regularly, giving up on what it does not know or on depth, or outside the block. */
  datatype Outcome = Done(mem: seq<Range>) | GaveUp(mem: seq<Range>) | Outside

  function NameEnd(b: Buf, p: nat): (e: nat)
    ensures p <= e
    decreases |b| - p
  {
    if p >= |b| || b[p] == 0 then p else NameEnd(b, p + 1)
  }

  function Top(stack: seq<Ctx>, c: Ctx): seq<Ctx>
    requires stack != []
  {
    stack[..|stack| - 1] + [c]
  }

  /** Where the scan is: the offset, the nodes that are open, and the ranges so far. */
  datatype State = State(p: nat, stack: seq<Ctx>, mem: seq<Range>)

  datatype Move = Go(next: State) | Stop(outcome: Outcome)

  /** A node opened, with the scan going on at `next`. */
  function Opening(s: State, name: Buf, next: nat): State {
    State(next, s.stack + [Enter(s.stack, IsMemoryName(name))], s.mem)
  }

  function OnBegin(b: Buf, s: State): (m: Move)
    requires s.p + 4 <= |b|
    ensures m.Go? ==> s.p < m.next.p <= |b|
  {
    var e := NameEnd(b, s.p + 4);
    if e >= |b| || Align4(e + 1) > |b| then Stop(Outside)
    else if |s.stack| >= MAX_DEPTH then Stop(GaveUp(s.mem))
    else Go(Opening(s, b[s.p + 4..e], Align4(e + 1)))
  }

  /** A property taken in, with the scan going on at `next`. */
  function Applied(s: State, kind: Meaning, data: Buf, next: nat): State {
    if s.stack == [] then State(next, s.stack, s.mem)
    else
      var c := s.stack[|s.stack| - 1];
      State(next, Top(s.stack, OnProp(c, kind, data)), Gather(c, kind, data, s.mem))
  }

  function OnProperty(b: Buf, strings: Buf, s: State): (m: Move)
    requires s.p + 4 <= |b|
    ensures m.Go? ==> s.p < m.next.p <= |b|
  {
    if s.p + 12 > |b| then Stop(Outside)
    else
      var len, off := Get32(b, s.p + 4), Get32(b, s.p + 8);
      var next := Align4(s.p + 12 + len);
      if next > |b| then Stop(Outside)
      else Go(Applied(s, Kind(strings, off), b[s.p + 12..s.p + 12 + len], next))
  }

  /** One token. */
  function Step(b: Buf, strings: Buf, s: State): (m: Move)
    ensures m.Go? ==> s.p < m.next.p <= |b|
  {
    if s.p + 4 > |b| then Stop(Outside)
    else
      var token := Get32(b, s.p);
      if token == END then Stop(Done(s.mem))
      else if token == BEGIN_NODE then OnBegin(b, s)
      else if token == END_NODE then
        if s.stack == [] then Stop(Outside) else Go(State(s.p + 4, s.stack[..|s.stack| - 1], s.mem))
      else if token == NOP then Go(s.(p := s.p + 4))
      else if token == PROP then OnProperty(b, strings, s)
      else Stop(GaveUp(s.mem))
  }

  function Scan(b: Buf, strings: Buf, s: State): Outcome
    decreases |b| - s.p
  {
    var m := Step(b, strings, s);
    if m.Stop? then m.outcome else Scan(b, strings, m.next)
  }

  /** The scan as the kernel's loop, with its stack of open nodes. */
  method CollectMemory(b: Buf, strings: Buf) returns (r: Outcome)
    ensures r == Scan(b, strings, State(0, [], []))
  {
    var s := State(0, [], []);
    while true
      invariant Scan(b, strings, State(0, [], [])) == Scan(b, strings, s)
      decreases |b| - s.p
    {
      var m := Step(b, strings, s);
      if m.Stop? { return m.outcome; }
      s := m.next;
    }
  }

  // -------------------------------------------------------------------- encoding

  datatype Item = Prop(off: nat, data: Buf) | Nop

  /** A node: its name, its properties with padding tokens among them, and its children. */
  datatype Tree = Node(name: Buf, items: seq<Item>, children: seq<Tree>)

  predicate ItemOk(x: Item) {
    x.Prop? ==> x.off < 0x1_0000_0000 && |x.data| < 0x1_0000_0000
  }

  ghost predicate ItemsOk(items: seq<Item>) {
    forall i :: 0 <= i < |items| ==> ItemOk(items[i])
  }

  ghost predicate Encodable(t: Tree) {
    && (forall i :: 0 <= i < |t.name| ==> t.name[i] != 0)
    && ItemsOk(t.items)
    && (forall i :: 0 <= i < |t.children| ==> Encodable(t.children[i]))
  }

  function Padded(s: Buf): (r: Buf)
    ensures |r| == Align4(|s|) && r[..|s|] == s
  {
    s + Zeros(Align4(|s|) - |s|)
  }

  function EncItem(x: Item): Buf
    requires ItemOk(x)
  {
    match x
    case Nop => BE32(NOP)
    case Prop(off, data) => BE32(PROP) + BE32(|data|) + BE32(off) + Padded(data)
  }

  ghost function EncItems(items: seq<Item>): Buf
    requires ItemsOk(items)
  {
    if items == [] then [] else EncItem(items[0]) + EncItems(items[1..])
  }

  ghost function Enc(t: Tree): Buf
    requires Encodable(t)
    decreases t, 1, 0
  {
    BE32(BEGIN_NODE) + Padded(t.name + [0]) + EncItems(t.items) + EncAll(t, 0) + BE32(END_NODE)
  }

  /** The children of `t` from the `i`th on. */
  ghost function EncAll(t: Tree, i: nat): Buf
    requires Encodable(t) && i <= |t.children|
    decreases t, 0, |t.children| - i
  {
    if i == |t.children| then [] else Enc(t.children[i]) + EncAll(t, i + 1)
  }

  // ------------------------------------------------------------ what should be found

  /** The context of a node once its properties are read. */
  ghost function After(c: Ctx, strings: Buf, items: seq<Item>): Ctx
    decreases |items|
  {
    if items == [] then c
    else After(if items[0].Prop? then OnProp(c, Kind(strings, items[0].off), items[0].data) else c, strings, items[1..])
  }

  /** The ranges of the `reg` properties of a node. */
  ghost function RegRanges(strings: Buf, items: seq<Item>, ac: nat, sc: nat): seq<Range>
    decreases |items|
  {
    if items == [] then []
    else (if items[0].Prop? && Kind(strings, items[0].off) == Reg then Tuples(items[0].data, 0, ac, sc) else [])
         + RegRanges(strings, items[1..], ac, sc)
  }

  /** The memory ranges of a tree in document order, under cells `ac` and `sc`. */
  ghost function Memory(strings: Buf, t: Tree, ac: nat, sc: nat): seq<Range>
    decreases t, 1, 0
  {
    var c := After(Ctx(ac, sc, ac, sc, false), strings, t.items);
    (if IsMemoryName(t.name) then RegRanges(strings, t.items, ac, sc) else [])
    + MemoryAll(strings, t, c.addr, c.size, 0)
  }

  ghost function MemoryAll(strings: Buf, t: Tree, ac: nat, sc: nat, i: nat): seq<Range>
    requires i <= |t.children|
    decreases t, 0, |t.children| - i
  {
    if i == |t.children| then [] else Memory(strings, t.children[i], ac, sc) + MemoryAll(strings, t, ac, sc, i + 1)
  }

  ghost function Depth(t: Tree): nat
    ensures Depth(t) >= 1
    decreases t, 1, 0
  {
    1 + DepthAll(t, 0)
  }

  ghost function DepthAll(t: Tree, i: nat): nat
    requires i <= |t.children|
    decreases t, 0, |t.children| - i
  {
    if i == |t.children| then 0
    else
      var d, rest := Depth(t.children[i]), DepthAll(t, i + 1);
      if d > rest then d else rest
  }

  // --------------------------------------------- the same, as the specification says

  const ADDRESS_CELLS: seq<nat> :=
    [0x23, 0x61, 0x64, 0x64, 0x72, 0x65, 0x73, 0x73, 0x2D, 0x63, 0x65, 0x6C, 0x6C, 0x73]
  const SIZE_CELLS: seq<nat> := [0x23, 0x73, 0x69, 0x7A, 0x65, 0x2D, 0x63, 0x65, 0x6C, 0x6C, 0x73]
  const REG: seq<nat> := [0x72, 0x65, 0x67]

  /** The string at `off`, up to its terminator, is `name`. */
  predicate Named(strings: Buf, off: nat, name: seq<nat>) { StartsWith(strings, off, name + [0]) }

  /** What a property is, by its whole name. */
  function Exact(strings: Buf, off: nat): Meaning {
    if Named(strings, off, ADDRESS_CELLS) then AddressCells
    else if Named(strings, off, SIZE_CELLS) then SizeCells
    else if Named(strings, off, REG) then Reg
    else Other
  }

  /** A number of `n` cells, most significant first. */
  function Number(data: Buf, p: nat, n: nat): nat
    requires p + 4 * n <= |data|
    decreases n
  {
    if n == 0 then 0 else Number(data, p, n - 1) * 0x1_0000_0000 + Get32(data, p + 4 * (n - 1))
  }

  /** The address and size pairs of a `reg` property, whatever the cell counts. */
  function SpecTuples(data: Buf, off: nat, ac: nat, sc: nat): seq<Range>
    decreases |data| - off
  {
    if ac + sc == 0 || off + 4 * (ac + sc) > |data| then []
    else [Range(Number(data, off, ac), Number(data, off + 4 * ac, sc))] + SpecTuples(data, off + 4 * (ac + sc), ac, sc)
  }

  ghost function SpecRanges(strings: Buf, items: seq<Item>, ac: nat, sc: nat): seq<Range>
    decreases |items|
  {
    if items == [] then []
    else (if items[0].Prop? && Exact(strings, items[0].off) == Reg then SpecTuples(items[0].data, 0, ac, sc) else [])
         + SpecRanges(strings, items[1..], ac, sc)
  }

  /** The cell count that a node's own properties state, if they do: a property of one cell. */
  ghost function Stated(strings: Buf, items: seq<Item>, kind: Meaning): Option<nat>
    decreases |items|
  {
    if items == [] then None
    else
      var x := items[|items| - 1];
      if x.Prop? && Exact(strings, x.off) == kind && |x.data| == 4 then Some(Get32(x.data, 0))
      else Stated(strings, items[..|items| - 1], kind)
  }

  function Or(x: Option<nat>, default_: nat): nat { if x.Some? then x.value else default_ }

  /** The memory ranges with the cells each parent states, or else the defaults of section 2.3.5. */
  ghost function SpecMemory(strings: Buf, t: Tree, ac: nat, sc: nat): seq<Range>
    decreases t, 1, 0
  {
    (if IsMemoryName(t.name) then SpecRanges(strings, t.items, ac, sc) else [])
    + SpecMemoryAll(strings, t, Or(Stated(strings, t.items, AddressCells), 2), Or(Stated(strings, t.items, SizeCells), 1), 0)
  }

  ghost function SpecMemoryAll(strings: Buf, t: Tree, ac: nat, sc: nat, i: nat): seq<Range>
    requires i <= |t.children|
    decreases t, 0, |t.children| - i
  {
    if i == |t.children| then []
    else SpecMemory(strings, t.children[i], ac, sc) + SpecMemoryAll(strings, t, ac, sc, i + 1)
  }

  /** A name that begins like one of the three is that one, and a cell count is one cell. */
  ghost predicate PlainItem(strings: Buf, x: Item) {
    x.Prop? ==>
      && (Kind(strings, x.off) != Other ==> Exact(strings, x.off) == Kind(strings, x.off))
      && (Kind(strings, x.off) == AddressCells || Kind(strings, x.off) == SizeCells ==> |x.data| == 4)
  }

  ghost predicate PlainItems(strings: Buf, items: seq<Item>) {
    forall i :: 0 <= i < |items| ==> PlainItem(strings, items[i])
  }

  ghost predicate Plain(strings: Buf, t: Tree) {
    PlainItems(strings, t.items) && forall i :: 0 <= i < |t.children| ==> Plain(strings, t.children[i])
  }

  /** A memory node with a `reg` property. */
  ghost predicate Bears(strings: Buf, t: Tree) {
    IsMemoryName(t.name) && exists i :: 0 <= i < |t.items| && t.items[i].Prop? && Kind(strings, t.items[i].off) == Reg
  }

  predicate Fits(n: Option<nat>) { n.Some? && 1 <= n.value <= 2 }

  /** Both counts are stated wherever a child needs them, and are one or two. */
  ghost predicate CellsStated(strings: Buf, t: Tree) {
    && ((exists i :: 0 <= i < |t.children| && Bears(strings, t.children[i])) ==>
          Fits(Stated(strings, t.items, AddressCells)) && Fits(Stated(strings, t.items, SizeCells)))
    && forall i :: 0 <= i < |t.children| ==> CellsStated(strings, t.children[i])
  }
}
