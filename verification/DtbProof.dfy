/** The scan of an encoded tree yields its memory ranges, whatever the tree. */
module DtbProof {
  import opened Options
  import opened Bytes
  import opened Ranges
  import opened Dtb

  /** The bytes `x` stand at `p`. */
  ghost predicate Stands(b: Buf, p: nat, x: Buf) { p + |x| <= |b| && b[p..p + |x|] == x }

  lemma {:induction false} StandsSplit(b: Buf, p: nat, x: Buf, y: Buf)
    requires Stands(b, p, x + y)
    ensures Stands(b, p, x) && Stands(b, p + |x|, y)
  {
    var z := b[p..p + |x| + |y|];
    assert b[p..p + |x|] == z[..|x|] && b[p + |x|..p + |x| + |y|] == z[|x|..];
    assert (x + y)[..|x|] == x && (x + y)[|x|..] == y;
  }

  lemma {:induction false} StandsToken(b: Buf, p: nat, v: nat)
    requires v < 0x1_0000_0000 && Stands(b, p, BE32(v))
    ensures p + 4 <= |b| && Get32(b, p) == v
  {
    BE32Back(b, p, v);
  }

  lemma {:induction false} AlignShift(p: nat, n: nat)
    requires Multiple4(p)
    ensures Align4(p + n) == p + Align4(n)
    decreases p
  {
    if p > 0 {
      AlignShift(p - 4, n);
      AlignMore(p - 4 + n);
    }
  }

  lemma {:induction false} AlignMore(n: nat)
    ensures Align4(n + 4) == Align4(n) + 4
  {
  }

  lemma {:induction false} NameEndIs(b: Buf, p: nat, name: Buf)
    requires Stands(b, p, name + [0]) && forall i :: 0 <= i < |name| ==> name[i] != 0
    ensures NameEnd(b, p) == p + |name| < |b|
    decreases |name|
  {
    var whole := name + [0];
    assert b[p] == b[p..p + |whole|][0] == whole[0];
    if name != [] {
      assert name + [0] == [name[0]] + (name[1..] + [0]);
      StandsSplit(b, p, [name[0]], name[1..] + [0]);
      NameEndIs(b, p + 1, name[1..]);
    }
  }

  // ------------------------------------------------------------ collecting ranges

  /** Collecting one lot after the other is collecting them together. */
  lemma {:induction false} FillFill(mem: seq<Range>, a: seq<Range>, b: seq<Range>)
    ensures Fill(Fill(mem, a), b) == Fill(mem, a + b)
    decreases |a|
  {
    if a == [] {
      assert a + b == b;
    } else {
      assert (a + b)[1..] == a[1..] + b;
      FillFill(Append(mem, a[0]), a[1..], b);
    }
  }

  // ------------------------------------------------------------ steps of the scan

  /** State `i` of the path is followed by the next one. */
  ghost predicate Follows(b: Buf, strings: Buf, ss: seq<State>, i: nat) {
    i + 1 < |ss| ==> Step(b, strings, ss[i]) == Go(ss[i + 1])
  }

  /** A path of the scan from `s` to `t`. */
  ghost predicate Path(b: Buf, strings: Buf, ss: seq<State>, s: State, t: State) {
    && ss != [] && ss[0] == s && ss[|ss| - 1] == t
    && forall i: nat :: Follows(b, strings, ss, i)
  }

  ghost predicate Leads(b: Buf, strings: Buf, s: State, t: State) {
    exists ss: seq<State> :: Path(b, strings, ss, s, t)
  }

  lemma {:induction false} Here(b: Buf, strings: Buf, s: State)
    ensures Leads(b, strings, s, s)
  {
    assert forall i: nat :: Follows(b, strings, [s], i);
    assert Path(b, strings, [s], s, s);
  }

  lemma {:induction false} OneStep(b: Buf, strings: Buf, s: State, t: State)
    requires Step(b, strings, s) == Go(t)
    ensures Leads(b, strings, s, t)
  {
    var ss := [s, t];
    forall i: nat ensures Follows(b, strings, ss, i) { assert i + 1 < |ss| ==> i == 0; }
    assert Path(b, strings, ss, s, t);
  }

  lemma {:induction false} Onward(b: Buf, strings: Buf, s: State, t: State, u: State)
    requires Leads(b, strings, s, t) && Leads(b, strings, t, u)
    ensures Leads(b, strings, s, u)
  {
    var x :| Path(b, strings, x, s, t);
    var y :| Path(b, strings, y, t, u);
    var z := x + y[1..];
    forall i: nat ensures Follows(b, strings, z, i) {
      assert Follows(b, strings, x, i);
      if i + 1 >= |x| {
        var j := i + 1 - |x|;
        assert Follows(b, strings, y, j);
      }
    }
    assert Path(b, strings, z, s, u);
  }

  lemma {:induction false} PathScans(b: Buf, strings: Buf, ss: seq<State>, s: State, t: State)
    requires Path(b, strings, ss, s, t)
    ensures Scan(b, strings, s) == Scan(b, strings, t)
    decreases |ss|
  {
    if |ss| > 1 {
      assert Follows(b, strings, ss, 0);
      var rest := ss[1..];
      forall i: nat ensures Follows(b, strings, rest, i) {
        var j := i + 1;
        assert Follows(b, strings, ss, j);
      }
      PathScans(b, strings, rest, ss[1], t);
    }
  }

  lemma {:induction false} LeadsScans(b: Buf, strings: Buf, s: State, t: State)
    requires Leads(b, strings, s, t)
    ensures Scan(b, strings, s) == Scan(b, strings, t)
  {
    var ss :| Path(b, strings, ss, s, t);
    PathScans(b, strings, ss, s, t);
  }

  // ------------------------------------------------------------------- one token

  lemma {:induction false} LeadsNop(b: Buf, strings: Buf, s: State)
    requires Stands(b, s.p, BE32(NOP))
    ensures Leads(b, strings, s, s.(p := s.p + 4))
  {
    StandsToken(b, s.p, NOP);
    OneStep(b, strings, s, s.(p := s.p + 4));
  }

  lemma {:induction false} PropFields(b: Buf, p: nat, off: nat, data: Buf)
    requires off < 0x1_0000_0000 && |data| < 0x1_0000_0000 && Stands(b, p, EncItem(Prop(off, data)))
    ensures p + 12 + Align4(|data|) == p + |EncItem(Prop(off, data))| <= |b|
    ensures Get32(b, p) == PROP && Get32(b, p + 4) == |data| && Get32(b, p + 8) == off
    ensures b[p + 12..p + 12 + |data|] == data
  {
    var head := BE32(PROP) + BE32(|data|) + BE32(off);
    StandsSplit(b, p, head, Padded(data));
    StandsSplit(b, p, BE32(PROP) + BE32(|data|), BE32(off));
    StandsSplit(b, p, BE32(PROP), BE32(|data|));
    StandsToken(b, p, PROP);
    StandsToken(b, p + 4, |data|);
    StandsToken(b, p + 8, off);
    StandsSplit(b, p + 12, data, Zeros(Align4(|data|) - |data|));
  }

  lemma {:induction false} PropGoes(b: Buf, strings: Buf, s: State, off: nat, data: Buf, next: nat)
    requires s.p + 12 + |data| <= next <= |b| && next == Align4(s.p + 12 + |data|)
    requires Get32(b, s.p + 4) == |data| && Get32(b, s.p + 8) == off && b[s.p + 12..s.p + 12 + |data|] == data
    ensures OnProperty(b, strings, s) == Go(Applied(s, Kind(strings, off), data, next))
  {
  }

  lemma {:induction false} LeadsPropAt(b: Buf, strings: Buf, s: State, t: State)
    requires s.p + 4 <= |b| && Get32(b, s.p) == PROP && OnProperty(b, strings, s) == Go(t)
    ensures Leads(b, strings, s, t)
  {
    OneStep(b, strings, s, t);
  }

  lemma {:induction false} PropSteps(b: Buf, strings: Buf, s: State, off: nat, data: Buf)
    requires off < 0x1_0000_0000 && |data| < 0x1_0000_0000 && Multiple4(s.p)
    requires Stands(b, s.p, EncItem(Prop(off, data)))
    ensures s.p + 4 <= |b| && Get32(b, s.p) == PROP
    ensures OnProperty(b, strings, s) == Go(Applied(s, Kind(strings, off), data, s.p + |EncItem(Prop(off, data))|))
  {
    PropFields(b, s.p, off, data);
    Align12(s.p);
    AlignShift(s.p + 12, |data|);
    PropGoes(b, strings, s, off, data, s.p + |EncItem(Prop(off, data))|);
  }

  lemma {:induction false} LeadsProp(b: Buf, strings: Buf, s: State, off: nat, data: Buf)
    requires off < 0x1_0000_0000 && |data| < 0x1_0000_0000 && Multiple4(s.p)
    requires Stands(b, s.p, EncItem(Prop(off, data)))
    ensures Leads(b, strings, s, Applied(s, Kind(strings, off), data, s.p + |EncItem(Prop(off, data))|))
  {
    PropSteps(b, strings, s, off, data);
    LeadsPropAt(b, strings, s, Applied(s, Kind(strings, off), data, s.p + |EncItem(Prop(off, data))|));
  }

  lemma {:induction false} Align12(p: nat)
    requires Multiple4(p)
    ensures Multiple4(p + 4) && Multiple4(p + 12)
  {
    assert Multiple4(p + 8);
  }

  lemma {:induction false} BeginFields(b: Buf, p: nat, name: Buf)
    requires forall i :: 0 <= i < |name| ==> name[i] != 0
    requires Stands(b, p, BE32(BEGIN_NODE) + Padded(name + [0]))
    ensures p + 4 + Align4(|name| + 1) <= |b| && Get32(b, p) == BEGIN_NODE
    ensures NameEnd(b, p + 4) == p + 4 + |name| < |b| && b[p + 4..p + 4 + |name|] == name
  {
    StandsSplit(b, p, BE32(BEGIN_NODE), Padded(name + [0]));
    StandsToken(b, p, BEGIN_NODE);
    StandsSplit(b, p + 4, name + [0], Zeros(Align4(|name| + 1) - (|name| + 1)));
    NameEndIs(b, p + 4, name);
    StandsSplit(b, p + 4, name, [0]);
  }

  lemma {:induction false} LeadsBegin(b: Buf, strings: Buf, s: State, name: Buf)
    requires Multiple4(s.p) && |s.stack| < MAX_DEPTH && forall i :: 0 <= i < |name| ==> name[i] != 0
    requires Stands(b, s.p, BE32(BEGIN_NODE) + Padded(name + [0]))
    ensures Leads(b, strings, s, Opening(s, name, s.p + 4 + |Padded(name + [0])|))
  {
    BeginFields(b, s.p, name);
    Align12(s.p);
    AlignShift(s.p + 4, |name| + 1);
    var next := s.p + 4 + |Padded(name + [0])|;
    BeginGoes(b, s, name, next);
    LeadsBeginAt(b, strings, s, Opening(s, name, next));
  }

  lemma {:induction false} BeginGoes(b: Buf, s: State, name: Buf, next: nat)
    requires |s.stack| < MAX_DEPTH && s.p + 4 + |name| < next <= |b| && next == Align4(s.p + 4 + |name| + 1)
    requires NameEnd(b, s.p + 4) == s.p + 4 + |name| && b[s.p + 4..s.p + 4 + |name|] == name
    ensures OnBegin(b, s) == Go(Opening(s, name, next))
  {
  }

  lemma {:induction false} LeadsBeginAt(b: Buf, strings: Buf, s: State, t: State)
    requires s.p + 4 <= |b| && Get32(b, s.p) == BEGIN_NODE && OnBegin(b, s) == Go(t)
    ensures Leads(b, strings, s, t)
  {
    OneStep(b, strings, s, t);
  }

  lemma {:induction false} LeadsEnd(b: Buf, strings: Buf, s: State)
    requires Stands(b, s.p, BE32(END_NODE)) && s.stack != []
    ensures Leads(b, strings, s, State(s.p + 4, s.stack[..|s.stack| - 1], s.mem))
  {
    StandsToken(b, s.p, END_NODE);
    OneStep(b, strings, s, State(s.p + 4, s.stack[..|s.stack| - 1], s.mem));
  }

  // ------------------------------------------------------------------ properties

  lemma {:induction false} TopTop(stack: seq<Ctx>, c: Ctx, e: Ctx)
    requires stack != []
    ensures Top(stack, c) != [] && Top(stack, c)[|Top(stack, c)| - 1] == c && Top(Top(stack, c), e) == Top(stack, e)
  {
    assert Top(stack, c)[..|stack| - 1] == stack[..|stack| - 1];
  }

  lemma {:induction false} TopSame(stack: seq<Ctx>)
    requires stack != []
    ensures Top(stack, stack[|stack| - 1]) == stack
  {
  }

  function Gathered(c: Ctx, mem: seq<Range>, found: seq<Range>): seq<Range> {
    if c.memory then Fill(mem, found) else mem
  }

  lemma {:induction false} ItemAligned(x: Item)
    requires ItemOk(x)
    ensures Multiple4(|EncItem(x)|)
  {
    if x.Prop? {
      Align4Multiple(|x.data|);
      Sum4(12, |Padded(x.data)|);
    }
  }

  /** The state after an item, and after all of them. */
  ghost function PastItem(s: State, strings: Buf, x: Item): State
    requires s.stack != [] && ItemOk(x)
  {
    match x
    case Nop => s.(p := s.p + 4)
    case Prop(off, data) =>
      Applied(s, Kind(strings, off), data, s.p + |EncItem(x)|)
  }

  ghost function Past(s: State, strings: Buf, items: seq<Item>): State
    requires s.stack != [] && ItemsOk(items)
    decreases |items|
  {
    if items == [] then s else Past(PastItem(s, strings, items[0]), strings, items[1..])
  }

  /** One property or padding token. */
  lemma {:induction false} LeadsItem(b: Buf, strings: Buf, s: State, x: Item)
    requires ItemOk(x) && Multiple4(s.p) && s.stack != [] && Stands(b, s.p, EncItem(x))
    ensures Leads(b, strings, s, PastItem(s, strings, x))
  {
    if x.Nop? {
      LeadsNop(b, strings, s);
    } else {
      LeadsProp(b, strings, s, x.off, x.data);
    }
  }

  lemma {:induction false} PastItemPlace(s: State, strings: Buf, x: Item)
    requires ItemOk(x) && Multiple4(s.p) && s.stack != []
    ensures var s1 := PastItem(s, strings, x);
            s1.p == s.p + |EncItem(x)| && Multiple4(s1.p) && s1.stack != []
  {
    ItemAligned(x);
    Sum4(s.p, |EncItem(x)|);
  }

  lemma {:induction false} GatheredTwice(c: Ctx, mem: seq<Range>, a: seq<Range>, b: seq<Range>)
    ensures Gathered(c, Gathered(c, mem, a), b) == Gathered(c, mem, a + b)
  {
    FillFill(mem, a, b);
  }

  lemma {:induction false} Sum4(a: nat, b: nat)
    requires Multiple4(a) && Multiple4(b)
    ensures Multiple4(a + b)
  {
    if a > 0 { Sum4(a - 4, b); }
  }

  lemma {:induction false} ItemsAligned(items: seq<Item>)
    requires ItemsOk(items)
    ensures Multiple4(|EncItems(items)|)
    decreases |items|
  {
    if items != [] {
      ItemAligned(items[0]);
      assert ItemsOk(items[1..]);
      ItemsAligned(items[1..]);
      Sum4(|EncItem(items[0])|, |EncItems(items[1..])|);
    }
  }

  lemma {:induction false} ItemsTail(items: seq<Item>)
    requires ItemsOk(items) && items != []
    ensures ItemsOk(items[1..]) && EncItems(items) == EncItem(items[0]) + EncItems(items[1..])
    ensures Multiple4(|EncItem(items[0])|)
  {
    ItemAligned(items[0]);
  }

  lemma {:induction false} ItemsStand(b: Buf, p: nat, items: seq<Item>)
    requires ItemsOk(items) && items != [] && Stands(b, p, EncItems(items))
    ensures ItemOk(items[0]) && ItemsOk(items[1..])
    ensures Stands(b, p, EncItem(items[0])) && Stands(b, p + |EncItem(items[0])|, EncItems(items[1..]))
  {
    ItemsTail(items);
    StandsSplit(b, p, EncItem(items[0]), EncItems(items[1..]));
  }

  lemma {:induction false} LeadsFirst(b: Buf, strings: Buf, s: State, x: Item, t: State)
    requires ItemOk(x) && Multiple4(s.p) && s.stack != [] && Stands(b, s.p, EncItem(x))
    requires Leads(b, strings, PastItem(s, strings, x), t)
    ensures Leads(b, strings, s, t)
  {
    LeadsItem(b, strings, s, x);
    Onward(b, strings, s, PastItem(s, strings, x), t);
  }

  lemma {:induction false} FirstStands(b: Buf, strings: Buf, s: State, items: seq<Item>)
    requires ItemsOk(items) && items != [] && Multiple4(s.p) && s.stack != [] && Stands(b, s.p, EncItems(items))
    ensures ItemOk(items[0]) && ItemsOk(items[1..]) && Stands(b, s.p, EncItem(items[0]))
    ensures var s1 := PastItem(s, strings, items[0]);
            Multiple4(s1.p) && s1.stack != [] && Stands(b, s1.p, EncItems(items[1..]))
  {
    ItemsStand(b, s.p, items);
    PastItemPlace(s, strings, items[0]);
  }

  /** All the properties of a node. */
  lemma {:induction false} LeadsItems(b: Buf, strings: Buf, s: State, items: seq<Item>)
    requires ItemsOk(items) && Multiple4(s.p) && s.stack != [] && Stands(b, s.p, EncItems(items))
    ensures Leads(b, strings, s, Past(s, strings, items))
    decreases |items|
  {
    if items == [] {
      Here(b, strings, s);
    } else {
      FirstStands(b, strings, s, items);
      var s1 := PastItem(s, strings, items[0]);
      LeadsItems(b, strings, s1, items[1..]);
      LeadsFirst(b, strings, s, items[0], Past(s1, strings, items[1..]));
    }
  }

  /** The same in one: where the scan is, what cells the node has, and what it adds. */
  ghost function Passed(s: State, strings: Buf, items: seq<Item>): State
    requires s.stack != [] && ItemsOk(items)
  {
    var c := s.stack[|s.stack| - 1];
    State(s.p + |EncItems(items)|, Top(s.stack, After(c, strings, items)),
          Gathered(c, s.mem, RegRanges(strings, items, c.parentAddr, c.parentSize)))
  }

  lemma {:induction false} PassedNothing(s: State, strings: Buf)
    requires s.stack != []
    ensures Passed(s, strings, []) == s
  {
    TopSame(s.stack);
  }

  lemma {:induction false} FirstFound(c: Ctx, strings: Buf, items: seq<Item>, mem: seq<Range>)
    requires items != [] && items[0].Prop?
    ensures var x := items[0];
            var kind := Kind(strings, x.off);
            var rest := RegRanges(strings, items[1..], c.parentAddr, c.parentSize);
            Gathered(c, Gather(c, kind, x.data, mem), rest)
               == Gathered(c, mem, RegRanges(strings, items, c.parentAddr, c.parentSize))
  {
    var x := items[0];
    var rest := RegRanges(strings, items[1..], c.parentAddr, c.parentSize);
    if Kind(strings, x.off) == Reg {
      GatheredTwice(c, mem, Tuples(x.data, 0, c.parentAddr, c.parentSize), rest);
    } else {
      assert [] + rest == rest;
    }
  }

  lemma {:induction false} PassedNop(s: State, strings: Buf, items: seq<Item>)
    requires s.stack != [] && ItemsOk(items) && items != [] && items[0].Nop? && ItemsOk(items[1..])
    ensures PastItem(s, strings, items[0]).stack == s.stack
    ensures Passed(PastItem(s, strings, items[0]), strings, items[1..]) == Passed(s, strings, items)
  {
    var c := s.stack[|s.stack| - 1];
    var rest := RegRanges(strings, items[1..], c.parentAddr, c.parentSize);
    assert [] + rest == rest;
  }

  lemma {:induction false} PassedProp(s: State, strings: Buf, items: seq<Item>)
    requires s.stack != [] && ItemsOk(items) && items != [] && items[0].Prop? && ItemsOk(items[1..])
    ensures var s1 := PastItem(s, strings, items[0]);
            && s1.stack != []
            && Passed(s1, strings, items[1..]) == Passed(s, strings, items)
  {
    var c, x := s.stack[|s.stack| - 1], items[0];
    FirstFound(c, strings, items, s.mem);
    TopTop(s.stack, OnProp(c, Kind(strings, x.off), x.data), After(c, strings, items));
  }

  lemma {:induction false} PassedStep(s: State, strings: Buf, items: seq<Item>)
    requires s.stack != [] && ItemsOk(items) && items != []
    ensures var s1 := PastItem(s, strings, items[0]);
            && s1.stack != [] && ItemsOk(items[1..])
            && Passed(s1, strings, items[1..]) == Passed(s, strings, items)
  {
    ItemsTail(items);
    if items[0].Prop? { PassedProp(s, strings, items); } else { PassedNop(s, strings, items); }
  }

  lemma {:induction false} PastIsPassed(s: State, strings: Buf, items: seq<Item>)
    requires s.stack != [] && ItemsOk(items)
    ensures Past(s, strings, items) == Passed(s, strings, items)
    decreases |items|
  {
    if items == [] {
      PassedNothing(s, strings);
    } else {
      PassedStep(s, strings, items);
      PastIsPassed(PastItem(s, strings, items[0]), strings, items[1..]);
    }
  }

  // ----------------------------------------------------------------- whole trees

  lemma {:induction false} LeadsProperties(b: Buf, strings: Buf, s: State, items: seq<Item>)
    requires ItemsOk(items) && Multiple4(s.p) && s.stack != [] && Stands(b, s.p, EncItems(items))
    ensures Leads(b, strings, s, Passed(s, strings, items))
  {
    LeadsItems(b, strings, s, items);
    PastIsPassed(s, strings, items);
  }

  lemma {:induction false} EncAligned(t: Tree)
    requires Encodable(t)
    ensures Multiple4(|Enc(t)|)
    decreases t, 1, 0
  {
    EncAllAligned(t, 0);
    ItemsAligned(t.items);
    Align4Multiple(|t.name| + 1);
    Sum4(4, |Padded(t.name + [0])|);
    Sum4(4 + |Padded(t.name + [0])|, |EncItems(t.items)|);
    Sum4(4 + |Padded(t.name + [0])| + |EncItems(t.items)|, |EncAll(t, 0)|);
    Sum4(4 + |Padded(t.name + [0])| + |EncItems(t.items)| + |EncAll(t, 0)|, 4);
  }

  lemma {:induction false} EncAllAligned(t: Tree, i: nat)
    requires Encodable(t) && i <= |t.children|
    ensures Multiple4(|EncAll(t, i)|)
    decreases t, 0, |t.children| - i
  {
    if i < |t.children| {
      EncAligned(t.children[i]);
      EncAllAligned(t, i + 1);
      Sum4(|Enc(t.children[i])|, |EncAll(t, i + 1)|);
    }
  }

  /** The parts of an encoded node. */
  lemma {:induction false} NodeParts(b: Buf, p: nat, t: Tree)
    requires Encodable(t) && Stands(b, p, Enc(t))
    ensures var p1 := p + 4 + |Padded(t.name + [0])|;
            var p2 := p1 + |EncItems(t.items)|;
            var p3 := p2 + |EncAll(t, 0)|;
            && Stands(b, p, BE32(BEGIN_NODE) + Padded(t.name + [0]))
            && Stands(b, p1, EncItems(t.items)) && Stands(b, p2, EncAll(t, 0)) && Stands(b, p3, BE32(END_NODE))
            && p3 + 4 == p + |Enc(t)|
  {
    var head := BE32(BEGIN_NODE) + Padded(t.name + [0]);
    StandsSplit(b, p, head + EncItems(t.items) + EncAll(t, 0), BE32(END_NODE));
    StandsSplit(b, p, head + EncItems(t.items), EncAll(t, 0));
    StandsSplit(b, p, head, EncItems(t.items));
  }

  /** Each of them starts at a multiple of four. */
  lemma {:induction false} NodeAligned(p: nat, t: Tree)
    requires Encodable(t) && Multiple4(p)
    ensures var p1 := p + 4 + |Padded(t.name + [0])|; Multiple4(p1) && Multiple4(p1 + |EncItems(t.items)|)
  {
    ItemsAligned(t.items);
    Align4Multiple(|t.name| + 1);
    Sum4(p, 4);
    Sum4(p + 4, |Padded(t.name + [0])|);
    Sum4(p + 4 + |Padded(t.name + [0])|, |EncItems(t.items)|);
  }

  lemma {:induction false} AfterCells(c: Ctx, d: Ctx, strings: Buf, items: seq<Item>)
    requires c.addr == d.addr && c.size == d.size
    ensures var x, y := After(c, strings, items), After(d, strings, items); x.addr == y.addr && x.size == y.size
    decreases |items|
  {
    if items != [] {
      var x := items[0];
      AfterCells(if x.Prop? then OnProp(c, Kind(strings, x.off), x.data) else c,
                 if x.Prop? then OnProp(d, Kind(strings, x.off), x.data) else d, strings, items[1..]);
    }
  }

  /** The state after a whole node. */
  ghost function Visited(s: State, strings: Buf, t: Tree): State
    requires Encodable(t)
  {
    var c := Enter(s.stack, false);
    State(s.p + |Enc(t)|, s.stack, Fill(s.mem, Memory(strings, t, c.parentAddr, c.parentSize)))
  }

  /** The state after the children of the open node, from the `i`th on. */
  ghost function VisitedAll(s: State, strings: Buf, t: Tree, i: nat): State
    requires Encodable(t) && i <= |t.children| && s.stack != []
  {
    var c := s.stack[|s.stack| - 1];
    State(s.p + |EncAll(t, i)|, s.stack, Fill(s.mem, MemoryAll(strings, t, c.addr, c.size, i)))
  }

  lemma {:induction false} MemoryAllStep(mem: seq<Range>, strings: Buf, t: Tree, ac: nat, sc: nat, i: nat)
    requires i < |t.children|
    ensures Fill(Fill(mem, Memory(strings, t.children[i], ac, sc)), MemoryAll(strings, t, ac, sc, i + 1))
            == Fill(mem, MemoryAll(strings, t, ac, sc, i))
  {
    FillFill(mem, Memory(strings, t.children[i], ac, sc), MemoryAll(strings, t, ac, sc, i + 1));
  }

  lemma {:induction false} EncAllStep(t: Tree, i: nat)
    requires Encodable(t) && i < |t.children|
    ensures EncAll(t, i) == Enc(t.children[i]) + EncAll(t, i + 1)
  {
  }

  lemma {:induction false} VisitedStep(s: State, strings: Buf, t: Tree, i: nat)
    requires Encodable(t) && i < |t.children| && s.stack != []
    ensures VisitedAll(Visited(s, strings, t.children[i]), strings, t, i + 1) == VisitedAll(s, strings, t, i)
  {
    var c := s.stack[|s.stack| - 1];
    var s1 := Visited(s, strings, t.children[i]);
    assert s1.stack == s.stack && s1.mem == Fill(s.mem, Memory(strings, t.children[i], c.addr, c.size));
    MemoryAllStep(s.mem, strings, t, c.addr, c.size, i);
    EncAllStep(t, i);
  }

  /** The states at the start of a node's properties, at its children, and at its end. */
  ghost function Opened(s: State, t: Tree): State {
    Opening(s, t.name, s.p + 4 + |Padded(t.name + [0])|)
  }

  lemma {:induction false} NodeAdds(s: State, strings: Buf, t: Tree)
    requires Encodable(t)
    ensures var s2 := Passed(Opened(s, t), strings, t.items);
            && s2.stack != [] && s2.stack[..|s2.stack| - 1] == s.stack
            && VisitedAll(s2, strings, t, 0).mem == Visited(s, strings, t).mem
  {
    var c := Enter(s.stack, IsMemoryName(t.name));
    var ac, sc := c.parentAddr, c.parentSize;
    var stack1 := s.stack + [c];
    assert stack1[..|stack1| - 1] == s.stack;
    AfterCells(c, Ctx(ac, sc, ac, sc, false), strings, t.items);
    var d := After(c, strings, t.items);
    var own, below := RegRanges(strings, t.items, ac, sc), MemoryAll(strings, t, d.addr, d.size, 0);
    if IsMemoryName(t.name) {
      FillFill(s.mem, own, below);
    } else {
      assert [] + below == below;
    }
  }

  lemma {:induction false} ChildStands(b: Buf, p: nat, t: Tree, i: nat)
    requires Encodable(t) && i < |t.children| && Multiple4(p) && Stands(b, p, EncAll(t, i))
    ensures Stands(b, p, Enc(t.children[i])) && Stands(b, p + |Enc(t.children[i])|, EncAll(t, i + 1))
    ensures Multiple4(p + |Enc(t.children[i])|)
  {
    EncAllStep(t, i);
    StandsSplit(b, p, Enc(t.children[i]), EncAll(t, i + 1));
    EncAligned(t.children[i]);
    Sum4(p, |Enc(t.children[i])|);
  }

  lemma {:induction false} DepthStep(t: Tree, i: nat)
    requires i < |t.children|
    ensures Depth(t.children[i]) <= DepthAll(t, i) && DepthAll(t, i + 1) <= DepthAll(t, i)
  {
  }

  lemma {:induction false} VisitedNone(s: State, strings: Buf, t: Tree)
    requires Encodable(t) && s.stack != []
    ensures VisitedAll(s, strings, t, |t.children|) == s
  {
  }

  /** From the start of a node to its children. */
  lemma {:induction false} LeadsHead(b: Buf, strings: Buf, s: State, t: Tree)
    requires Encodable(t) && Multiple4(s.p) && |s.stack| < MAX_DEPTH && Stands(b, s.p, Enc(t))
    ensures Leads(b, strings, s, Passed(Opened(s, t), strings, t.items))
  {
    var s1 := Opened(s, t);
    NodeParts(b, s.p, t);
    NodeAligned(s.p, t);
    LeadsBegin(b, strings, s, t.name);
    LeadsProperties(b, strings, s1, t.items);
    Onward(b, strings, s, s1, Passed(s1, strings, t.items));
  }

  lemma {:induction false} AtChildren(b: Buf, strings: Buf, s: State, t: Tree)
    requires Encodable(t) && Multiple4(s.p) && Stands(b, s.p, Enc(t))
    ensures var s2 := Passed(Opened(s, t), strings, t.items);
            && Multiple4(s2.p) && |s2.stack| == |s.stack| + 1
            && Stands(b, s2.p, EncAll(t, 0)) && Stands(b, s2.p + |EncAll(t, 0)|, BE32(END_NODE))
            && s2.p + |EncAll(t, 0)| + 4 == s.p + |Enc(t)|
  {
    NodeParts(b, s.p, t);
    NodeAligned(s.p, t);
  }

  /** From the end of the children to the end of the node. */
  lemma {:induction false} LeadsTail(b: Buf, strings: Buf, s: State, t: Tree)
    requires Encodable(t) && Multiple4(s.p) && Stands(b, s.p, Enc(t))
    ensures var s2 := Passed(Opened(s, t), strings, t.items);
            s2.stack != [] && Leads(b, strings, VisitedAll(s2, strings, t, 0), Visited(s, strings, t))
  {
    AtChildren(b, strings, s, t);
    NodeAdds(s, strings, t);
    LeadsEnd(b, strings, VisitedAll(Passed(Opened(s, t), strings, t.items), strings, t, 0));
  }

  lemma {:induction false} ThreeOnward(b: Buf, strings: Buf, s: State, t: State, u: State, v: State)
    requires Leads(b, strings, s, t) && Leads(b, strings, t, u) && Leads(b, strings, u, v)
    ensures Leads(b, strings, s, v)
  {
    Onward(b, strings, s, t, u);
    Onward(b, strings, s, u, v);
  }

  /** The scan goes through an encoded node and comes out with its memory ranges added. */
  lemma {:induction false} LeadsNode(b: Buf, strings: Buf, s: State, t: Tree)
    requires Encodable(t) && Multiple4(s.p) && |s.stack| + Depth(t) <= MAX_DEPTH && Stands(b, s.p, Enc(t))
    ensures Leads(b, strings, s, Visited(s, strings, t))
    decreases t, 1, 0
  {
    var s2 := Passed(Opened(s, t), strings, t.items);
    LeadsHead(b, strings, s, t);
    AtChildren(b, strings, s, t);
    LeadsAll(b, strings, s2, t, 0);
    LeadsTail(b, strings, s, t);
    ThreeOnward(b, strings, s, s2, VisitedAll(s2, strings, t, 0), Visited(s, strings, t));
  }

  lemma {:induction false} LeadsAll(b: Buf, strings: Buf, s: State, t: Tree, i: nat)
    requires Encodable(t) && i <= |t.children| && Multiple4(s.p) && s.stack != []
    requires |s.stack| + DepthAll(t, i) <= MAX_DEPTH && Stands(b, s.p, EncAll(t, i))
    ensures Leads(b, strings, s, VisitedAll(s, strings, t, i))
    decreases t, 0, |t.children| - i
  {
    if i == |t.children| {
      VisitedNone(s, strings, t);
      Here(b, strings, s);
    } else {
      var s1 := Visited(s, strings, t.children[i]);
      ChildStands(b, s.p, t, i);
      DepthStep(t, i);
      LeadsNode(b, strings, s, t.children[i]);
      LeadsAll(b, strings, s1, t, i + 1);
      VisitedStep(s, strings, t, i);
      Onward(b, strings, s, s1, VisitedAll(s, strings, t, i));
    }
  }

  /**
   For every tree of less than the depth the kernel has room for, the scan of its encoding ends
   regularly, within the block, with the first non-empty memory ranges in document order.
   */
  lemma {:induction false} ScanFindsMemory(strings: Buf, t: Tree)
    requires Encodable(t) && Depth(t) <= MAX_DEPTH
    ensures Scan(Enc(t) + BE32(END), strings, State(0, [], []))
            == Done(First(NonEmpty(Memory(strings, t, 2, 2)), MAX_RANGES))
  {
    var b, s := Enc(t) + BE32(END), State(0, [], []);
    assert b[0..|Enc(t)|] == Enc(t);
    LeadsNode(b, strings, s, t);
    LeadsScans(b, strings, s, Visited(s, strings, t));
    ScanEnds(b, strings, Visited(s, strings, t));
    var found := Memory(strings, t, 2, 2);
    FillTakesFirst([], found);
    assert [] + First(NonEmpty(found), MAX_RANGES) == First(NonEmpty(found), MAX_RANGES);
  }

  lemma {:induction false} ScanEnds(b: Buf, strings: Buf, s: State)
    requires s.p + 4 == |b| && b[s.p..] == BE32(END)
    ensures Scan(b, strings, s) == Done(s.mem)
  {
    assert b[s.p..s.p + 4] == b[s.p..];
    StandsToken(b, s.p, END);
  }

  // --------------------------------------------- the same, as the specification says

  lemma {:induction false} PrefixHolds(s: Buf, i: nat, prefix: seq<nat>, more: seq<nat>)
    requires StartsWith(s, i, prefix + more)
    ensures StartsWith(s, i, prefix)
    decreases |prefix|
  {
    if prefix != [] {
      assert (prefix + more)[1..] == prefix[1..] + more;
      PrefixHolds(s, i + 1, prefix[1..], more);
    }
  }

  lemma {:induction false} ExactIsKind(strings: Buf, off: nat)
    ensures Exact(strings, off) != Other ==> Kind(strings, off) == Exact(strings, off)
  {
    assert ADDRESS_CELLS + [0] == [0x23, 0x61] + (ADDRESS_CELLS[2..] + [0]);
    assert SIZE_CELLS + [0] == [0x23, 0x73] + (SIZE_CELLS[2..] + [0]);
    if Named(strings, off, ADDRESS_CELLS) { PrefixHolds(strings, off, [0x23, 0x61], ADDRESS_CELLS[2..] + [0]); }
    if Named(strings, off, SIZE_CELLS) { PrefixHolds(strings, off, [0x23, 0x73], SIZE_CELLS[2..] + [0]); }
    if Named(strings, off, REG) { PrefixHolds(strings, off, REG, [0]); }
    FirstCharacters(strings, off);
  }

  /** The three prefixes exclude each other. */
  lemma {:induction false} FirstCharacters(s: Buf, i: nat)
    ensures StartsWith(s, i, [0x23, 0x61]) ==> CharAt(s, i) == 0x23 && CharAt(s, i + 1) == 0x61
    ensures StartsWith(s, i, [0x23, 0x73]) ==> CharAt(s, i) == 0x23 && CharAt(s, i + 1) == 0x73
    ensures StartsWith(s, i, [0x72, 0x65, 0x67]) ==> CharAt(s, i) == 0x72
  {
    assert [0x23, 0x61][1..] == [0x61] && [0x23, 0x73][1..] == [0x73];
    assert StartsWith(s, i + 1, [0x61]) ==> CharAt(s, i + 1) == 0x61;
    assert StartsWith(s, i + 1, [0x73]) ==> CharAt(s, i + 1) == 0x73;
  }

  /** Where no other name shares a prefix, the parser's test is the whole name. */
  lemma {:induction false} PlainMeansExact(strings: Buf, x: Item)
    requires PlainItem(strings, x) && x.Prop?
    ensures Kind(strings, x.off) == Exact(strings, x.off)
  {
    ExactIsKind(strings, x.off);
  }

  lemma {:induction false} CellsAreNumber(data: Buf, p: nat, n: nat)
    requires p + 4 * n <= |data| && n <= 2
    ensures Cells(data, p, n) == Number(data, p, n)
  {
    if n == 2 { assert Number(data, p, 1) == Number(data, p, 0) * 0x1_0000_0000 + Get32(data, p); }
  }

  lemma {:induction false} TupleIsSpec(data: Buf, off: nat, ac: nat, sc: nat)
    requires 1 <= ac <= 2 && 1 <= sc <= 2 && off + 4 * (ac + sc) <= |data|
    ensures Tuples(data, off, ac, sc)
            == [Range(Number(data, off, ac), Number(data, off + 4 * ac, sc))] + Tuples(data, off + 4 * (ac + sc), ac, sc)
  {
    CellsAreNumber(data, off, ac);
    CellsAreNumber(data, off + 4 * ac, sc);
  }

  lemma {:induction false} SpecTuplesStep(data: Buf, off: nat, ac: nat, sc: nat)
    requires 0 < ac + sc && off + 4 * (ac + sc) <= |data|
    ensures SpecTuples(data, off, ac, sc)
            == [Range(Number(data, off, ac), Number(data, off + 4 * ac, sc))] + SpecTuples(data, off + 4 * (ac + sc), ac, sc)
  {
  }

  lemma {:induction false} TuplesAreSpec(data: Buf, off: nat, ac: nat, sc: nat)
    requires 1 <= ac <= 2 && 1 <= sc <= 2
    ensures Tuples(data, off, ac, sc) == SpecTuples(data, off, ac, sc)
    decreases |data| - off
  {
    var next := off + 4 * (ac + sc);
    if next <= |data| {
      TupleIsSpec(data, off, ac, sc);
      SpecTuplesStep(data, off, ac, sc);
      TuplesAreSpec(data, next, ac, sc);
    }
  }

  lemma {:induction false} RangesAreSpec(strings: Buf, items: seq<Item>, ac: nat, sc: nat)
    requires PlainItems(strings, items) && 1 <= ac <= 2 && 1 <= sc <= 2
    ensures RegRanges(strings, items, ac, sc) == SpecRanges(strings, items, ac, sc)
    decreases |items|
  {
    if items != [] {
      var x := items[0];
      if x.Prop? {
        PlainMeansExact(strings, x);
        TuplesAreSpec(x.data, 0, ac, sc);
      }
      RangesAreSpec(strings, items[1..], ac, sc);
    }
  }

  lemma {:induction false} NoRegNoRanges(strings: Buf, items: seq<Item>, ac: nat, sc: nat)
    requires PlainItems(strings, items)
    requires forall i :: 0 <= i < |items| && items[i].Prop? ==> Kind(strings, items[i].off) != Reg
    ensures RegRanges(strings, items, ac, sc) == [] && SpecRanges(strings, items, ac, sc) == []
    decreases |items|
  {
    if items != [] {
      if items[0].Prop? { PlainMeansExact(strings, items[0]); }
      NoRegNoRanges(strings, items[1..], ac, sc);
    }
  }

  lemma {:induction false} AfterLast(c: Ctx, strings: Buf, items: seq<Item>, x: Item)
    ensures var d := After(c, strings, items);
            After(c, strings, items + [x]) == if x.Prop? then OnProp(d, Kind(strings, x.off), x.data) else d
    decreases |items|
  {
    if items == [] {
      assert [] + [x] == [x] && [x][1..] == [];
    } else {
      assert (items + [x])[1..] == items[1..] + [x];
      var y := items[0];
      AfterLast(if y.Prop? then OnProp(c, Kind(strings, y.off), y.data) else c, strings, items[1..], x);
    }
  }

  /** The cells the parser ends up with are those stated, or those it started with. */
  lemma {:induction false} AfterIsStated(c: Ctx, strings: Buf, items: seq<Item>)
    requires PlainItems(strings, items)
    ensures var d := After(c, strings, items);
            && d.addr == Or(Stated(strings, items, AddressCells), c.addr)
            && d.size == Or(Stated(strings, items, SizeCells), c.size)
    decreases |items|
  {
    if items != [] {
      var front, x := items[..|items| - 1], items[|items| - 1];
      assert front + [x] == items;
      AfterIsStated(c, strings, front);
      AfterLast(c, strings, front, x);
      assert PlainItem(strings, x);
      if x.Prop? { PlainMeansExact(strings, x); }
    }
  }

  /** The cells in force for a node are what the specification says, and few enough for the parser. */
  ghost predicate SameCells(ac: nat, sc: nat, ac': nat, sc': nat) {
    ac == ac' && sc == sc' && 1 <= ac <= 2 && 1 <= sc <= 2
  }

  /** Inheriting cells, as the kernel does, makes no difference where they are stated. */
  lemma {:induction false} InheritedIsStated(strings: Buf, t: Tree, ac: nat, sc: nat, ac': nat, sc': nat)
    requires Plain(strings, t) && CellsStated(strings, t) && (Bears(strings, t) ==> SameCells(ac, sc, ac', sc'))
    ensures Memory(strings, t, ac, sc) == SpecMemory(strings, t, ac', sc')
    decreases t, 1, 0
  {
    if IsMemoryName(t.name) {
      if Bears(strings, t) {
        RangesAreSpec(strings, t.items, ac, sc);
      } else {
        NoRegNoRanges(strings, t.items, ac, sc);
        NoRegNoRanges(strings, t.items, ac', sc');
      }
    }
    AfterIsStated(Ctx(ac, sc, ac, sc, false), strings, t.items);
    var c := After(Ctx(ac, sc, ac, sc, false), strings, t.items);
    InheritedIsStatedAll(strings, t, c.addr, c.size,
                         Or(Stated(strings, t.items, AddressCells), 2), Or(Stated(strings, t.items, SizeCells), 1), 0);
  }

  lemma {:induction false} InheritedIsStatedAll(strings: Buf, t: Tree, ac: nat, sc: nat, ac': nat, sc': nat, i: nat)
    requires i <= |t.children| && Plain(strings, t) && CellsStated(strings, t)
    requires (exists k :: 0 <= k < |t.children| && Bears(strings, t.children[k])) ==> SameCells(ac, sc, ac', sc')
    ensures MemoryAll(strings, t, ac, sc, i) == SpecMemoryAll(strings, t, ac', sc', i)
    decreases t, 0, |t.children| - i
  {
    if i < |t.children| {
      InheritedIsStated(strings, t.children[i], ac, sc, ac', sc');
      InheritedIsStatedAll(strings, t, ac, sc, ac', sc', i + 1);
    }
  }

  /** So the scan finds the ranges that the specification gives the tree, read by whole names. */
  lemma {:induction false} ScanFollowsSpecification(strings: Buf, t: Tree)
    requires Encodable(t) && Depth(t) <= MAX_DEPTH && !IsMemoryName(t.name)
    requires Plain(strings, t) && CellsStated(strings, t)
    ensures Scan(Enc(t) + BE32(END), strings, State(0, [], []))
            == Done(First(NonEmpty(SpecMemory(strings, t, 2, 1)), MAX_RANGES))
  {
    ScanFindsMemory(strings, t);
    InheritedIsStated(strings, t, 2, 2, 2, 1);
  }

  // ----------------------------------------------------- a name that only begins alike

  const ONES: Buf := [0, 0, 0, 1, 0, 0, 0, 1]

  /** A memory node under a parent that states one cell each, with one property at string offset `r`. */
  function AlikeChild(r: nat, name: Buf): Tree { Node(name, [Prop(r, ONES)], []) }

  function AlikeTree(a: nat, s: nat, r: nat, name: Buf): Tree {
    Node([], [Prop(a, ONES[..4]), Prop(s, ONES[..4])], [AlikeChild(r, name)])
  }

  /** The string at `r` begins like "reg" but is another name; those at `a` and `s` are the cell counts. */
  ghost predicate Alike(strings: Buf, a: nat, s: nat, r: nat, name: Buf) {
    && a < 0x1_0000_0000 && s < 0x1_0000_0000 && r < 0x1_0000_0000
    && Exact(strings, a) == AddressCells && Exact(strings, s) == SizeCells
    && Kind(strings, r) == Reg && Exact(strings, r) == Other
    && IsMemoryName(name) && forall i :: 0 <= i < |name| ==> name[i] != 0
  }

  lemma {:induction false} OnesRead()
    ensures Get32(ONES, 0) == 1 && Get32(ONES, 4) == 1 && Get32(ONES[..4], 0) == 1
  {
  }

  lemma {:induction false} AlikeTuples()
    ensures Tuples(ONES, 0, 1, 1) == [Range(1, 1)]
  {
    OnesRead();
    assert Tuples(ONES, 8, 1, 1) == [];
  }

  lemma {:induction false} OneProperty(strings: Buf, r: nat, data: Buf, ac: nat, sc: nat)
    ensures RegRanges(strings, [Prop(r, data)], ac, sc) == if Kind(strings, r) == Reg then Tuples(data, 0, ac, sc) else []
    ensures Exact(strings, r) == Other ==> SpecRanges(strings, [Prop(r, data)], ac, sc) == []
  {
    var x := [Prop(r, data)];
    assert x[1..] == [] && RegRanges(strings, [], ac, sc) == [] && SpecRanges(strings, [], ac, sc) == [];
    var t := Tuples(data, 0, ac, sc);
    assert t + [] == t;
  }

  lemma {:induction false} AlikeChildReads(strings: Buf, r: nat, name: Buf, ac: nat, sc: nat)
    requires Kind(strings, r) == Reg && Exact(strings, r) == Other && IsMemoryName(name)
    ensures Memory(strings, AlikeChild(r, name), 1, 1) == [Range(1, 1)]
    ensures SpecMemory(strings, AlikeChild(r, name), ac, sc) == []
  {
    OneProperty(strings, r, ONES, 1, 1);
    OneProperty(strings, r, ONES, ac, sc);
    AlikeTuples();
    assert [Range(1, 1)] + [] == [Range(1, 1)];
  }

  lemma {:induction false} AlikeCells(strings: Buf, a: nat, s: nat)
    requires Exact(strings, a) == AddressCells && Exact(strings, s) == SizeCells
    ensures var items := [Prop(a, ONES[..4]), Prop(s, ONES[..4])];
            && PlainItems(strings, items)
            && Stated(strings, items, AddressCells) == Some(1) && Stated(strings, items, SizeCells) == Some(1)
            && forall ac, sc :: RegRanges(strings, items, ac, sc) == []
  {
    ExactIsKind(strings, a);
    ExactIsKind(strings, s);
    OnesRead();
    var x, y := Prop(a, ONES[..4]), Prop(s, ONES[..4]);
    var items := [x, y];
    assert items[..1] == [x] && items[1..] == [y] && [y][1..] == [];
    assert PlainItem(strings, x) && PlainItem(strings, y);
    assert Stated(strings, [x], AddressCells) == Some(1);
    forall ac, sc ensures RegRanges(strings, items, ac, sc) == [] { NoRegNoRanges(strings, items, ac, sc); }
  }

  lemma {:induction false} AlikeMemory(strings: Buf, a: nat, s: nat, r: nat, name: Buf)
    requires Alike(strings, a, s, r, name)
    ensures Memory(strings, AlikeTree(a, s, r, name), 2, 2) == [Range(1, 1)]
    ensures SpecMemory(strings, AlikeTree(a, s, r, name), 2, 1) == []
  {
    var t := AlikeTree(a, s, r, name);
    AlikeCells(strings, a, s);
    AfterIsStated(Ctx(2, 2, 2, 2, false), strings, t.items);
    AlikeChildReads(strings, r, name, 1, 1);
    RootIsNoMemory();
    assert MemoryAll(strings, t, 1, 1, 1) == [] && SpecMemoryAll(strings, t, 1, 1, 1) == [];
    assert MemoryAll(strings, t, 1, 1, 0) == [Range(1, 1)] + [];
    assert SpecMemoryAll(strings, t, 1, 1, 0) == [] + [];
  }

  lemma {:induction false} RootIsNoMemory()
    ensures !IsMemoryName([])
  {
  }

  /** Every such tree is misread: the scan reports a range that the specification does not give. */
  lemma {:induction false} AlikeNameIsMisread(strings: Buf, a: nat, s: nat, r: nat, name: Buf)
    requires Alike(strings, a, s, r, name)
    ensures var t := AlikeTree(a, s, r, name);
            && Encodable(t) && Depth(t) <= MAX_DEPTH
            && Scan(Enc(t) + BE32(END), strings, State(0, [], [])) == Done([Range(1, 1)])
            && SpecMemory(strings, t, 2, 1) == []
  {
    var t, child := AlikeTree(a, s, r, name), AlikeChild(r, name);
    assert t.children == [child] && Encodable(child) && Encodable(t);
    assert DepthAll(child, 0) == 0 && Depth(child) == 1 && DepthAll(t, 1) == 0;
    assert DepthAll(t, 0) == 1 && Depth(t) == 2;
    AlikeMemory(strings, a, s, r, name);
    ScanFindsMemory(strings, t);
    assert [Range(1, 1)][1..] == [] && NonEmpty([]) == [] && First([], 15) == [];
    assert NonEmpty([Range(1, 1)]) == [Range(1, 1)];
    assert First([Range(1, 1)], MAX_RANGES) == [Range(1, 1)];
  }

  /** The strings "#address-cells", "#size-cells" and "reg-x", each with its terminator. */
  const STRINGS: Buf :=
    [0x23, 0x61, 0x64, 0x64, 0x72, 0x65, 0x73, 0x73, 0x2D, 0x63, 0x65, 0x6C, 0x6C, 0x73, 0,
     0x23, 0x73, 0x69, 0x7A, 0x65, 0x2D, 0x63, 0x65, 0x6C, 0x6C, 0x73, 0,
     0x72, 0x65, 0x67, 0x2D, 0x78, 0]

  lemma {:induction false} StandsInString(s: Buf, i: nat, prefix: seq<nat>)
    requires i + |prefix| <= |s| && forall k :: 0 <= k < |prefix| ==> s[i + k] as nat == prefix[k]
    ensures StartsWith(s, i, prefix)
    decreases |prefix|
  {
    if prefix != [] {
      var rest := prefix[1..];
      forall k | 0 <= k < |rest| ensures s[i + 1 + k] as nat == rest[k] { assert s[i + (k + 1)] as nat == prefix[k + 1]; }
      StandsInString(s, i + 1, rest);
    }
  }

  lemma {:induction false} DiffersInString(s: Buf, i: nat, prefix: seq<nat>, k: nat)
    requires k < |prefix| && i + k < |s| && s[i + k] as nat != prefix[k]
    ensures !StartsWith(s, i, prefix)
    decreases k
  {
    if k > 0 { DiffersInString(s, i + 1, prefix[1..], k - 1); }
  }

  lemma {:induction false} StringsExact()
    ensures Exact(STRINGS, 0) == AddressCells && Exact(STRINGS, 15) == SizeCells
  {
    StandsInString(STRINGS, 0, ADDRESS_CELLS + [0]);
    StandsInString(STRINGS, 15, SIZE_CELLS + [0]);
    DiffersInString(STRINGS, 15, ADDRESS_CELLS + [0], 1);
  }

  lemma {:induction false} StringsAlike()
    ensures Kind(STRINGS, 27) == Reg && Exact(STRINGS, 27) == Other
  {
    StandsInString(STRINGS, 27, [0x72, 0x65, 0x67]);
    DiffersInString(STRINGS, 27, [0x23, 0x61], 0);
    DiffersInString(STRINGS, 27, [0x23, 0x73], 0);
    DiffersInString(STRINGS, 27, ADDRESS_CELLS + [0], 0);
    DiffersInString(STRINGS, 27, SIZE_CELLS + [0], 0);
    DiffersInString(STRINGS, 27, REG + [0], 3);
  }

  lemma {:induction false} MemoryIsMemory()
    ensures IsMemoryName([0x6D, 0x65, 0x6D, 0x6F, 0x72, 0x79])
  {
  }

  /** There is such a tree: its memory node has one property, named "reg-x". */
  lemma {:induction false} AlikeExists()
    ensures Alike(STRINGS, 0, 15, 27, [0x6D, 0x65, 0x6D, 0x6F, 0x72, 0x79])
  {
    StringsExact();
    StringsAlike();
    MemoryIsMemory();
  }
}
