/**
 Runs of capability operations over several tables: how long a handle lives, what
 a capability may be derived to, and that a transfer is all or nothing.
 */
module CapRuns {
  import opened Arith
  import opened CapSpec

  // ------------------------------------------------------- between two tables

  datatype Event =
    | Create(t: nat, cap: Cap, mem: bool)
    | Dup(src: nat, h: nat, dst: nat, mask: Rights, mem: bool)
    | Transfer(src: nat, h: nat, dst: nat, mask: Rights, mem: bool)
    | Drop(t: nat, h: nat)
    | InvalidateObject(t: nat, obj: nat)

  ghost predicate AllInv(ts: seq<Table>) { forall t: nat :: t < |ts| ==> Inv(ts[t]) }

  function Masked(c: Cap, mask: Rights): Cap { c.(rights := c.rights & mask) }

  /** Tables, status and the new handle. */
  type Outcome = (seq<Table>, Status, nat)

  ghost function DoInsert(ts: seq<Table>, t: nat, c: Cap, mem: bool): Outcome
    requires AllInv(ts) && t < |ts|
  {
    var r := Insert(ts[t], c, mem);
    (ts[t := r.0], r.1, r.2)
  }

  ghost function DoDup(ts: seq<Table>, src: nat, h: nat, dst: nat, mask: Rights, mem: bool): Outcome
    requires AllInv(ts) && src < |ts| && dst < |ts|
  {
    var e := Lookup(ts[src], h, R_DUP);
    if e.Failed? then (ts, Denied, 0) else DoInsert(ts, dst, Masked(e.entry.cap, mask), mem)
  }

  /** Insert at the destination, remove at the source, and take the insertion back if that fails. */
  ghost function DoTransfer(ts: seq<Table>, src: nat, h: nat, dst: nat, mask: Rights, mem: bool): Outcome
    requires AllInv(ts) && src < |ts| && dst < |ts|
  {
    var e := Lookup(ts[src], h, R_TRANSFER);
    if e.Failed? then (ts, Denied, 0)
    else
      var (ts1, st, out) := DoInsert(ts, dst, Masked(e.entry.cap, mask), mem);
      if st != Ok then (ts1, st, out)
      else
        InsertKeepsInv(ts[dst], Masked(e.entry.cap, mask), mem);
        var (s', st2) := Remove(ts1[src], h);
        var ts2 := ts1[src := s'];
        if st2 == Ok then (ts2, Ok, out)
        else
          RemoveKeepsInv(ts1[src], h);
          (ts2[dst := Remove(ts2[dst], out).0], st2, out)
  }

  lemma {:induction false} NeedMore(t: Table, h: nat, need: Rights)
    requires Sized(t) && Lookup(t, h, need).Found?
    ensures Lookup(t, h, 0) == Lookup(t, h, need)
    ensures var i := Index(h); i < SLOTS && t.slots[i] == Used(Lookup(t, h, need).entry) && t.gens[i] == Gen(h)
  {
    assert Lookup(t, h, need).entry.cap.rights & 0 == 0;
  }

  /** The handle that is to be transferred still resolves after the insertion, even in the same table. */
  lemma {:induction false} RemoveSucceeds(ts: seq<Table>, src: nat, h: nat, dst: nat, c: Cap, mem: bool)
    requires AllInv(ts) && src < |ts| && dst < |ts| && Lookup(ts[src], h, R_TRANSFER).Found?
    requires Insert(ts[dst], c, mem).1 == Ok
    ensures var t1 := ts[dst := Insert(ts[dst], c, mem).0][src];
            && Sized(t1) && Remove(t1, h) == (Clear(t1, Index(h)), Ok)
            && t1.slots[Index(h)] == ts[src].slots[Index(h)]
            && (src == dst ==> Index(Insert(ts[dst], c, mem).2) != Index(h))
  {
    NeedMore(ts[src], h, R_TRANSFER);
    InsertResolves(ts[dst], c, mem);
  }

  /**
   A transfer that succeeds moves the capability, with fewer rights, to a slot that
   was empty; one that fails leaves all tables as they were. The rollback never runs.
   */
  lemma {:induction false} TransferIsAtomic(ts: seq<Table>, src: nat, h: nat, dst: nat, mask: Rights, mem: bool)
    requires AllInv(ts) && src < |ts| && dst < |ts|
    ensures var (ts', st, out) := DoTransfer(ts, src, h, dst, mask, mem);
            && (st != Ok ==> ts' == ts)
            && (st == Ok <==> Lookup(ts[src], h, R_TRANSFER).Found? && ts[dst].free != [] && mem)
            && (st == Ok ==>
                  var e, i := Lookup(ts[src], h, R_TRANSFER).entry, Index(h);
                  var d := Insert(ts[dst], Masked(e.cap, mask), mem).0;
                  ts' == ts[dst := d][src := Clear(ts[dst := d][src], i)])
  {
    var e := Lookup(ts[src], h, R_TRANSFER);
    if e.Found? {
      var c := Masked(e.entry.cap, mask);
      InsertFails(ts[dst], c, mem);
      if Insert(ts[dst], c, mem).1 == Ok { RemoveSucceeds(ts, src, h, dst, c, mem); }
    }
  }

  // ----------------------------------------------------------------------- runs

  /** The tables, and for every slot in use the capability that was created and led to it. */
  datatype World = World(tables: seq<Table>, origin: map<(nat, nat), Cap>)

  ghost predicate Enabled(w: World, e: Event) {
    match e
    case Create(t, _, _) => t < |w.tables|
    case Dup(src, _, dst, _, _) => src < |w.tables| && dst < |w.tables|
    case Transfer(src, _, dst, _, _) => src < |w.tables| && dst < |w.tables|
    case Drop(t, _) => t < |w.tables|
    case InvalidateObject(t, _) => t < |w.tables|
  }

  /** Where a new capability went, and what it comes from. */
  ghost function Traced(w: World, o: Outcome, t: nat, from: Cap): World {
    if o.1 == Ok then World(o.0, w.origin[(t, Index(o.2)) := from]) else World(o.0, w.origin)
  }

  function OriginOf(w: World, t: nat, i: nat, c: Cap): Cap {
    if (t, i) in w.origin then w.origin[(t, i)] else c
  }

  ghost function Next(w: World, e: Event): World
    requires AllInv(w.tables) && Enabled(w, e)
  {
    match e
    case Create(t, cap, mem) => Traced(w, DoInsert(w.tables, t, cap, mem), t, cap)
    case Dup(src, h, dst, mask, mem) =>
      var x := Lookup(w.tables[src], h, R_DUP);
      if x.Failed? then w
      else Traced(w, DoDup(w.tables, src, h, dst, mask, mem), dst, OriginOf(w, src, Index(h), x.entry.cap))
    case Transfer(src, h, dst, mask, mem) =>
      var x := Lookup(w.tables[src], h, R_TRANSFER);
      if x.Failed? then w
      else Traced(w, DoTransfer(w.tables, src, h, dst, mask, mem), dst, OriginOf(w, src, Index(h), x.entry.cap))
    case Drop(t, h) => w.(tables := w.tables[t := Remove(w.tables[t], h).0])
    case InvalidateObject(t, obj) =>
      if obj == 0 then w else w.(tables := w.tables[t := InvalidateFrom(w.tables[t], obj, 0)])
  }

  /** Same object and kind, and no right that the ancestor does not have. */
  predicate Derived(c: Cap, from: Cap) {
    c.kind == from.kind && c.obj == from.obj && c.rights & from.rights == c.rights
  }

  ghost predicate OriginAt(w: World, t: nat, i: nat) {
    t < |w.tables| && i < |w.tables[t].slots| && w.tables[t].slots[i].Used? ==>
      (t, i) in w.origin && Derived(w.tables[t].slots[i].entry.cap, w.origin[(t, i)])
  }

  ghost predicate WInv(w: World) {
    && AllInv(w.tables)
    && forall t: nat, i: nat :: OriginAt(w, t, i)
  }

  /** Tables just set up, with nothing created yet. */
  ghost function Start(n: nat): World { World(seq(n, _ => Init()), map[]) }

  lemma {:induction false} StartHolds(n: nat)
    ensures WInv(Start(n))
  {
    var w := Start(n);
    InitHolds();
    forall t: nat, i: nat ensures OriginAt(w, t, i) { assert t < n ==> w.tables[t] == Init(); }
  }

  /** What one event may do to one slot: nothing, fill it, or empty it and move its generation on. */
  ghost predicate SlotStep(a: Slot, g: nat, b: Slot, g': nat) {
    || (a == b && g == g')
    || (a.Empty? && b.Used? && g == g')
    || (a.Used? && b.Empty? && g' == Bump(g))
  }

  ghost predicate Steps(t: Table, t': Table, i: nat) {
    Sized(t) && Sized(t') && (i < SLOTS ==> SlotStep(t.slots[i], t.gens[i], t'.slots[i], t'.gens[i]))
  }

  lemma {:induction false} InsertSteps(t: Table, c: Cap, mem: bool, i: nat)
    requires Inv(t)
    ensures Steps(t, Insert(t, c, mem).0, i)
  {
    InsertFails(t, c, mem);
    if Insert(t, c, mem).1 == Ok { InsertResolves(t, c, mem); }
  }

  lemma {:induction false} InvalidateSteps(t: Table, obj: nat, from: nat, i: nat)
    requires Sized(t) && from <= SLOTS && i < SLOTS
    ensures var t' := InvalidateFrom(t, obj, from);
            && Steps(t, t', i)
            && (i < from ==> t'.slots[i] == t.slots[i] && t'.gens[i] == t.gens[i])
            && (t'.slots[i].Used? ==> t'.slots[i] == t.slots[i])
            && (i >= from && t.slots[i].Used? && t.slots[i].entry.cap.obj == obj ==> t'.slots[i].Empty?)
    decreases SLOTS - from
  {
    if from < SLOTS {
      var hit := t.slots[from].Used? && t.slots[from].entry.cap.obj == obj;
      InvalidateSteps(if hit then Clear(t, from) else t, obj, from + 1, i);
    }
  }

  // ----------------------------------------------------------- every event keeps it

  lemma {:induction false} MaskDerives(c: Cap, from: Cap, mask: Rights)
    requires Derived(c, from)
    ensures Derived(Masked(c, mask), from)
  {
    assert (c.rights & mask) & from.rights == (c.rights & from.rights) & mask;
  }

  lemma {:induction false} SelfDerived(c: Cap)
    ensures Derived(c, c)
  {
    assert c.rights & c.rights == c.rights;
  }

  /** An insertion whose capability derives from its recorded origin. */
  lemma {:induction false} InsertKeepsWInv(w: World, t: nat, c: Cap, mem: bool, from: Cap)
    requires WInv(w) && t < |w.tables| && Derived(c, from)
    ensures WInv(Traced(w, DoInsert(w.tables, t, c, mem), t, from))
  {
    var o := DoInsert(w.tables, t, c, mem);
    var w' := Traced(w, o, t, from);
    InsertKeepsInv(w.tables[t], c, mem);
    InsertFails(w.tables[t], c, mem);
    if o.1 == Ok { InsertResolves(w.tables[t], c, mem); }
    forall k: nat, i: nat ensures OriginAt(w', k, i) { assert OriginAt(w, k, i); }
  }

  /** A table replaced by one that uses no slot anew. */
  lemma {:induction false} LessKeepsWInv(w: World, t: nat, less: Table)
    requires WInv(w) && t < |w.tables| && Inv(less)
    requires forall i :: 0 <= i < SLOTS && less.slots[i].Used? ==> less.slots[i] == w.tables[t].slots[i]
    ensures WInv(w.(tables := w.tables[t := less]))
  {
    var w' := w.(tables := w.tables[t := less]);
    forall k: nat, j: nat ensures OriginAt(w', k, j) { assert OriginAt(w, k, j); }
  }

  lemma {:induction false} TransferKeepsWInv(w: World, src: nat, h: nat, dst: nat, mask: Rights, mem: bool)
    requires WInv(w) && src < |w.tables| && dst < |w.tables|
    ensures WInv(Next(w, Transfer(src, h, dst, mask, mem)))
  {
    var x := Lookup(w.tables[src], h, R_TRANSFER);
    TransferIsAtomic(w.tables, src, h, dst, mask, mem);
    if x.Found? {
      NeedMore(w.tables[src], h, R_TRANSFER);
      assert OriginAt(w, src, Index(h));
      var c, from := Masked(x.entry.cap, mask), w.origin[(src, Index(h))];
      MaskDerives(x.entry.cap, from, mask);
      InsertKeepsWInv(w, dst, c, mem, from);
      InsertFails(w.tables[dst], c, mem);
      var w1 := Traced(w, DoInsert(w.tables, dst, c, mem), dst, from);
      if Insert(w.tables[dst], c, mem).1 == Ok {
        RemoveSucceeds(w.tables, src, h, dst, c, mem);
        ClearKeepsInv(w1.tables[src], Index(h));
        LessKeepsWInv(w1, src, Clear(w1.tables[src], Index(h)));
      }
    }
  }

  lemma {:induction false} InvalidateKeepsWInv(w: World, t: nat, obj: nat)
    requires WInv(w) && t < |w.tables|
    ensures WInv(w.(tables := w.tables[t := InvalidateFrom(w.tables[t], obj, 0)]))
  {
    InvalidateKeepsInv(w.tables[t], obj, 0);
    var less := InvalidateFrom(w.tables[t], obj, 0);
    forall i | 0 <= i < SLOTS && less.slots[i].Used?
      ensures less.slots[i] == w.tables[t].slots[i]
    {
      InvalidateSteps(w.tables[t], obj, 0, i);
    }
    LessKeepsWInv(w, t, less);
  }

  lemma {:induction false} NextKeepsWInv(w: World, e: Event)
    requires WInv(w) && Enabled(w, e)
    ensures WInv(Next(w, e)) && |Next(w, e).tables| == |w.tables|
  {
    match e
    case Create(t, cap, mem) =>
      SelfDerived(cap);
      InsertKeepsWInv(w, t, cap, mem, cap);
    case Dup(src, h, dst, mask, mem) =>
      var x := Lookup(w.tables[src], h, R_DUP);
      if x.Found? {
        NeedMore(w.tables[src], h, R_DUP);
        assert OriginAt(w, src, Index(h));
        MaskDerives(x.entry.cap, w.origin[(src, Index(h))], mask);
        InsertKeepsWInv(w, dst, Masked(x.entry.cap, mask), mem, w.origin[(src, Index(h))]);
      }
    case Transfer(src, h, dst, mask, mem) =>
      TransferIsAtomic(w.tables, src, h, dst, mask, mem);
      TransferKeepsWInv(w, src, h, dst, mask, mem);
    case Drop(t, h) =>
      RemoveKeepsInv(w.tables[t], h);
      LessKeepsWInv(w, t, Remove(w.tables[t], h).0);
    case InvalidateObject(t, obj) =>
      InvalidateKeepsWInv(w, t, obj);
  }

  ghost predicate ValidRun(w: World, es: seq<Event>)
    requires WInv(w)
    decreases |es|
  {
    es == [] || (Enabled(w, es[0]) && (NextKeepsWInv(w, es[0]); ValidRun(Next(w, es[0]), es[1..])))
  }

  /**
   Along every run, every table keeps its invariant, and every capability has the kind and the
   object of the one it was created as, and none but that one's rights.
   */
  ghost function Exec(w: World, es: seq<Event>): (r: World)
    requires WInv(w) && ValidRun(w, es)
    ensures WInv(r) && |r.tables| == |w.tables|
    decreases |es|
  {
    if es == [] then w else (NextKeepsWInv(w, es[0]); Exec(Next(w, es[0]), es[1..]))
  }

  /** Derivation never widens: what a run leaves in a slot has no more rights than what was created. */
  lemma {:induction false} RightsNeverGrow(w: World, es: seq<Event>, t: nat, i: nat)
    requires WInv(w) && ValidRun(w, es) && t < |w.tables| && i < SLOTS
    ensures var w' := Exec(w, es);
            var s := w'.tables[t].slots[i];
            s.Used? ==> (t, i) in w'.origin && Derived(s.entry.cap, w'.origin[(t, i)])
  {
    assert OriginAt(Exec(w, es), t, i);
  }

  // --------------------------------------------------------- the life of a handle

  lemma {:induction false} TransferSteps(ts: seq<Table>, src: nat, h: nat, dst: nat, mask: Rights, mem: bool, t: nat, i: nat)
    requires AllInv(ts) && src < |ts| && dst < |ts| && t < |ts|
    ensures |DoTransfer(ts, src, h, dst, mask, mem).0| == |ts|
    ensures Steps(ts[t], DoTransfer(ts, src, h, dst, mask, mem).0[t], i)
  {
    TransferIsAtomic(ts, src, h, dst, mask, mem);
    if DoTransfer(ts, src, h, dst, mask, mem).1 == Ok {
      NeedMore(ts[src], h, R_TRANSFER);
      var c := Masked(Lookup(ts[src], h, R_TRANSFER).entry.cap, mask);
      InsertFails(ts[dst], c, mem);
      RemoveSucceeds(ts, src, h, dst, c, mem);
      InsertSteps(ts[dst], c, mem, i);
      InsertResolves(ts[dst], c, mem);
    }
  }

  lemma {:induction false} NextSteps(w: World, e: Event, t: nat, i: nat)
    requires WInv(w) && Enabled(w, e) && t < |w.tables|
    ensures |Next(w, e).tables| == |w.tables|
    ensures Steps(w.tables[t], Next(w, e).tables[t], i)
  {
    NextKeepsWInv(w, e);
    match e
    case Create(k, cap, mem) => InsertSteps(w.tables[k], cap, mem, i);
    case Dup(src, h, dst, mask, mem) =>
      var x := Lookup(w.tables[src], h, R_DUP);
      if x.Found? { InsertSteps(w.tables[dst], Masked(x.entry.cap, mask), mem, i); }
    case Transfer(src, h, dst, mask, mem) => TransferSteps(w.tables, src, h, dst, mask, mem, t, i);
    case Drop(k, h) =>
    case InvalidateObject(k, obj) => if i < SLOTS { InvalidateSteps(w.tables[k], obj, 0, i); }
  }

  /** How often the slot was emptied along a run: as often as its generation moved. */
  ghost function Emptied(w: World, es: seq<Event>, t: nat, i: nat): nat
    requires WInv(w) && ValidRun(w, es) && t < |w.tables| && i < SLOTS
    decreases |es|
  {
    if es == [] then 0
    else
      NextKeepsWInv(w, es[0]);
      var w1 := Next(w, es[0]);
      (if w1.tables[t].gens[i] == w.tables[t].gens[i] then 0 else 1) + Emptied(w1, es[1..], t, i)
  }

  /** The generation after `n` moves. */
  function Turned(gen: nat, n: nat): nat
    decreases n, gen
  {
    if n == 0 then gen else Turned(Bump(gen), n - 1)
  }

  /** The moves go round all the non-zero generations. */
  lemma {:induction false} TurnedByDivision(gen: nat, n: nat)
    requires 1 <= gen < GENS
    ensures Turned(gen, n) == 1 + (gen - 1 + n) % (GENS - 1)
    decreases n
  {
    if n == 0 {
      DivUnique(gen - 1, GENS - 1, 0, gen - 1);
    } else {
      TurnedByDivision(Bump(gen), n - 1);
      if gen + 1 == GENS {
        var q, r := (n - 1) / (GENS - 1), (n - 1) % (GENS - 1);
        DivUnique(gen - 1 + n, GENS - 1, q + 1, r);
      }
    }
  }

  lemma {:induction false} TurnedIs(gen: nat, n: nat)
    requires 1 <= gen < GENS
    ensures Turned(gen, n) == gen <==> n % (GENS - 1) == 0
  {
    var b := GENS - 1;
    var q, r := n / b, n % b;
    assert n == q * b + r;
    TurnedByDivision(gen, n);
    if gen - 1 + r < b {
      DivUnique(gen - 1 + n, b, q, gen - 1 + r);
    } else {
      DivUnique(gen - 1 + n, b, q + 1, gen - 1 + r - b);
    }
  }

  /** Slot `i` was emptied `n` times between the two tables: its generation tells, and with none its entry is still there. */
  ghost predicate Counted(t0: Table, t1: Table, n: nat, i: nat) {
    && Sized(t0) && Sized(t1) && i < SLOTS
    && t1.gens[i] == Turned(t0.gens[i], n)
    && (n == 0 && t0.slots[i].Used? ==> t1.slots[i] == t0.slots[i])
  }

  lemma {:induction false} CountsOn(t0: Table, t1: Table, t2: Table, n: nat, i: nat)
    requires Steps(t0, t1, i) && i < SLOTS && 1 <= t0.gens[i] < GENS && Counted(t1, t2, n, i)
    ensures Counted(t0, t2, (if t1.gens[i] == t0.gens[i] then 0 else 1) + n, i)
  {
    if t1.gens[i] != t0.gens[i] { assert Turned(t0.gens[i], n + 1) == Turned(t1.gens[i], n); }
  }

  lemma {:induction false} CountsNothing(t: Table, i: nat)
    requires Sized(t) && i < SLOTS
    ensures Counted(t, t, 0, i)
  {
  }

  /** Along every run the generation tells how often the slot was emptied, and a slot never emptied keeps its entry. */
  lemma {:induction false} GenerationCounts(w: World, es: seq<Event>, t: nat, i: nat)
    requires WInv(w) && ValidRun(w, es) && t < |w.tables| && i < SLOTS
    ensures Counted(w.tables[t], Exec(w, es).tables[t], Emptied(w, es, t, i), i)
    decreases |es|
  {
    if es == [] {
      CountsNothing(w.tables[t], i);
    } else {
      var w1 := FirstEvent(w, es, t, i);
      GenerationCounts(w1, es[1..], t, i);
      CountsOn(w.tables[t], w1.tables[t], Exec(w1, es[1..]).tables[t], Emptied(w1, es[1..], t, i), i);
    }
  }

  /** A run as its first event and the rest. */
  lemma {:induction false} FirstEvent(w: World, es: seq<Event>, t: nat, i: nat) returns (w1: World)
    requires WInv(w) && es != [] && ValidRun(w, es) && t < |w.tables| && i < SLOTS
    ensures WInv(w1) && |w1.tables| == |w.tables| && ValidRun(w1, es[1..]) && Exec(w, es) == Exec(w1, es[1..])
    ensures Steps(w.tables[t], w1.tables[t], i) && 1 <= w.tables[t].gens[i] < GENS
    ensures Emptied(w, es, t, i)
            == (if w1.tables[t].gens[i] == w.tables[t].gens[i] then 0 else 1) + Emptied(w1, es[1..], t, i)
  {
    assert SlotAt(w.tables[t], i);
    w1 := Next(w, es[0]);
    NextKeepsWInv(w, es[0]);
    NextSteps(w, es[0], t, i);
  }

  lemma {:induction false} ResolvesByGeneration(t0: Table, t1: Table, h: nat)
    requires Sized(t0) && Inv(t1) && Lookup(t0, h, 0).Found?
    ensures Index(h) < SLOTS
    ensures Lookup(t1, h, 0).Found? <==> t1.slots[Index(h)].Used? && t1.gens[Index(h)] == t0.gens[Index(h)]
    ensures t1.slots[Index(h)] == t0.slots[Index(h)] && t1.gens[Index(h)] == t0.gens[Index(h)] ==>
              Lookup(t1, h, 0) == Lookup(t0, h, 0)
  {
    assert SlotAt(t1, Index(h));
  }

  lemma {:induction false} SmallIsNoMultiple(n: nat)
    requires 0 < n < GENS - 1
    ensures n % (GENS - 1) != 0
  {
    DivUnique(n, GENS - 1, 0, n);
  }

  lemma {:induction false} TurnedLifetime(gen: nat, n: nat)
    requires 1 <= gen < GENS
    ensures Turned(gen, n) == gen <==> n % (GENS - 1) == 0
    ensures n == 0 ==> Turned(gen, n) == gen
    ensures 0 < n < GENS - 1 ==> Turned(gen, n) != gen
  {
    TurnedIs(gen, n);
    if 0 < n < GENS - 1 { SmallIsNoMultiple(n); }
  }

  /** The same, for a slot and the numbers of moves of its generation. */
  lemma {:induction false} SlotLifetime(w: World, es: seq<Event>, t: nat, i: nat)
    requires WInv(w) && ValidRun(w, es) && t < |w.tables| && i < SLOTS && w.tables[t].slots[i].Used?
    ensures var t0, t1, n := w.tables[t], Exec(w, es).tables[t], Emptied(w, es, t, i);
            && Sized(t0) && Sized(t1)
            && (n == 0 ==> t1.slots[i] == t0.slots[i] && t1.gens[i] == t0.gens[i])
            && (t1.gens[i] == t0.gens[i] <==> n % (GENS - 1) == 0)
            && (0 < n < GENS - 1 ==> t1.gens[i] != t0.gens[i])
  {
    assert SlotAt(w.tables[t], i);
    var n := Emptied(w, es, t, i);
    GenerationCounts(w, es, t, i);
    TurnedLifetime(w.tables[t].gens[i], n);
  }

  /**
   A handle resolves, to the same capability, until its slot is emptied. After that it resolves exactly
   when the slot is in use and has been emptied a whole multiple of 2^32 - 1 times.
   */
  lemma {:induction false} HandleLifetime(w: World, es: seq<Event>, t: nat, h: nat)
    requires WInv(w) && ValidRun(w, es) && t < |w.tables| && Lookup(w.tables[t], h, 0).Found?
    ensures Index(h) < SLOTS
    ensures var n, later := Emptied(w, es, t, Index(h)), Exec(w, es).tables[t];
            && Sized(later)
            && (n == 0 ==> Lookup(later, h, 0) == Lookup(w.tables[t], h, 0))
            && (Lookup(later, h, 0).Found? <==> n % (GENS - 1) == 0 && later.slots[Index(h)].Used?)
            && (0 < n < GENS - 1 ==> Lookup(later, h, 0).Failed?)
  {
    ResolvesByGeneration(w.tables[t], Exec(w, es).tables[t], h);
    SlotLifetime(w, es, t, Index(h));
  }

  // ------------------------------------------------------------ a handle comes back

  /** Slot `i` of table `t` holds `c`, of generation `gen`. */
  ghost predicate HoldsCap(w: World, t: nat, i: nat, c: Cap, gen: nat) {
    t < |w.tables| && i < SLOTS && Sized(w.tables[t]) && w.tables[t].slots[i] == Used(Entry(c, gen)) && w.tables[t].gens[i] == gen
  }

  lemma {:induction false} DropEmpties(w: World, t: nat, i: nat, c: Cap, gen: nat)
    requires WInv(w) && HoldsCap(w, t, i, c, gen)
    ensures var w1 := Next(w, Drop(t, Make(gen, i)));
            && WInv(w1) && |w1.tables| == |w.tables| && 1 <= gen < GENS
            && w1.tables[t] == Clear(w.tables[t], i) && w1.tables[t].free == w.tables[t].free + [i]
  {
    NextKeepsWInv(w, Drop(t, Make(gen, i)));
    HandleSplits(gen, i);
    assert SlotAt(w.tables[t], i);
    ClearKeepsInv(w.tables[t], i);
  }

  lemma {:induction false} CreateFills(w: World, t: nat, i: nat, c: Cap)
    requires WInv(w) && t < |w.tables| && i < SLOTS && w.tables[t].free != [] && w.tables[t].free[|w.tables[t].free| - 1] == i
    ensures var w1 := Next(w, Create(t, c, true));
            WInv(w1) && |w1.tables| == |w.tables| && HoldsCap(w1, t, i, c, w.tables[t].gens[i])
  {
    NextKeepsWInv(w, Create(t, c, true));
  }

  /** Dropping a capability and creating another puts it in the same slot, one generation on. */
  lemma {:induction false} ReuseOnce(w: World, t: nat, i: nat, c: Cap, gen: nat, d: Cap)
    requires WInv(w) && HoldsCap(w, t, i, c, gen)
    ensures var w1 := Next(w, Drop(t, Make(gen, i)));
            && WInv(w1) && Enabled(w1, Create(t, d, true)) && 1 <= gen < GENS
            && WInv(Next(w1, Create(t, d, true))) && HoldsCap(Next(w1, Create(t, d, true)), t, i, d, Bump(gen))
  {
    DropEmpties(w, t, i, c, gen);
    CreateFills(Next(w, Drop(t, Make(gen, i))), t, i, d);
  }

  lemma {:induction false} RunStep(w: World, a: Event, w1: World, rest: seq<Event>)
    requires WInv(w) && Enabled(w, a) && w1 == Next(w, a) && WInv(w1) && ValidRun(w1, rest)
    ensures ValidRun(w, [a] + rest) && Exec(w, [a] + rest) == Exec(w1, rest)
  {
    assert ([a] + rest)[1..] == rest;
  }

  lemma {:induction false} TwoSteps(w: World, a: Event, w1: World, b: Event, w2: World, rest: seq<Event>)
    requires WInv(w) && Enabled(w, a) && w1 == Next(w, a) && WInv(w1) && Enabled(w1, b)
    requires w2 == Next(w1, b) && WInv(w2) && ValidRun(w2, rest)
    ensures ValidRun(w, [a, b] + rest) && Exec(w, [a, b] + rest) == Exec(w2, rest)
  {
    RunStep(w1, b, w2, rest);
    RunStep(w, a, w1, [b] + rest);
    assert [a, b] + rest == [a] + ([b] + rest);
  }

  lemma {:induction false} Reuse(w: World, t: nat, i: nat, c: Cap, gen: nat, d: Cap, n: nat) returns (es: seq<Event>)
    requires WInv(w) && HoldsCap(w, t, i, c, gen) && n > 0
    ensures ValidRun(w, es) && HoldsCap(Exec(w, es), t, i, d, Turned(gen, n))
    decreases n
  {
    var a, b := Drop(t, Make(gen, i)), Create(t, d, true);
    ReuseOnce(w, t, i, c, gen, d);
    var w2 := Next(Next(w, a), b);
    if n == 1 {
      assert Turned(gen, 1) == Turned(Bump(gen), 0);
      es := [a, b] + [];
      TwoSteps(w, a, Next(w, a), b, w2, []);
    } else {
      var rest := Reuse(w2, t, i, d, Bump(gen), d, n - 1);
      es := [a, b] + rest;
      TwoSteps(w, a, Next(w, a), b, w2, rest);
    }
  }

  /** From every world there is a run after which a handle that resolves names any other capability instead. */
  lemma {:induction false} HandleComesBack(w: World, t: nat, h: nat, d: Cap) returns (es: seq<Event>)
    requires WInv(w) && t < |w.tables| && Lookup(w.tables[t], h, 0).Found?
    ensures ValidRun(w, es) && Lookup(Exec(w, es).tables[t], h, 0) == Found(Entry(d, Gen(h)))
  {
    var e, i := Lookup(w.tables[t], h, 0).entry, Index(h);
    assert SlotAt(w.tables[t], i);
    es := Reuse(w, t, i, e.cap, e.gen, d, GENS - 1);
    TurnedIs(e.gen, GENS - 1);
  }
}
