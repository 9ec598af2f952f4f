/** The capability table in its arrays, and the operations between tables, also when both are the same one. */
module CapTable {
  import opened CapSpec
  import opened CapRuns

  class Space {
    const slots: array<Slot>
    const gens: array<nat>
    const freeStack: array<nat>
    var freeTop: nat

    ghost predicate Shape()
      reads this
    {
      && slots.Length == SLOTS && gens.Length == SLOTS && freeStack.Length == SLOTS
      && gens != freeStack && freeTop <= SLOTS
    }

    ghost function Abs(): Table
      requires Shape()
      reads this, slots, gens, freeStack
    {
      Table(slots[..], gens[..], freeStack[..freeTop])
    }

    ghost predicate Valid()
      reads this, slots, gens, freeStack
    {
      Shape() && Inv(Abs())
    }

    constructor ()
      ensures Valid() && Abs() == Init()
      ensures fresh(slots) && fresh(gens) && fresh(freeStack)
    {
      slots := new Slot[SLOTS](_ => Empty);
      gens := new nat[SLOTS](_ => 1);
      freeStack := new nat[SLOTS](i => i);
      freeTop := SLOTS;
      new;
      InitHolds();
      assert Abs() == Init();
    }

    method AllocSlot() returns (st: Status, i: nat)
      requires Valid()
      modifies this`freeTop
      ensures Shape() && slots[..] == old(slots[..]) && gens[..] == old(gens[..])
      ensures if old(freeTop) == 0 then st == NoSlots && freeTop == 0
              else st == Ok && freeTop == old(freeTop) - 1 && i == freeStack[freeTop] && i < SLOTS
    {
      if freeTop == 0 { return NoSlots, 0; }
      assert FreeAt(Abs(), freeTop - 1);
      freeTop := freeTop - 1;
      i := freeStack[freeTop];
      if i >= SLOTS { return Invalid, i; }
      return Ok, i;
    }

    method FreeSlot(i: nat)
      requires Shape() && i < SLOTS
      modifies this`freeTop, freeStack
      ensures Shape() && slots[..] == old(slots[..]) && gens[..] == old(gens[..])
      ensures freeStack[..freeTop] ==
              if old(freeTop) < SLOTS then old(freeStack[..freeTop]) + [i] else old(freeStack[..freeTop])
    {
      if freeTop < SLOTS {
        freeStack[freeTop] := i;
        freeTop := freeTop + 1;
      }
    }

    method Add(c: Cap, mem: bool) returns (st: Status, h: nat)
      requires Valid()
      modifies this`freeTop, slots, freeStack
      ensures Valid() && (Abs(), st, h) == Insert(old(Abs()), c, mem)
    {
      InsertKeepsInv(Abs(), c, mem);
      ghost var was := Abs();
      var i;
      st, i := AllocSlot();
      if st != Ok { return st, 0; }
      if !mem {
        assert freeStack[..freeTop] == was.free[..|was.free| - 1];
        FreeSlot(i);
        return NoMem, 0;
      }
      slots[i] := Used(Entry(c, gens[i]));
      h := Make(gens[i], i);
      assert slots[..] == was.slots[i := Used(Entry(c, gens[i]))];
      assert freeStack[..freeTop] == was.free[..|was.free| - 1];
    }

    method Find(h: nat, need: Rights) returns (r: Result)
      requires Shape()
      ensures r == Lookup(Abs(), h, need)
    {
      var i := Index(h);
      if i >= SLOTS { return Failed(Invalid); }
      return Judge(slots[i], gens[i], Gen(h), need);
    }

    /** Take slot `i` out of use: empty it, move its generation on, give it back. */
    method Retire(i: nat)
      requires Valid() && i < SLOTS && slots[i].Used?
      modifies this`freeTop, slots, gens, freeStack
      ensures Valid() && Abs() == Clear(old(Abs()), i)
    {
      ClearKeepsInv(Abs(), i);
      slots[i] := Empty;
      gens[i] := Bump(gens[i]);
      FreeSlot(i);
    }

    method Delete(h: nat) returns (st: Status)
      requires Valid()
      modifies this`freeTop, slots, gens, freeStack
      ensures Valid() && (Abs(), st) == Remove(old(Abs()), h)
    {
      var e := Find(h, 0);
      if e.Failed? { return e.status; }
      Retire(Index(h));
      return Ok;
    }

    method RetireIf(i: nat, obj: nat)
      requires Valid() && i < SLOTS
      modifies this`freeTop, slots, gens, freeStack
      ensures Valid() && InvalidateFrom(Abs(), obj, i + 1) == InvalidateFrom(old(Abs()), obj, i)
    {
      if slots[i].Used? && slots[i].entry.cap.obj == obj { Retire(i); }
    }

    method InvalidateObject(obj: nat)
      requires Valid()
      modifies this`freeTop, slots, gens, freeStack
      ensures Valid() && Abs() == if obj == 0 then old(Abs()) else InvalidateFrom(old(Abs()), obj, 0)
    {
      if obj == 0 { return; }
      var i := 0;
      while i < SLOTS
        invariant 0 <= i <= SLOTS && Valid()
        invariant InvalidateFrom(old(Abs()), obj, 0) == InvalidateFrom(Abs(), obj, i)
      {
        RetireIf(i, obj);
        i := i + 1;
      }
    }
  }

  /** Two tables that are the same one, or share nothing. */
  ghost predicate Separate(src: Space, dst: Space)
    reads src, dst
  {
    src != dst ==>
      && src.slots != dst.slots
      && {src.gens, src.freeStack} !! {dst.gens, dst.freeStack}
  }

  /** The tables as a run sees them: one, or two. */
  ghost function Both(src: Space, dst: Space): seq<Table>
    requires src.Shape() && dst.Shape()
    reads src, src.slots, src.gens, src.freeStack, dst, dst.slots, dst.gens, dst.freeStack
  {
    if src == dst then [src.Abs()] else [src.Abs(), dst.Abs()]
  }

  ghost function Second(src: Space, dst: Space): nat { if src == dst then 0 else 1 }

  /** What changing one of the tables does to the list of both. */
  lemma {:induction false} Replaced(s: Table, d: Table, x: Table)
    ensures [s, d][0 := x] == [x, d] && [s, d][1 := x] == [s, x] && [s][0 := x] == [x]
  {
  }

  method DupCap(src: Space, h: nat, dst: Space, mask: Rights, mem: bool) returns (st: Status, out: nat)
    requires src.Valid() && dst.Valid() && Separate(src, dst)
    modifies dst`freeTop, dst.slots, dst.freeStack
    ensures src.Valid() && dst.Valid()
    ensures AllInv(old(Both(src, dst)))
    ensures (Both(src, dst), st, out) == DoDup(old(Both(src, dst)), 0, h, Second(src, dst), mask, mem)
  {
    var e := src.Find(h, R_DUP);
    if e.Failed? { return Denied, 0; }
    ghost var s, d := src.Abs(), dst.Abs();
    st, out := dst.Add(Masked(e.entry.cap, mask), mem);
    Replaced(s, d, dst.Abs());
  }

  /** Insert at the destination, remove at the source, and take the insertion back if that fails. */
  method TransferCap(src: Space, h: nat, dst: Space, mask: Rights, mem: bool) returns (st: Status, out: nat)
    requires src.Valid() && dst.Valid() && Separate(src, dst)
    modifies src`freeTop, src.slots, src.gens, src.freeStack, dst`freeTop, dst.slots, dst.gens, dst.freeStack
    ensures src.Valid() && dst.Valid()
    ensures AllInv(old(Both(src, dst)))
    ensures (Both(src, dst), st, out) == DoTransfer(old(Both(src, dst)), 0, h, Second(src, dst), mask, mem)
  {
    var e := src.Find(h, R_TRANSFER);
    if e.Failed? { return Denied, 0; }
    ghost var s, d := src.Abs(), dst.Abs();
    st, out := dst.Add(Masked(e.entry.cap, mask), mem);
    ghost var d1 := dst.Abs();
    Replaced(s, d, d1);
    if st != Ok { return; }
    st := src.Delete(h);
    Replaced(s, d1, src.Abs());
    Replaced(d1, d1, src.Abs());
    if st != Ok {
      ghost var s2, d2 := src.Abs(), dst.Abs();
      var undone := dst.Delete(out);
      Replaced(s2, d2, dst.Abs());
    }
  }
}
