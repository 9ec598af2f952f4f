/**
 Capability tables as values: generation-tagged handles, the stack of free slots,
 lookup, insertion, removal, and the operations between two tables.
 */
module CapSpec {
  import opened Arith

  const SLOTS: nat := 256
  const GENS: nat := 0x1_0000_0000   // generations are 32 bits wide, and never zero

  type Rights = bv32
  const R_DUP: Rights := 0x8
  const R_TRANSFER: Rights := 0x10

  datatype Cap = Cap(kind: nat, rights: Rights, obj: nat)
  datatype Entry = Entry(cap: Cap, gen: nat)
  datatype Slot = Empty | Used(entry: Entry)
  datatype Status = Ok | Invalid | NoSlots | Denied | NoMem

  /** `free` is the stack, top last. */
  datatype Table = Table(slots: seq<Slot>, gens: seq<nat>, free: seq<nat>)

  // -------------------------------------------------------------------- handles

  function Make(gen: nat, i: nat): nat { gen * GENS + i }
  function Index(h: nat): nat { h % GENS }
  function Gen(h: nat): nat { h / GENS }

  lemma {:induction false} HandleSplits(gen: nat, i: nat)
    requires i < GENS
    ensures Index(Make(gen, i)) == i && Gen(Make(gen, i)) == gen
  {
    DivMulAdd(gen, GENS, i);
  }

  function Bump(gen: nat): nat { if gen + 1 == GENS then 1 else gen + 1 }

  // ------------------------------------------------------------------ invariant

  predicate Sized(t: Table) { |t.slots| == SLOTS && |t.gens| == SLOTS }

  ghost predicate FreeAt(t: Table, k: nat)
    requires Sized(t)
  {
    k < |t.free| ==> t.free[k] < SLOTS && t.slots[t.free[k]].Empty?
  }

  ghost predicate SlotAt(t: Table, i: nat)
    requires Sized(t)
  {
    i < SLOTS ==>
      && 1 <= t.gens[i] < GENS
      && (t.slots[i].Used? ==> t.slots[i].entry.gen == t.gens[i])
      && (t.slots[i].Empty? ==> i in t.free)
  }

  /** The free stack is a list without repeats of exactly the empty slots. */
  ghost predicate Inv(t: Table) {
    && Sized(t)
    && (forall k: nat :: FreeAt(t, k))
    && (forall i: nat :: SlotAt(t, i))
    && (forall i, j :: 0 <= i < j < |t.free| ==> t.free[i] != t.free[j])
  }

  function Init(): Table {
    Table(seq(SLOTS, _ => Empty), seq(SLOTS, _ => 1), seq(SLOTS, i => i))
  }

  lemma {:induction false} InitHolds()
    ensures Inv(Init())
  {
    var t := Init();
    forall i: nat ensures SlotAt(t, i) { if i < SLOTS { assert t.free[i] == i; } }
    assert forall k: nat :: FreeAt(t, k);
  }

  // ----------------------------------------------------------------- operations

  datatype Result = Found(entry: Entry) | Failed(status: Status)

  /** What a slot of generation `g` answers to a handle of generation `gen` that needs some rights. */
  function Judge(s: Slot, g: nat, gen: nat, need: Rights): Result {
    if s.Empty? then Failed(Invalid)
    else if gen == 0 || gen != g || gen != s.entry.gen then Failed(Invalid)
    else if s.entry.cap.rights & need != need then Failed(Denied)
    else Found(s.entry)
  }

  function Lookup(t: Table, h: nat, need: Rights): Result
    requires Sized(t)
  {
    if Index(h) >= SLOTS then Failed(Invalid) else Judge(t.slots[Index(h)], t.gens[Index(h)], Gen(h), need)
  }

  /** Insert; `mem` says whether an entry can be allocated. */
  function Insert(t: Table, c: Cap, mem: bool): (r: (Table, Status, nat))
    requires Inv(t)
    ensures Sized(r.0)
  {
    if t.free == [] then (t, NoSlots, 0)
    else
      var k := |t.free| - 1;
      var i := t.free[k];
      assert FreeAt(t, k);
      if !mem then (t.(free := t.free[..k] + [i]), NoMem, 0)
      else (t.(slots := t.slots[i := Used(Entry(c, t.gens[i]))], free := t.free[..k]), Ok, Make(t.gens[i], i))
  }

  /** Take slot `i` out of use. */
  function Clear(t: Table, i: nat): (r: Table)
    requires Sized(t) && i < SLOTS
    ensures Sized(r)
  {
    Table(t.slots[i := Empty], t.gens[i := Bump(t.gens[i])], if |t.free| < SLOTS then t.free + [i] else t.free)
  }

  function Remove(t: Table, h: nat): (r: (Table, Status))
    requires Sized(t)
    ensures Sized(r.0)
  {
    var e := Lookup(t, h, 0);
    if e.Failed? then (t, e.status) else (Clear(t, Index(h)), Ok)
  }

  function InvalidateFrom(t: Table, obj: nat, i: nat): (r: Table)
    requires Sized(t) && i <= SLOTS
    ensures Sized(r)
    decreases SLOTS - i, t
  {
    if i == SLOTS then t
    else InvalidateFrom(if t.slots[i].Used? && t.slots[i].entry.cap.obj == obj then Clear(t, i) else t, obj, i + 1)
  }

  // -------------------------------------------------------- the invariant is kept

  ghost predicate BelowAt(s: seq<nat>, n: nat, i: nat) { i < |s| ==> s[i] < n }

  lemma {:induction false} Pigeonhole(s: seq<nat>, n: nat)
    requires forall i: nat :: BelowAt(s, n, i)
    requires forall i, j :: 0 <= i < j < |s| ==> s[i] != s[j]
    ensures |s| <= n
    decreases n
  {
    if n == 0 {
      assert BelowAt(s, 0, 0);
    } else if exists k :: 0 <= k < |s| && s[k] == n - 1 {
      var k :| 0 <= k < |s| && s[k] == n - 1;
      var r := s[..k] + s[k + 1..];
      assert forall i :: 0 <= i < |r| ==> r[i] == if i < k then s[i] else s[i + 1];
      var m := n - 1;
      forall i: nat ensures BelowAt(r, m, i) { assert BelowAt(s, n, if i < k then i else i + 1); }
      Pigeonhole(r, m);
    } else {
      var m := n - 1;
      forall i: nat ensures BelowAt(s, m, i) { assert BelowAt(s, n, i); }
      Pigeonhole(s, m);
    }
  }

  lemma {:induction false} PopAndPush(t: Table)
    requires t.free != []
    ensures t.free[..|t.free| - 1] + [t.free[|t.free| - 1]] == t.free
  {
  }

  /** A failed insertion, for want of a slot or of memory, leaves the table as it was. */
  lemma {:induction false} InsertFails(t: Table, c: Cap, mem: bool)
    requires Inv(t)
    ensures var r := Insert(t, c, mem);
            && (r.1 == Ok <==> t.free != [] && mem)
            && (r.1 != Ok ==> r.0 == t)
  {
    if t.free != [] { PopAndPush(t); }
  }

  lemma {:induction false} InsertKeepsInv(t: Table, c: Cap, mem: bool)
    requires Inv(t)
    ensures Inv(Insert(t, c, mem).0)
  {
    InsertFails(t, c, mem);
    var t' := Insert(t, c, mem).0;
    if t.free != [] && mem {
      var k := |t.free| - 1;
      assert FreeAt(t, k);
      forall j: nat ensures FreeAt(t', j) { assert FreeAt(t, j); }
      forall j: nat ensures SlotAt(t', j) {
        assert SlotAt(t, j);
        if j < SLOTS && t'.slots[j].Empty? {
          var m :| 0 <= m < |t.free| && t.free[m] == j;
          assert t'.free[m] == j;
        }
      }
    }
  }

  lemma {:induction false} UsedIsNotFree(t: Table, i: nat)
    requires Inv(t) && i < SLOTS && t.slots[i].Used?
    ensures i !in t.free
  {
    forall k | 0 <= k < |t.free| ensures t.free[k] != i { assert FreeAt(t, k); }
  }

  /** There is always room on the stack for a slot that is taken out of use. */
  lemma {:induction false} RoomOnStack(t: Table, i: nat)
    requires Inv(t) && i < SLOTS && t.slots[i].Used?
    ensures |t.free| < SLOTS
  {
    UsedIsNotFree(t, i);
    var s := t.free + [i];
    forall k: nat ensures BelowAt(s, SLOTS, k) { assert FreeAt(t, k); }
    Pigeonhole(s, SLOTS);
  }

  lemma {:induction false} ClearKeepsInv(t: Table, i: nat)
    requires Inv(t) && i < SLOTS && t.slots[i].Used?
    ensures Inv(Clear(t, i)) && Clear(t, i).free == t.free + [i]
  {
    RoomOnStack(t, i);
    UsedIsNotFree(t, i);
    var t' := Clear(t, i);
    assert SlotAt(t, i);
    forall k: nat ensures FreeAt(t', k) { assert FreeAt(t, k); }
    forall j: nat ensures SlotAt(t', j) {
      assert SlotAt(t, j);
      if j == i {
        assert t'.free[|t.free|] == i;
      } else if j < SLOTS && t.slots[j].Empty? {
        var m :| 0 <= m < |t.free| && t.free[m] == j;
        assert t'.free[m] == j;
      }
    }
  }

  lemma {:induction false} RemoveKeepsInv(t: Table, h: nat)
    requires Inv(t)
    ensures Inv(Remove(t, h).0)
  {
    if Lookup(t, h, 0).Found? { ClearKeepsInv(t, Index(h)); }
  }

  lemma {:induction false} InvalidateKeepsInv(t: Table, obj: nat, i: nat)
    requires Inv(t) && i <= SLOTS
    ensures Inv(InvalidateFrom(t, obj, i))
    decreases SLOTS - i
  {
    if i < SLOTS {
      var hit := t.slots[i].Used? && t.slots[i].entry.cap.obj == obj;
      if hit { ClearKeepsInv(t, i); }
      InvalidateKeepsInv(if hit then Clear(t, i) else t, obj, i + 1);
    }
  }

  /** A new handle resolves to what was inserted, and no other slot changes. */
  lemma {:induction false} InsertResolves(t: Table, c: Cap, mem: bool)
    requires Inv(t) && Insert(t, c, mem).1 == Ok
    ensures var (t', _, h) := Insert(t, c, mem);
            var i := Index(h);
            && i < SLOTS && t.slots[i].Empty? && h == Make(t.gens[i], i) && h != 0
            && Lookup(t', h, 0) == Found(Entry(c, t.gens[i]))
            && t' == t.(slots := t.slots[i := Used(Entry(c, t.gens[i]))], free := t.free[..|t.free| - 1])
  {
    var k := |t.free| - 1;
    assert FreeAt(t, k);
    assert SlotAt(t, t.free[k]);
    HandleSplits(t.gens[t.free[k]], t.free[k]);
  }

  /** The handle zero, which stands for no capability, never resolves. */
  lemma {:induction false} ZeroNeverResolves(t: Table, need: Rights)
    requires Sized(t)
    ensures Lookup(t, 0, need).Failed?
  {
  }
}
