/**
 Directory clusters: 32-byte slots, long and short names, the scan that lists a
 cluster's entries, and rewriting one entry's first cluster and size in place.
 */
module FatDir {
  import opened Options
  import opened Bytes

  datatype Entry = Entry(name: Buf, attr: byte, first: nat, size: nat) {
    predicate IsDir() { attr as nat / 16 % 2 == 1 }
  }

  datatype Record = Record(entry: Entry, offset: nat)

  const SLOT: nat := 32

  // ------------------------------------------------------------ parts of a slot

  function ToUpper(b: byte): byte { if 0x61 <= b <= 0x7A then b - 0x20 else b }

  function Upper(s: Buf): Buf { seq(|s|, i requires 0 <= i < |s| => ToUpper(s[i])) }

  function TrimLeft(s: Buf): Buf {
    if s == [] || s[0] != 0x20 then s else TrimLeft(s[1..])
  }

  function TrimRight(s: Buf): Buf {
    if s == [] || s[|s| - 1] != 0x20 then s else TrimRight(s[..|s| - 1])
  }

  function TrimSpaces(s: Buf): Buf { TrimRight(TrimLeft(s)) }

  /** The name in the first eleven bytes: eight, and three behind a dot. */
  function ShortName(eleven: Buf): Option<Buf>
    requires |eleven| == 11
  {
    var base, ext := TrimSpaces(eleven[..8]), TrimSpaces(eleven[8..]);
    if base == [] then None
    else Some(Upper(base) + if ext == [] then [] else [0x2E] + Upper(ext))
  }

  const LFN_AT: seq<nat> := [1, 3, 5, 7, 9, 14, 16, 18, 20, 22, 24, 28, 30]

  /** The characters of a long-name slot, up to the first terminator. */
  function LfnChars(slot: Buf, k: nat): seq<nat>
    requires k <= |LFN_AT|
    decreases |LFN_AT| - k
  {
    if k == |LFN_AT| then []
    else
      var ch := Read16(slot, LFN_AT[k]);
      if ch == 0 || ch == 0xFFFF then [] else [ch] + LfnChars(slot, k + 1)
  }

  function LfnByte(ch: nat): byte { if ch <= 0x7F then ch else 0x3F }

  /** Long-name pieces stand last piece first. */
  function LfnName(pieces: seq<seq<nat>>): Buf {
    if pieces == [] then []
    else
      var last := pieces[|pieces| - 1];
      seq(|last|, i requires 0 <= i < |last| => LfnByte(last[i])) + LfnName(pieces[..|pieces| - 1])
  }

  function FirstOf(slot: Buf): nat { Read16(slot, 20) * 0x1_0000 + Read16(slot, 26) }

  function SizeOf(slot: Buf): nat { Read32(slot, 28) }

  /** A slot as it is read: the end, one that lists nothing, a piece of a long name, or an entry. */
  datatype Slot = End | Skip | Long(chars: seq<nat>) | Plain(attr: byte, short: Option<Buf>, first: nat, size: nat)

  function Parse(slot: Buf): Slot
    requires |slot| == SLOT
  {
    if slot[0] == 0 then End
    else if slot[0] == 0xE5 then Skip
    else if slot[11] == 0x0F then Long(LfnChars(slot, 0))
    else if slot[11] as nat / 8 % 2 == 1 then Skip
    else Plain(slot[11], ShortName(slot[..11]), FirstOf(slot), SizeOf(slot))
  }

  function SlotAt(data: Buf, i: nat): (s: Buf)
    requires (i + 1) * SLOT <= |data|
    ensures |s| == SLOT
  {
    data[i * SLOT..i * SLOT + SLOT]
  }

  /** All the slots of a directory cluster. */
  ghost function Slots(data: Buf): (s: seq<Slot>)
    ensures |s| == |data| / SLOT
    ensures forall i :: 0 <= i < |s| ==> s[i] == Parse(SlotAt(data, i))
  {
    seq(|data| / SLOT, i requires 0 <= i < |data| / SLOT => Parse(SlotAt(data, i)))
  }

  // ------------------------------------------------------------------- the scan

  function NameOf(short: Option<Buf>, pieces: seq<seq<nat>>): Option<Buf> {
    if LfnName(pieces) != [] then Some(LfnName(pieces)) else short
  }

  /** What a slot adds to the listing, and the long-name pieces it leaves for the next one. */
  function Emit(slot: Slot, pieces: seq<seq<nat>>, i: nat): seq<Record> {
    if !slot.Plain? then []
    else
      var name := NameOf(slot.short, pieces);
      if name.None? then [] else [Record(Entry(name.value, slot.attr, slot.first, slot.size), i * SLOT)]
  }

  function Carry(slot: Slot, pieces: seq<seq<nat>>): seq<seq<nat>> {
    if !slot.Long? then []
    else if slot.chars == [] then pieces
    else pieces + [slot.chars]
  }

  /** The entries from slot `i` on, with the long-name pieces read so far. */
  ghost function Scan(slots: seq<Slot>, i: nat, pieces: seq<seq<nat>>): seq<Record>
    decreases |slots| - i
  {
    if i >= |slots| || slots[i].End? then []
    else Emit(slots[i], pieces, i) + Scan(slots, i + 1, Carry(slots[i], pieces))
  }

  ghost function Records(data: Buf): seq<Record> { Scan(Slots(data), 0, []) }

  lemma {:induction false} ScanStep(slots: seq<Slot>, i: nat, pieces: seq<seq<nat>>, before: seq<Record>)
    requires i < |slots| && !slots[i].End?
    ensures before + Scan(slots, i, pieces)
            == (before + Emit(slots[i], pieces, i)) + Scan(slots, i + 1, Carry(slots[i], pieces))
  {
  }

  ghost predicate SlotIs(data: Buf, slots: seq<Slot>, i: nat) {
    if i < |slots| then (i + 1) * SLOT <= |data| && slots[i] == Parse(SlotAt(data, i))
    else (i + 1) * SLOT > |data|
  }

  method ReadSlot(data: Buf, i: nat, ghost slots: seq<Slot>) returns (slot: Option<Slot>)
    requires SlotIs(data, slots, i)
    ensures slot == if i < |slots| then Some(slots[i]) else None
  {
    if (i + 1) * SLOT > |data| { return None; }
    return Some(Parse(SlotAt(data, i)));
  }

  method ScanSlots(data: Buf, ghost slots: seq<Slot>) returns (records: seq<Record>)
    requires forall i: nat :: SlotIs(data, slots, i)
    ensures records == Scan(slots, 0, [])
  {
    records := [];
    var pieces: seq<seq<nat>>, i := [], 0;
    assert SlotIs(data, slots, 0);
    var slot := ReadSlot(data, 0, slots);
    while slot.Some? && !slot.value.End?
      invariant slot == if i < |slots| then Some(slots[i]) else None
      invariant Scan(slots, 0, []) == records + Scan(slots, i, pieces)
      decreases |slots| - i
    {
      ScanStep(slots, i, pieces, records);
      records, pieces, i := records + Emit(slot.value, pieces, i), Carry(slot.value, pieces), i + 1;
      assert SlotIs(data, slots, i);
      slot := ReadSlot(data, i, slots);
    }
  }

  method ScanEntries(data: Buf) returns (records: seq<Record>)
    ensures records == Records(data)
  {
    records := ScanSlots(data, Slots(data));
  }

  /** A listed entry stands on a slot of its own, with that slot's attributes and first cluster. */
  ghost predicate Stands(slots: seq<Slot>, r: Record) {
    && r.offset % SLOT == 0 && r.offset / SLOT < |slots| && slots[r.offset / SLOT].Plain?
    && slots[r.offset / SLOT].attr == r.entry.attr && slots[r.offset / SLOT].first == r.entry.first
  }

  lemma {:induction false} ListedStands(slots: seq<Slot>, i: nat, pieces: seq<seq<nat>>, k: nat)
    requires k < |Scan(slots, i, pieces)|
    ensures Stands(slots, Scan(slots, i, pieces)[k])
    decreases |slots| - i
  {
    var here := Emit(slots[i], pieces, i);
    if k >= |here| { ListedStands(slots, i + 1, Carry(slots[i], pieces), k - |here|); }
  }

  // ----------------------------------------------------------- patching an entry

  /** The slot with a new first cluster and a new size. */
  function PatchSlot(slot: Buf, first: nat, size: nat): (r: Buf)
    requires |slot| == SLOT && first < 0x1_0000_0000 && size < 0x1_0000_0000
    ensures |r| == SLOT
  {
    Write32(Write16(Write16(slot, 20, first / 0x1_0000), 26, first % 0x1_0000), 28, size)
  }

  lemma {:induction false} PatchSlotReads(slot: Buf, first: nat, size: nat)
    requires |slot| == SLOT && first < 0x1_0000_0000 && size < 0x1_0000_0000
    ensures var r := PatchSlot(slot, first, size);
            FirstOf(r) == first && SizeOf(r) == size && r[..20] == slot[..20]
  {
    var hi, lo := LE16(first / 0x1_0000), LE16(first % 0x1_0000);
    LE16Back(first / 0x1_0000);
    LE16Back(first % 0x1_0000);
    LE32Back(size);
    var a := Splice(slot, 20, hi);
    var b := Splice(a, 26, lo);
    var r := Splice(b, 28, LE32(size));
    SpliceApart(a, 26, lo, 20, 22);
    SpliceApart(b, 28, LE32(size), 20, 22);
    SpliceApart(b, 28, LE32(size), 26, 28);
    SpliceApart(a, 26, lo, 0, 20);
    SpliceApart(b, 28, LE32(size), 0, 20);
  }

  lemma {:induction false} PatchSlotIs(slot: Buf, first: nat, size: nat)
    requires |slot| == SLOT && first < 0x1_0000_0000 && size < 0x1_0000_0000
    ensures PatchSlot(slot, first, size)
            == slot[..20] + LE16(first / 0x1_0000) + slot[22..26] + LE16(first % 0x1_0000) + LE32(size)
  {
    var a := Splice(slot, 20, LE16(first / 0x1_0000));
    var b := Splice(a, 26, LE16(first % 0x1_0000));
    assert a == slot[..20] + LE16(first / 0x1_0000) + slot[22..];
    assert b == slot[..20] + LE16(first / 0x1_0000) + slot[22..26] + LE16(first % 0x1_0000) + slot[28..];
  }

  /** Rewriting an entry twice alike is rewriting it once. */
  lemma {:induction false} PatchTwice(data: Buf, k: nat, first: nat, size: nat)
    requires (k + 1) * SLOT <= |data| && first < 0x1_0000_0000 && size < 0x1_0000_0000
    ensures Patch(Patch(data, k, first, size), k, first, size) == Patch(data, k, first, size)
  {
    var slot := SlotAt(data, k);
    var once := PatchSlot(slot, first, size);
    PatchSlotIs(slot, first, size);
    PatchSlotIs(once, first, size);
    assert once[..20] == slot[..20] && once[22..26] == slot[22..26];
    assert SlotAt(Patch(data, k, first, size), k) == once;
  }

  lemma {:induction false} PatchSlotParses(slot: Buf, first: nat, size: nat)
    requires |slot| == SLOT && Parse(slot).Plain? && first < 0x1_0000_0000 && size < 0x1_0000_0000
    ensures Parse(PatchSlot(slot, first, size)) == Parse(slot).(first := first, size := size)
  {
    var r := PatchSlot(slot, first, size);
    PatchSlotReads(slot, first, size);
    assert r[0] == r[..20][0] && slot[0] == slot[..20][0];
    assert r[11] == r[..20][11] && slot[11] == slot[..20][11];
    assert r[..11] == r[..20][..11] && slot[..11] == slot[..20][..11];
  }

  /** A directory cluster with the entry in slot `k` rewritten. */
  function Patch(data: Buf, k: nat, first: nat, size: nat): (r: Buf)
    requires (k + 1) * SLOT <= |data| && first < 0x1_0000_0000 && size < 0x1_0000_0000
    ensures |r| == |data|
  {
    Splice(data, k * SLOT, PatchSlot(SlotAt(data, k), first, size))
  }

  lemma {:induction false} PatchedSlots(data: Buf, k: nat, first: nat, size: nat)
    requires (k + 1) * SLOT <= |data| && Slots(data)[k].Plain?
    requires first < 0x1_0000_0000 && size < 0x1_0000_0000
    ensures Slots(Patch(data, k, first, size)) ==
            Slots(data)[k := Slots(data)[k].(first := first, size := size)]
  {
    var patched := Patch(data, k, first, size);
    forall i | 0 <= i < |data| / SLOT
      ensures SlotAt(patched, i) == if i == k then PatchSlot(SlotAt(data, k), first, size) else SlotAt(data, i)
    {
      if i != k { SpliceApart(data, k * SLOT, PatchSlot(SlotAt(data, k), first, size), i * SLOT, i * SLOT + SLOT); }
    }
    PatchSlotParses(SlotAt(data, k), first, size);
  }

  function Retouched(r: Record, at: nat, first: nat, size: nat): Record {
    if r.offset == at then r.(entry := r.entry.(first := first, size := size)) else r
  }

  function Retouch(records: seq<Record>, at: nat, first: nat, size: nat): (r: seq<Record>)
    ensures |r| == |records|
    ensures forall i :: 0 <= i < |r| ==> r[i] == Retouched(records[i], at, first, size)
  {
    seq(|records|, i requires 0 <= i < |records| => Retouched(records[i], at, first, size))
  }

  lemma {:induction false} RetouchConcat(a: seq<Record>, b: seq<Record>, at: nat, first: nat, size: nat)
    ensures Retouch(a + b, at, first, size) == Retouch(a, at, first, size) + Retouch(b, at, first, size)
  {
  }

  lemma {:induction false} ScanPatched(slots: seq<Slot>, i: nat, pieces: seq<seq<nat>>, k: nat, first: nat, size: nat)
    requires k < |slots| && slots[k].Plain?
    ensures Scan(slots[k := slots[k].(first := first, size := size)], i, pieces)
            == Retouch(Scan(slots, i, pieces), k * SLOT, first, size)
    decreases |slots| - i
  {
    if i < |slots| && !slots[i].End? {
      ScanPatched(slots, i + 1, Carry(slots[i], pieces), k, first, size);
      RetouchConcat(Emit(slots[i], pieces, i), Scan(slots, i + 1, Carry(slots[i], pieces)), k * SLOT, first, size);
    }
  }

  /** Rewriting an entry changes that entry's cluster and size in the listing, and nothing else. */
  lemma {:induction false} PatchedRecords(data: Buf, k: nat, first: nat, size: nat)
    requires (k + 1) * SLOT <= |data| && Slots(data)[k].Plain?
    requires first < 0x1_0000_0000 && size < 0x1_0000_0000
    ensures Records(Patch(data, k, first, size)) == Retouch(Records(data), k * SLOT, first, size)
  {
    PatchedSlots(data, k, first, size);
    ScanPatched(Slots(data), 0, [], k, first, size);
  }
}
